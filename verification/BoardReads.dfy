/** What the board answers, said of its rows alone: who may read what, which messages a thread shows and
    in which order, when a thread was last active, and what each call changes. */
module BoardReads {
  import opened BoardState
  import opened BoardRuns
  import Strings
  import opened Wrappers

  // ---- who may read ------------------------------------------------------------

  /** Everything for an admin; else what is visible and either public or one's own. */
  predicate Entitled(t: ThreadRow, viewer: string, isAdmin: bool) {
    isAdmin || (t.state == "visible" && (t.audience == "all" || (t.audience == "admin" && t.author == viewer)))
  }


  lemma {:induction false} LikesCount(likes: set<Like>, tid: string)
    ensures |LikesOf(likes, tid)| == |set l | l in likes && l.thread == tid|
    decreases likes
  {
    var of := set l | l in likes && l.thread == tid;
    if l :| l in of {
      var rest := likes - {l};
      LikesCount(rest, tid);
      assert (set x | x in rest && x.thread == tid) == of - {l};
      assert LikesOf(likes, tid) == LikesOf(rest, tid) + {l.user} by {
        forall u ensures u in LikesOf(likes, tid) <==> u in LikesOf(rest, tid) + {l.user} {
          LikeIs(likes, tid, u);
          LikeIs(rest, tid, u);
        }
      }
      LikeIs(rest, tid, l.user);
    } else {
      assert LikesOf(likes, tid) == {} by {
        forall u ensures u !in LikesOf(likes, tid) {
          LikeIs(likes, tid, u);
          assert Like(tid, u) !in of;
        }
      }
    }
  }

  lemma LikeIs(likes: set<Like>, tid: string, user: string)
    ensures user in LikesOf(likes, tid) <==> Like(tid, user) in likes
  {
    if Like(tid, user) in likes { assert Like(tid, user).user in LikesOf(likes, tid); }
    if user in LikesOf(likes, tid) {
      var l :| l in likes && l.thread == tid && l.user == user;
      assert l == Like(tid, user);
    }
  }

  // ---- which messages, and when last ---------------------------------------------

  ghost predicate Increasing(at: seq<nat>) { forall i, j | 0 <= i < j < |at| :: at[i] < at[j] }

  function Told(m: MessageRow): Message {
    Message(m.id, m.role, m.author, if m.state == "deleted" then "" else m.body, m.created, m.state)
  }

  lemma {:induction false} ShownAppend(ms: seq<MessageRow>, m: MessageRow, isAdmin: bool)
    ensures Shown(ms + [m], isAdmin) == Shown(ms, isAdmin) + if isAdmin || m.state == "visible" then [Told(m)] else []
  {
    if ms == [] {
      assert [] + [m] == [m] && [m][1..] == [];
    } else {
      assert (ms + [m])[0] == ms[0] && (ms + [m])[1..] == ms[1..] + [m];
      ShownAppend(ms[1..], m, isAdmin);
    }
  }

  predicate IsShown(m: MessageRow, tid: string, isAdmin: bool) {
    m.thread == tid && (isAdmin || m.state == "visible")
  }

  ghost predicate ShowsFirst(ms: seq<MessageRow>, n: nat, tid: string, isAdmin: bool, at: seq<nat>, shown: seq<Message>)
    requires n <= |ms|
  {
    && Increasing(at) && (forall i: nat :: i in at <==> i < n && IsShown(ms[i], tid, isAdmin))
    && |shown| == |at| && forall k | 0 <= k < |at| :: at[k] < n && shown[k] == Told(ms[at[k]])
  }

  lemma OneMoreShown(ms: seq<MessageRow>, n: nat, tid: string, isAdmin: bool, at: seq<nat>, shown: seq<Message>)
    requires n < |ms| && ShowsFirst(ms, n, tid, isAdmin, at, shown)
    ensures IsShown(ms[n], tid, isAdmin) ==> ShowsFirst(ms, n + 1, tid, isAdmin, at + [n], shown + [Told(ms[n])])
    ensures !IsShown(ms[n], tid, isAdmin) ==> ShowsFirst(ms, n + 1, tid, isAdmin, at, shown)
  {
  }

  lemma OneMoreRow(ms: seq<MessageRow>, n: nat, tid: string, isAdmin: bool)
    requires n < |ms|
    ensures Shown(MessagesOf(ms[..n + 1], tid), isAdmin) ==
            Shown(MessagesOf(ms[..n], tid), isAdmin) + if IsShown(ms[n], tid, isAdmin) then [Told(ms[n])] else []
  {
    assert ms[..n + 1] == ms[..n] + [ms[n]];
    MessagesOfAppend(ms[..n], ms[n], tid);
    var before := MessagesOf(ms[..n], tid);
    if ms[n].thread == tid {
      ShownAppend(before, ms[n], isAdmin);
    } else {
      assert MessagesOf(ms[..n + 1], tid) == before;
    }
  }

  lemma NextShown(ms: seq<MessageRow>, n: nat, tid: string, isAdmin: bool, at: seq<nat>) returns (more: seq<nat>)
    requires n < |ms| && ShowsFirst(ms, n, tid, isAdmin, at, Shown(MessagesOf(ms[..n], tid), isAdmin))
    ensures ShowsFirst(ms, n + 1, tid, isAdmin, more, Shown(MessagesOf(ms[..n + 1], tid), isAdmin))
  {
    var before := Shown(MessagesOf(ms[..n], tid), isAdmin);
    OneMoreShown(ms, n, tid, isAdmin, at, before);
    OneMoreRow(ms, n, tid, isAdmin);
    more := if IsShown(ms[n], tid, isAdmin) then at + [n] else at;
    assert before + [] == before;
  }

  lemma {:induction false} FirstShown(ms: seq<MessageRow>, n: nat, tid: string, isAdmin: bool) returns (at: seq<nat>)
    requires n <= |ms|
    ensures ShowsFirst(ms, n, tid, isAdmin, at, Shown(MessagesOf(ms[..n], tid), isAdmin))
  {
    if n == 0 {
      at := [];
      assert ms[..0] == [] && MessagesOf(ms[..0], tid) == [];
    } else {
      at := FirstShown(ms, n - 1, tid, isAdmin);
      at := NextShown(ms, n - 1, tid, isAdmin, at);
    }
  }

  /** A thread shows its rows in the order they were written: all of them to an admin, the visible ones
      to a participant, each as it is but for the body of a deleted one. */
  lemma ShownAre(ms: seq<MessageRow>, tid: string, isAdmin: bool) returns (at: seq<nat>)
    ensures ShowsFirst(ms, |ms|, tid, isAdmin, at, Shown(MessagesOf(ms, tid), isAdmin))
  {
    at := FirstShown(ms, |ms|, tid, isAdmin);
    assert ms[..|ms|] == ms;
  }

  ghost predicate LastOf(ms: seq<MessageRow>, tid: string, u: string) {
    && (exists m :: m in ms && m.thread == tid && m.created == u)
    && (forall m | m in ms && m.thread == tid :: Strings.Le(m.created, u))
  }

  lemma {:induction false} UpdatedIsLast(ms: seq<MessageRow>, created: string)
    ensures ms == [] ==> Updated(ms, created) == created
    ensures ms != [] ==> && (exists m :: m in ms && m.created == Updated(ms, created))
                         && (forall m | m in ms :: Strings.Le(m.created, Updated(ms, created)))
  {
    if |ms| == 1 {
      Strings.LeTotal(ms[0].created, ms[0].created);
      assert ms[0] in ms;
    } else if ms != [] {
      var rest := Updated(ms[1..], created);
      UpdatedIsLast(ms[1..], created);
      Strings.LeTotal(ms[0].created, rest);
      assert ms[0] in ms && forall m :: m in ms <==> m == ms[0] || m in ms[1..];
      Strings.LeTotal(ms[0].created, ms[0].created);
      forall m | m in ms ensures Strings.Le(m.created, Updated(ms, created)) {
        if m in ms[1..] && Strings.Le(rest, ms[0].created) { Strings.LeTransitive(m.created, rest, ms[0].created); }
      }
      var x :| x in ms[1..] && x.created == rest;
      assert x in ms;
    }
  }

  // ---- the listing -----------------------------------------------------------------

  /** The time of the newest message, or of the thread's creation where there is none. */
  ghost predicate ActiveAt(s: Db, tid: string, u: string)
    requires tid in s.threads
  {
    if exists m :: m in s.messages && m.thread == tid then LastOf(s.messages, tid, u) else u == s.threads[tid].created
  }

  /** A row of the listing: the thread's own fields, when it was last active, how many messages and likes
      it has in the tables, and whether the viewer likes it. */
  ghost predicate IsRow(s: Db, viewer: string, sm: Summary) {
    sm.id in s.threads &&
    var t := s.threads[sm.id];
    && sm.author == t.author && sm.audience == t.audience && sm.subject == t.subject && sm.created == t.created
    && sm.pinned == t.pinned && sm.answered == t.answered && sm.state == t.state
    && ActiveAt(s, sm.id, sm.updated)
    && sm.messageCount == |set m | m in s.messages && m.thread == sm.id :: m.id|
    && sm.likeCount == |set l | l in s.likes && l.thread == sm.id|
    && (sm.liked <==> Like(sm.id, viewer) in s.likes)
  }

  /** The listing holds one row for each thread that the viewer may read, and nothing else. */
  lemma ListingIs(s: Db, viewer: string, isAdmin: bool)
    ensures forall sm | sm in Listing(s, viewer, isAdmin) ::
              IsRow(s, viewer, sm) && Entitled(s.threads[sm.id], viewer, isAdmin)
    ensures forall tid | tid in s.threads && Entitled(s.threads[tid], viewer, isAdmin) ::
              exists sm :: sm in Listing(s, viewer, isAdmin) && sm.id == tid
    ensures forall a, b | a in Listing(s, viewer, isAdmin) && b in Listing(s, viewer, isAdmin) && a.id == b.id :: a == b
  {
    forall tid | tid in s.threads ensures IsRow(s, viewer, SummaryOf(s, tid, viewer)) { RowIs(s, viewer, tid); }
    forall tid | tid in s.threads && Entitled(s.threads[tid], viewer, isAdmin)
      ensures exists sm :: sm in Listing(s, viewer, isAdmin) && sm.id == tid
    {
      assert SummaryOf(s, tid, viewer) in Listing(s, viewer, isAdmin);
    }
  }

  lemma RowIs(s: Db, viewer: string, tid: string)
    requires tid in s.threads
    ensures IsRow(s, viewer, SummaryOf(s, tid, viewer))
  {
    var ms := MessagesOf(s.messages, tid);
    MessagesOfHolds(s.messages, tid);
    UpdatedIsLast(ms, s.threads[tid].created);
    LikesCount(s.likes, tid);
    LikeIs(s.likes, tid, viewer);
    assert Ids(ms) == set m | m in s.messages && m.thread == tid :: m.id;
    LastOfRows(s.messages, ms, tid, Updated(ms, s.threads[tid].created));
  }

  lemma LastOfRows(all: seq<MessageRow>, ms: seq<MessageRow>, tid: string, u: string)
    requires forall m :: m in ms <==> m in all && m.thread == tid
    requires ms != [] ==> (exists m :: m in ms && m.created == u) && forall m | m in ms :: Strings.Le(m.created, u)
    ensures (exists m :: m in all && m.thread == tid) <==> ms != []
    ensures ms != [] ==> LastOf(all, tid, u)
  {
    if ms != [] {
      assert ms[0] in ms;
      var m :| m in ms && m.created == u;
      assert m in all && m.thread == tid;
    }
  }

  /** In the answer every pinned thread stands before every other, and among the pinned and among the
      others the more recently active before the less. */
  lemma PinnedThenRecent(out: seq<Summary>, rows: set<Summary>)
    requires IsListing(out, rows)
    ensures forall i, j | 0 <= i < j < |out| ::
              && (out[j].pinned ==> out[i].pinned)
              && (out[i].pinned == out[j].pinned ==> Strings.Le(out[j].updated, out[i].updated))
  {
    forall i, j | 0 <= i < j < |out| ensures NotAfter(out[i], out[j]) {}
  }

  ghost predicate NewerThanAll(s: Db, tid: string, at: string) {
    && (forall m | m in s.messages :: Strings.Le(m.created, at) && (m.thread != tid ==> m.created != at))
    && (forall x | x in s.threads && x != tid :: Strings.Le(s.threads[x].created, at) && s.threads[x].created != at)
  }

  /** A thread with a message newer than everything else on the board is listed before every other of
      the same pinned flag. */
  lemma NewestGoesFirst(s: Db, tid: string, at: string, viewer: string, isAdmin: bool, out: seq<Summary>, i: nat,
                        j: nat)
    requires NewerThanAll(s, tid, at) && exists m :: m in s.messages && m.thread == tid && m.created == at
    requires IsListing(out, Listing(s, viewer, isAdmin)) && i < |out| && j < |out| && i != j
    requires out[i].id == tid && out[i].pinned == out[j].pinned
    ensures i < j
  {
    ListingIs(s, viewer, isAdmin);
    PinnedThenRecent(out, Listing(s, viewer, isAdmin));
    var a, b := out[i], out[j];
    assert a in out && b in out && IsRow(s, viewer, a) && IsRow(s, viewer, b);
    assert a != b && b.id != tid;
    var m :| m in s.messages && m.thread == tid && m.created == at;
    assert Strings.Le(at, a.updated) && Strings.Le(a.updated, at);
    Strings.LeAntisymmetric(at, a.updated);
    assert Strings.Le(b.updated, at) && b.updated != at;
    if j < i {
      assert Strings.Le(a.updated, b.updated);
      Strings.LeAntisymmetric(at, b.updated);
    }
  }

  /** So a follow-up or a reply later than everything on the board puts its thread first. */
  lemma AppendGoesFirst(s: Db, user: string, tid: string, body: string, at: string, mid: string, viewer: string,
                        isAdmin: bool, out: seq<Summary>, i: nat, j: nat, reply: bool)
    requires tid in s.threads && (reply || s.threads[tid].author == user) && NewerThanAll(s, tid, at)
    requires var t := if reply then Reply(s, user, tid, body, at, mid).0 else AppendOwn(s, user, tid, body, at, mid).0;
             IsListing(out, Listing(t, viewer, isAdmin))
    requires i < |out| && j < |out| && i != j && out[i].id == tid && out[i].pinned == out[j].pinned
    ensures i < j
  {
    var t := if reply then Reply(s, user, tid, body, at, mid).0 else AppendOwn(s, user, tid, body, at, mid).0;
    var m := t.messages[|s.messages|];
    assert m in t.messages && m.thread == tid && m.created == at;
    Strings.LeTotal(at, at);
    assert forall x | x in t.messages :: x == m || x in s.messages;
    NewestGoesFirst(t, tid, at, viewer, isAdmin, out, i, j);
  }

  // ---- one thread --------------------------------------------------------------------

  /** A thread is read iff it is there and the viewer may read it; the answer holds the row's own fields,
      its likes, and whether somebody by the viewer's name likes it. */
  lemma ReadIs(s: Db, viewer: string, isAdmin: bool, tid: string)
    ensures var r := ReadThread(s, viewer, isAdmin, tid);
            && (r == Err(ErrNotFound) || r.Ok?)
            && (r.Ok? <==> tid in s.threads && Entitled(s.threads[tid], viewer, isAdmin))
            && (r.Ok? ==>
                  var t, th := s.threads[tid], r.value;
                  && th.id == tid && th.author == t.author && th.audience == t.audience && th.subject == t.subject
                  && th.created == t.created && th.pinned == t.pinned && th.answered == t.answered
                  && th.state == t.state
                  && th.messages == Shown(MessagesOf(s.messages, tid), isAdmin)
                  && th.likeCount == |set l | l in s.likes && l.thread == tid|
                  && (th.liked <==> viewer != "" && Like(tid, viewer) in s.likes))
  {
    LikesCount(s.likes, tid);
    LikeIs(s.likes, tid, viewer);
  }

  // ---- what a call changes -------------------------------------------------------------

  /** Nothing but the threads named in `changed`, the messages and the likes as given. */
  predicate Frame(s: Db, t: Db, changed: set<string>) {
    && t.threads.Keys == s.threads.Keys + changed
    && forall x | x in s.threads && x !in changed :: t.threads[x] == s.threads[x]
  }

  /** A new thread is unpinned, unanswered, in sight, and opens with its author's message; an audience
      other than the two words is refused. */
  lemma CreateIs(s: Db, author: string, audience: string, subject: string, body: string, at: string, tid: string,
                 mid: string)
    ensures var (t, a) := Create(s, author, audience, subject, body, at, tid, mid);
            if audience == "admin" || audience == "all" then
              && a == Id(tid) && Frame(s, t, {tid}) && t.likes == s.likes
              && t.messages == s.messages + [MessageRow(mid, tid, RoleParticipant, author, body, at, "visible")]
              && var r := t.threads[tid];
                 && r.author == author && r.audience == audience && r.subject == subject && r.created == at
                 && !r.pinned && !r.answered && r.state == "visible"
            else t == s && a == Refused(ErrInvalidAudience)
  {
  }

  /** The owner adds a message, in whatever state the thread is; nobody else does. */
  lemma AppendIs(s: Db, author: string, tid: string, body: string, at: string, mid: string)
    ensures var (t, a) := AppendOwn(s, author, tid, body, at, mid);
            if tid in s.threads && s.threads[tid].author == author then
              && t.threads == s.threads && t.likes == s.likes
              && t.messages == s.messages + [MessageRow(mid, tid, RoleParticipant, author, body, at, "visible")]
              && a == Shows(Load(t, tid, false, author))
            else t == s && a == Refused(ErrNotFound)
  {
  }

  /** A reply adds an admin's message and answers the thread. */
  lemma ReplyIs(s: Db, admin: string, tid: string, body: string, at: string, mid: string)
    ensures var (t, a) := Reply(s, admin, tid, body, at, mid);
            if tid in s.threads then
              && Frame(s, t, {tid}) && t.threads[tid] == s.threads[tid].(answered := true) && t.likes == s.likes
              && t.messages == s.messages + [MessageRow(mid, tid, RoleAdmin, admin, body, at, "visible")]
              && a == Shows(Load(t, tid, true, admin))
            else t == s && a == Refused(ErrNotFound)
  {
  }

  /** Only a public thread in sight can be liked, and not by its author. */
  lemma LikingIs(s: Db, user: string, tid: string)
    ensures var (t, a) := Do(s, user, LikeThread(tid));
            && t.threads == s.threads && t.messages == s.messages
            && (if tid !in s.threads || s.threads[tid].audience != "all" || s.threads[tid].state != "visible"
                then t.likes == s.likes && a == Refused(ErrNotFound)
                else if s.threads[tid].author == user then t.likes == s.likes && a == Refused(ErrSelfLike)
                else a == Done && forall l :: l in t.likes <==> l in s.likes || l == Like(tid, user))
  {
  }

  /** A like is taken back, wherever it is and whether or not it was there. */
  lemma UnlikingIs(s: Db, user: string, tid: string)
    ensures var (t, a) := Do(s, user, Unlike(tid));
            && t.threads == s.threads && t.messages == s.messages && a == Done
            && forall l :: l in t.likes <==> l in s.likes && l != Like(tid, user)
  {
  }

  /** Moderation sets each field that is given and no other; the state is checked before the id. */
  lemma ModerationIs(s: Db, tid: string, pinned: Option<bool>, answered: Option<bool>, state: Option<string>)
    ensures var (t, a) := SetThread(s, tid, pinned, answered, state);
            && t.messages == s.messages && t.likes == s.likes
            && if state.Some? && state.value !in {"visible", "hidden", "deleted"} then
                 t == s && a == Refused(ErrInvalidState)
               else if tid !in s.threads then t == s && a == Refused(ErrNotFound)
               else
                 var r, now := s.threads[tid], t.threads[tid];
                 && a == Done && Frame(s, t, {tid})
                 && now.pinned == (if pinned == None then r.pinned else pinned.value)
                 && now.answered == (if answered == None then r.answered else answered.value)
                 && now.state == (if state == None then r.state else state.value)
                 && now.author == r.author && now.audience == r.audience && now.subject == r.subject
                 && now.created == r.created
  {
  }

  /** A message's state changes and nothing else of it, and no other message. */
  lemma MessageModerationIs(s: Db, mid: string, state: string)
    ensures var (t, a) := SetMessage(s, mid, state);
            && t.threads == s.threads && t.likes == s.likes && |t.messages| == |s.messages|
            && if state !in {"visible", "hidden", "deleted"} then t == s && a == Refused(ErrInvalidState)
               else if forall m | m in s.messages :: m.id != mid then t == s && a == Refused(ErrNotFound)
               else
                 && a == Done
                 && forall i | 0 <= i < |s.messages| ::
                      t.messages[i] == if s.messages[i].id == mid then s.messages[i].(state := state) else s.messages[i]
  {
  }
}
