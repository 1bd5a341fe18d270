/** The board `Store` object. Each method is the SQL of one call on the tables, proved to be one
    step of BoardState. */
module Board {
  import opened BoardState
  import Strings
  import opened Wrappers

  class Store {
    var db: Db

    constructor ()
      ensures db == EMPTY
    {
      db := EMPTY;
    }

    method CreateThread(author: string, audience: string, subject: string, body: string, at: string, tid: string,
                        mid: string)
      returns (r: Answer)
      modifies this
      ensures (db, r) == Create(old(db), author, audience, subject, body, at, tid, mid)
    {
      if audience != ADMIN && audience != ALL {
        return Refused(ErrInvalidAudience);
      }
      var tx := db.(threads := db.threads[tid := ThreadRow(author, audience, subject, at, false, false, VISIBLE)]);
      tx := tx.(messages := tx.messages + [MessageRow(mid, tid, RoleParticipant, author, body, at, VISIBLE)]);
      db := tx;
      return Id(tid);
    }

    /** Row by row; a thread's row goes after every row it does not come before. */
    method ListThreads(viewer: string, isAdmin: bool) returns (out: seq<Summary>)
      ensures IsListing(out, Listing(db, viewer, isAdmin))
    {
      out := [];
      var left := db.threads.Keys;
      while left != {}
        invariant left <= db.threads.Keys
        invariant InOrder(out) && Strings.Distinct(out)
        invariant forall sm | sm in out :: sm.id !in left
        invariant forall sm :: sm in out <==>
                    sm.id in db.threads && sm.id !in left && Listed(db.threads[sm.id], viewer, isAdmin)
                        && sm == SummaryOf(db, sm.id, viewer)
        decreases left
      {
        var tid :| tid in left;
        left := left - {tid};
        var t := db.threads[tid];
        if isAdmin || (t.state == VISIBLE && (t.audience == ALL || (t.audience == ADMIN && t.author == viewer))) {
          out := Place(out, SummaryOf(db, tid, viewer));
        }
      }
      forall sm ensures sm in out <==> sm in Listing(db, viewer, isAdmin) {
      }
    }

    method GetThread(viewer: string, isAdmin: bool, tid: string) returns (r: Result<Thread, Error>)
      ensures r == ReadThread(db, viewer, isAdmin, tid)
    {
      var found := LoadThread(tid, isAdmin);
      if found.None? {
        return Err(ErrNotFound);
      }
      var th := found.value;
      if !isAdmin && !(th.state == VISIBLE && (th.audience == ALL || (th.audience == ADMIN && th.author == viewer))) {
        return Err(ErrNotFound);
      }
      var count, liked := LikeStatus(tid, viewer);
      return Ok(th.(likeCount := count, liked := liked));
    }

    /** The thread's row and messages; the like fields are filled by the caller. */
    method LoadThread(tid: string, isAdmin: bool) returns (r: Option<Thread>)
      ensures r == if tid in db.threads then Some(Load(db, tid, isAdmin, "").(likeCount := 0, liked := false)) else None
    {
      if tid !in db.threads {
        return None;
      }
      var t := db.threads[tid];
      var shown := LoadMessages(tid, isAdmin);
      return Some(Thread(tid, t.author, t.audience, t.subject, t.created, t.pinned, t.answered, t.state,
                         shown, 0, false));
    }

    method LoadMessages(tid: string, isAdmin: bool) returns (shown: seq<Message>)
      ensures shown == Shown(MessagesOf(db.messages, tid), isAdmin)
    {
      shown := [];
      for i := 0 to |db.messages|
        invariant shown + Rows(db.messages[i..], tid, isAdmin) == Rows(db.messages, tid, isAdmin)
      {
        shown := shown + Row(db.messages[i], tid, isAdmin);
      }
      RowsAreShown(db.messages, tid, isAdmin);
    }

    method LikeStatus(tid: string, viewer: string) returns (count: nat, liked: bool)
      ensures count == |LikesOf(db.likes, tid)| && liked == (viewer != "" && viewer in LikesOf(db.likes, tid))
    {
      count := |LikesOf(db.likes, tid)|;
      if viewer == "" {
        return count, false;
      }
      LikeIsARow(db.likes, tid, viewer);
      return count, Like(tid, viewer) in db.likes;
    }

    method AppendOwnMessage(author: string, tid: string, body: string, at: string, mid: string) returns (r: Answer)
      modifies this
      ensures (db, r) == AppendOwn(old(db), author, tid, body, at, mid)
    {
      if tid !in db.threads || db.threads[tid].author != author {
        return Refused(ErrNotFound);
      }
      db := db.(messages := db.messages + [MessageRow(mid, tid, RoleParticipant, author, body, at, VISIBLE)]);
      var th := LoadThread(tid, false);
      var count, liked := LikeStatus(tid, author);
      return Shows(th.value.(likeCount := count, liked := liked));
    }

    method AppendAdminReply(admin: string, tid: string, body: string, at: string, mid: string) returns (r: Answer)
      modifies this
      ensures (db, r) == Reply(old(db), admin, tid, body, at, mid)
    {
      if tid !in db.threads {
        return Refused(ErrNotFound);
      }
      var tx := db.(messages := db.messages + [MessageRow(mid, tid, RoleAdmin, admin, body, at, VISIBLE)]);
      tx := tx.(threads := tx.threads[tid := tx.threads[tid].(answered := true)]);
      db := tx;
      var th := LoadThread(tid, true);
      var count, liked := LikeStatus(tid, admin);
      return Shows(th.value.(likeCount := count, liked := liked));
    }

    method LikeThread(user: string, tid: string) returns (r: Answer)
      modifies this
      ensures (db, r) == AddLike(old(db), user, tid)
    {
      if tid !in db.threads {
        return Refused(ErrNotFound);
      }
      var t := db.threads[tid];
      if t.audience != ALL || t.state != VISIBLE {
        return Refused(ErrNotFound);
      }
      if t.author == user {
        return Refused(ErrSelfLike);
      }
      db := db.(likes := db.likes + {Like(tid, user)});
      return Done;
    }

    method UnlikeThread(user: string, tid: string) returns (r: Answer)
      modifies this
      ensures (db, r) == Do(old(db), user, Unlike(tid))
    {
      db := db.(likes := db.likes - {Like(tid, user)});
      return Done;
    }

    method SetThreadState(tid: string, pinned: Option<bool>, answered: Option<bool>, state: Option<string>)
      returns (r: Answer)
      modifies this
      ensures (db, r) == SetThread(old(db), tid, pinned, answered, state)
    {
      if state.Some? && state.value != VISIBLE && state.value != HIDDEN && state.value != DELETED {
        return Refused(ErrInvalidState);
      }
      if tid !in db.threads {
        return Refused(ErrNotFound);
      }
      var t := db.threads[tid];
      if pinned.Some? {
        t := t.(pinned := pinned.value);
      }
      if answered.Some? {
        t := t.(answered := answered.value);
      }
      if state.Some? {
        t := t.(state := state.value);
      }
      db := db.(threads := db.threads[tid := t]);
      return Done;
    }

    method SetMessageState(mid: string, state: string) returns (r: Answer)
      modifies this
      ensures (db, r) == SetMessage(old(db), mid, state)
    {
      if state != VISIBLE && state != HIDDEN && state != DELETED {
        return Refused(ErrInvalidState);
      }
      var affected := 0;
      var updated: seq<MessageRow> := [];
      for i := 0 to |db.messages|
        invariant |updated| == i && (affected == 0 <==> forall j | 0 <= j < i :: db.messages[j].id != mid)
        invariant forall j | 0 <= j < i ::
                    updated[j] == if db.messages[j].id == mid then db.messages[j].(state := state) else db.messages[j]
      {
        if db.messages[i].id == mid {
          updated := updated + [db.messages[i].(state := state)];
          affected := affected + 1;
        } else {
          updated := updated + [db.messages[i]];
        }
      }
      assert affected == 0 <==> mid !in Ids(db.messages) by {
        forall j | 0 <= j < |db.messages| && db.messages[j].id == mid ensures mid in Ids(db.messages) {
          assert db.messages[j] in db.messages;
        }
      }
      if affected == 0 {
        return Refused(ErrNotFound);
      }
      assert updated == Restate(db.messages, mid, state);
      db := db.(messages := updated);
      return Done;
    }
  }

  /** What one row of the messages table adds to an answer. */
  function Row(m: MessageRow, tid: string, isAdmin: bool): seq<Message> {
    if m.thread == tid && (isAdmin || m.state == VISIBLE)
    then [Message(m.id, m.role, m.author, if m.state == DELETED then "" else m.body, m.created, m.state)]
    else []
  }

  function Rows(ms: seq<MessageRow>, tid: string, isAdmin: bool): seq<Message> {
    if ms == [] then [] else Row(ms[0], tid, isAdmin) + Rows(ms[1..], tid, isAdmin)
  }

  lemma {:induction false} RowsAreShown(ms: seq<MessageRow>, tid: string, isAdmin: bool)
    ensures Rows(ms, tid, isAdmin) == Shown(MessagesOf(ms, tid), isAdmin)
  {
    if ms != [] {
      RowsAreShown(ms[1..], tid, isAdmin);
      var rest := MessagesOf(ms[1..], tid);
      if ms[0].thread == tid {
        assert MessagesOf(ms, tid) == [ms[0]] + rest && ([ms[0]] + rest)[1..] == rest;
        assert Shown([ms[0]] + rest, isAdmin) == Row(ms[0], tid, isAdmin) + Shown(rest, isAdmin);
      } else {
        assert MessagesOf(ms, tid) == rest;
      }
    }
  }

  lemma LikeIsARow(likes: set<Like>, tid: string, user: string)
    ensures user in LikesOf(likes, tid) <==> Like(tid, user) in likes
  {
    if Like(tid, user) in likes {
      assert Like(tid, user).user in LikesOf(likes, tid);
    }
  }

  lemma NotAfterTotal(a: Summary, b: Summary)
    ensures NotAfter(a, b) || NotAfter(b, a)
  {
    Strings.LeTotal(a.updated, b.updated);
  }

  lemma NotAfterTransitive(a: Summary, b: Summary, c: Summary)
    requires NotAfter(a, b) && NotAfter(b, c)
    ensures NotAfter(a, c)
  {
    if a.pinned == b.pinned == c.pinned {
      Strings.LeTransitive(c.updated, b.updated, a.updated);
    }
  }

  /** `x` enters an ordered list before the first row that may follow it. */
  method Place(s: seq<Summary>, x: Summary) returns (r: seq<Summary>)
    requires InOrder(s) && Strings.Distinct(s) && x !in s
    ensures InOrder(r) && Strings.Distinct(r)
    ensures forall y :: y in r <==> y in s || y == x
  {
    var i := 0;
    while i < |s| && !NotAfter(x, s[i])
      invariant i <= |s| && forall j | 0 <= j < i :: NotAfter(s[j], x)
    {
      NotAfterTotal(x, s[i]);
      i := i + 1;
    }
    r := s[..i] + [x] + s[i..];
    forall j | i <= j < |s| ensures NotAfter(x, s[j]) {
      if j > i { NotAfterTransitive(x, s[i], s[j]); }
    }
    forall y ensures y in r <==> y in s || y == x {
      assert s == s[..i] + s[i..];
    }
  }
}
