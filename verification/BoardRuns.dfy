/** What holds of the board over whole runs: the invariants of every reachable state, the agreement
    of listing and reading, and non-interference between participants. */
module BoardRuns {
  import opened BoardState
  import Strings
  import opened Wrappers

  // ---- rows of one thread ----------------------------------------------------

  lemma {:induction false} MessagesOfAppend(a: seq<MessageRow>, m: MessageRow, tid: string)
    ensures MessagesOf(a + [m], tid) == MessagesOf(a, tid) + if m.thread == tid then [m] else []
  {
    if a == [] {
      assert [] + [m] == [m] && [m][1..] == [];
    } else {
      var b := a + [m];
      assert b[0] == a[0] && b[1..] == a[1..] + [m];
      MessagesOfAppend(a[1..], m, tid);
      assert MessagesOf(b, tid) == (if a[0].thread == tid then [a[0]] else []) + MessagesOf(b[1..], tid);
    }
  }

  lemma {:induction false} MessagesOfHolds(ms: seq<MessageRow>, tid: string)
    ensures forall m :: m in MessagesOf(ms, tid) <==> m in ms && m.thread == tid
  {
    if ms != [] {
      MessagesOfHolds(ms[1..], tid);
      assert forall m :: m in ms <==> m == ms[0] || m in ms[1..];
    }
  }

  // ---- reachable states ------------------------------------------------------

  ghost predicate GoodThread(t: ThreadRow) { IsAudience(t.audience) && IsState(t.state) }

  ghost predicate GoodMessage(threads: map<string, ThreadRow>, m: MessageRow) {
    && m.thread in threads && IsState(m.state)
    && (m.role.RoleParticipant? ==> m.author == threads[m.thread].author)
  }

  ghost predicate GoodLike(threads: map<string, ThreadRow>, l: Like) {
    l.thread in threads && threads[l.thread].audience == ALL && threads[l.thread].author != l.user
  }

  ghost predicate Opened(s: Db, tid: string) {
    exists i | 0 <= i < |s.messages| :: s.messages[i].thread == tid
  }

  ghost predicate DistinctIds(ms: seq<MessageRow>) {
    forall i, j | 0 <= i < j < |ms| :: ms[i].id != ms[j].id
  }

  /** Every thread has a message, participants write only in their own threads, likes are on public
      threads and never the author's. */
  ghost predicate Inv(s: Db) {
    && (forall tid | tid in s.threads :: GoodThread(s.threads[tid]) && Opened(s, tid))
    && (forall i | 0 <= i < |s.messages| :: GoodMessage(s.threads, s.messages[i]))
    && (forall l | l in s.likes :: GoodLike(s.threads, l))
    && DistinctIds(s.messages)
  }

  /** What no call changes in a thread that exists. */
  ghost predicate Fixed(before: Db, after: Db) {
    forall tid | tid in before.threads ::
      && tid in after.threads
      && after.threads[tid].author == before.threads[tid].author
      && after.threads[tid].audience == before.threads[tid].audience
      && after.threads[tid].subject == before.threads[tid].subject
      && after.threads[tid].created == before.threads[tid].created
  }

  lemma IdsHold(ms: seq<MessageRow>, id: string)
    requires id !in Ids(ms)
    ensures forall i | 0 <= i < |ms| :: ms[i].id != id
  {
    forall i | 0 <= i < |ms| ensures ms[i].id != id { assert ms[i] in ms; }
  }

  /** One more message, in a thread that is there, keeps the invariant. */
  lemma OneMoreMessage(s: Db, m: MessageRow)
    requires Inv(s) && GoodMessage(s.threads, m) && m.id !in Ids(s.messages)
    ensures Inv(s.(messages := s.messages + [m]))
  {
    var t := s.(messages := s.messages + [m]);
    IdsHold(s.messages, m.id);
    forall tid | tid in s.threads ensures Opened(t, tid) {
      var i :| 0 <= i < |s.messages| && s.messages[i].thread == tid;
      assert t.messages[i].thread == tid;
    }
  }

  /** Threads may be added or moderated; their author and audience stay. */
  lemma ThreadsChange(s: Db, threads: map<string, ThreadRow>)
    requires Inv(s) && Fixed(s, s.(threads := threads))
    requires forall tid | tid in threads :: GoodThread(threads[tid]) && tid in s.threads
    ensures Inv(s.(threads := threads))
  {
    var t := s.(threads := threads);
    forall tid | tid in threads ensures Opened(t, tid) {
      assert Opened(s, tid);
    }
  }

  lemma CreateKeeps(s: Db, author: string, audience: string, subject: string, body: string, at: string, tid: string,
                    mid: string)
    requires Inv(s) && tid !in s.threads && mid !in Ids(s.messages)
    ensures Inv(Create(s, author, audience, subject, body, at, tid, mid).0)
    ensures Fixed(s, Create(s, author, audience, subject, body, at, tid, mid).0)
  {
    var t := Create(s, author, audience, subject, body, at, tid, mid).0;
    if IsAudience(audience) {
      IdsHold(s.messages, mid);
      assert t.messages[|s.messages|].thread == tid;
      forall x | x in s.threads ensures Opened(t, x) {
        var i :| 0 <= i < |s.messages| && s.messages[i].thread == x;
        assert t.messages[i].thread == x;
      }
      forall i | 0 <= i < |t.messages| ensures GoodMessage(t.threads, t.messages[i]) {
        if i < |s.messages| { assert GoodMessage(s.threads, s.messages[i]); }
      }
      forall l | l in t.likes ensures GoodLike(t.threads, l) {
        assert GoodLike(s.threads, l);
      }
    }
  }

  lemma MessagesRestated(s: Db, ms: seq<MessageRow>)
    requires Inv(s) && |ms| == |s.messages|
    requires forall i | 0 <= i < |ms| :: ms[i] == s.messages[i].(state := ms[i].state) && IsState(ms[i].state)
    ensures Inv(s.(messages := ms))
  {
    var t := s.(messages := ms);
    forall tid | tid in s.threads ensures Opened(t, tid) {
      var i :| 0 <= i < |s.messages| && s.messages[i].thread == tid;
      assert t.messages[i].thread == tid;
    }
    forall i | 0 <= i < |ms| ensures GoodMessage(s.threads, ms[i]) {
      assert GoodMessage(s.threads, s.messages[i]);
    }
  }

  lemma SetMessageKeeps(s: Db, mid: string, to: string)
    requires Inv(s)
    ensures Inv(SetMessage(s, mid, to).0)
  {
    if IsState(to) && mid in Ids(s.messages) {
      var ms := Restate(s.messages, mid, to);
      forall i | 0 <= i < |ms| ensures ms[i] == s.messages[i].(state := ms[i].state) && IsState(ms[i].state) {
        assert GoodMessage(s.threads, s.messages[i]);
      }
      MessagesRestated(s, ms);
    }
  }

  /** Any set of allowed likes will do. */
  lemma LikesChange(s: Db, likes: set<Like>)
    requires Inv(s)
    ensures (forall l | l in likes && l !in s.likes :: GoodLike(s.threads, l)) ==> Inv(s.(likes := likes))
  {
    forall x | x in s.threads ensures Opened(s.(likes := likes), x) { assert Opened(s, x); }
  }

  lemma DoKeeps(s: Db, user: string, act: Act)
    requires Inv(s) && FreshIds(s, act)
    ensures Inv(Do(s, user, act).0) && Fixed(s, Do(s, user, act).0)
  {
    match act {
      case CreateThread(audience, subject, body, at, tid, mid) =>
        CreateKeeps(s, user, audience, subject, body, at, tid, mid);
      case ListThreads =>
      case GetThread(tid) =>
      case AppendOwnMessage(tid, body, at, mid) =>
        if tid in s.threads && s.threads[tid].author == user {
          OneMoreMessage(s, MessageRow(mid, tid, RoleParticipant, user, body, at, VISIBLE));
        }
      case LikeThread(tid) => LikesChange(s, s.likes + {Like(tid, user)});
      case Unlike(tid) => LikesChange(s, s.likes - {Like(tid, user)});
    }
  }

  lemma StepKeeps(s: Db, op: Op)
    requires Inv(s) && FreshOp(s, op)
    ensures Inv(Step(s, op).0) && Fixed(s, Step(s, op).0)
  {
    match op {
      case Participant(user, act) => DoKeeps(s, user, act);
      case AdminReply(admin, tid, body, at, mid) =>
        if tid in s.threads {
          var t := s.(threads := s.threads[tid := s.threads[tid].(answered := true)]);
          ThreadsChange(s, t.threads);
          OneMoreMessage(t, MessageRow(mid, tid, RoleAdmin, admin, body, at, VISIBLE));
          assert Step(s, op).0 == t.(messages := t.messages
                                     + [MessageRow(mid, tid, RoleAdmin, admin, body, at, VISIBLE)]);
        }
      case SetThreadState(tid, pinned, answered, state) =>
        if tid in s.threads && (state.Some? ==> IsState(state.value)) {
          assert GoodThread(s.threads[tid]);
          ThreadsChange(s, Step(s, op).0.threads);
        }
      case SetMessageState(mid, to) => SetMessageKeeps(s, mid, to);
    }
  }

  lemma {:induction false} RunsKeep(s: Db, ops: seq<Op>)
    requires Inv(s) && FreshRun(s, ops)
    ensures Inv(After(s, ops)) && Fixed(s, After(s, ops))
    decreases ops
  {
    if ops != [] {
      StepKeeps(s, ops[0]);
      RunsKeep(Step(s, ops[0]).0, ops[1..]);
    }
  }

  lemma {:induction false} RunsSplit(s: Db, ops: seq<Op>, i: nat)
    requires FreshRun(s, ops) && i <= |ops|
    ensures FreshRun(s, ops[..i]) && FreshRun(After(s, ops[..i]), ops[i..])
    ensures After(After(s, ops[..i]), ops[i..]) == After(s, ops)
    decreases ops
  {
    if i > 0 {
      RunsSplit(Step(s, ops[0]).0, ops[1..], i - 1);
      assert ops[..i][1..] == ops[1..][..i - 1] && ops[1..][i - 1..] == ops[i..];
    } else {
      assert ops[0..] == ops;
    }
  }

  /** Every board that a run from the empty one reaches keeps the invariant, and what is fixed of a
      thread stays so from any point of the run on. */
  lemma EveryReachableBoard(ops: seq<Op>)
    requires FreshRun(EMPTY, ops)
    ensures Inv(After(EMPTY, ops))
    ensures forall i | 0 <= i <= |ops| ::
              Inv(After(EMPTY, ops[..i])) && Fixed(After(EMPTY, ops[..i]), After(EMPTY, ops))
  {
    assert Inv(EMPTY);
    RunsKeep(EMPTY, ops);
    forall i | 0 <= i <= |ops| ensures Inv(After(EMPTY, ops[..i])) && Fixed(After(EMPTY, ops[..i]), After(EMPTY, ops)) {
      RunsSplit(EMPTY, ops, i);
      RunsKeep(EMPTY, ops[..i]);
      RunsKeep(After(EMPTY, ops[..i]), ops[i..]);
    }
  }

  // ---- listing and reading ---------------------------------------------------

  predicate SameFields(sm: Summary, th: Thread) {
    && sm.id == th.id && sm.author == th.author && sm.audience == th.audience && sm.subject == th.subject
    && sm.created == th.created && sm.pinned == th.pinned && sm.answered == th.answered && sm.state == th.state
    && sm.likeCount == th.likeCount
  }

  /** A thread is listed iff it can be read; the two answers share every common field, and the like
      status unless the viewer is nobody and nobody's like is stored. */
  lemma ListedIffRead(s: Db, viewer: string, isAdmin: bool, tid: string)
    ensures (exists sm :: sm in Listing(s, viewer, isAdmin) && sm.id == tid)
            <==> ReadThread(s, viewer, isAdmin, tid).Ok?
    ensures forall sm | sm in Listing(s, viewer, isAdmin) && sm.id == tid ::
              var r := ReadThread(s, viewer, isAdmin, tid);
              && r.Ok? && SameFields(sm, r.value)
              && (sm.liked == r.value.liked <==> (viewer != "" || Like(tid, "") !in s.likes))
  {
    if tid in s.threads && Listed(s.threads[tid], viewer, isAdmin) {
      assert SummaryOf(s, tid, viewer) in Listing(s, viewer, isAdmin);
    }
    assert viewer in LikesOf(s.likes, tid) <==> Like(tid, viewer) in s.likes by {
      if viewer in LikesOf(s.likes, tid) {
        var l :| l in s.likes && l.thread == tid && l.user == viewer;
        assert l == Like(tid, viewer);
      }
      if Like(tid, viewer) in s.likes {
        assert Like(tid, viewer).user in LikesOf(s.likes, tid);
      }
    }
  }

  lemma {:induction false} ShownCount(ms: seq<MessageRow>)
    ensures |Shown(ms, false)| <= |Shown(ms, true)| == |ms|
    ensures |Shown(ms, false)| == |ms| <==> forall m | m in ms :: m.state == VISIBLE
  {
    if ms != [] {
      ShownCount(ms[1..]);
      assert forall m :: m in ms <==> m == ms[0] || m in ms[1..];
    }
  }

  lemma {:induction false} IdsCount(ms: seq<MessageRow>)
    requires DistinctIds(ms)
    ensures |Ids(ms)| == |ms|
  {
    if ms != [] {
      IdsCount(ms[1..]);
      assert Ids(ms) == {ms[0].id} + Ids(ms[1..]) by {
        assert forall m :: m in ms <==> m == ms[0] || m in ms[1..];
      }
      assert ms[0].id !in Ids(ms[1..]);
    }
  }

  lemma {:induction false} DistinctInside(ms: seq<MessageRow>, tid: string)
    requires DistinctIds(ms)
    ensures DistinctIds(MessagesOf(ms, tid))
  {
    if ms != [] {
      DistinctInside(ms[1..], tid);
      MessagesOfHolds(ms[1..], tid);
      var rest := MessagesOf(ms[1..], tid);
      forall j | 0 <= j < |rest| ensures rest[j].id != ms[0].id {
        assert rest[j] in rest && rest[j] in ms[1..];
      }
    }
  }

  /** The listing counts hidden and deleted messages: the reader sees as many iff all are visible. */
  lemma CountIsWhatIsShownIff(s: Db, viewer: string, tid: string)
    requires Inv(s) && ReadThread(s, viewer, false, tid).Ok?
    ensures var shown := ReadThread(s, viewer, false, tid).value.messages;
            && |shown| <= SummaryOf(s, tid, viewer).messageCount
            && (|shown| == SummaryOf(s, tid, viewer).messageCount
                <==> forall m | m in s.messages && m.thread == tid :: m.state == VISIBLE)
  {
    DistinctInside(s.messages, tid);
    IdsCount(MessagesOf(s.messages, tid));
    ShownCount(MessagesOf(s.messages, tid));
    MessagesOfHolds(s.messages, tid);
  }

  lemma {:induction false} DeletedBodiesAreGone(ms: seq<MessageRow>, isAdmin: bool)
    ensures forall x | x in Shown(ms, isAdmin) ::
              (x.state == DELETED ==> isAdmin && x.body == "") && (!isAdmin ==> x.state == VISIBLE)
    ensures forall x | x in Shown(ms, isAdmin) && x.state != DELETED ::
              exists m | m in ms :: x == Message(m.id, m.role, m.author, m.body, m.created, m.state)
  {
    if ms != [] {
      DeletedBodiesAreGone(ms[1..], isAdmin);
      assert forall x | x in Shown(ms, isAdmin) && x !in Shown(ms[1..], isAdmin) ::
          x == Message(ms[0].id, ms[0].role, ms[0].author,
                       if ms[0].state == DELETED then "" else ms[0].body, ms[0].created, ms[0].state);
      assert ms[0] in ms && forall m | m in ms[1..] :: m in ms;
    }
  }

  // ---- what one participant can tell -----------------------------------------

  /** The threads whose rows concern a participant: their own, and those they may read. */
  predicate Concerns(s: Db, user: string, tid: string) {
    tid in s.threads && (s.threads[tid].author == user || VisibleToParticipant(s.threads[tid], user))
  }

  ghost predicate SameRows(a: Db, b: Db, tid: string) {
    && tid in a.threads && tid in b.threads && a.threads[tid] == b.threads[tid]
    && MessagesOf(a.messages, tid) == MessagesOf(b.messages, tid)
    && LikesOf(a.likes, tid) == LikesOf(b.likes, tid)
  }

  ghost predicate Agree(a: Db, b: Db, user: string) {
    && (forall tid :: Concerns(a, user, tid) <==> Concerns(b, user, tid))
    && (forall tid | Concerns(a, user, tid) :: SameRows(a, b, tid))
  }

  lemma SameReading(a: Db, b: Db, user: string, tid: string)
    requires SameRows(a, b, tid)
    ensures Load(a, tid, false, user) == Load(b, tid, false, user)
    ensures SummaryOf(a, tid, user) == SummaryOf(b, tid, user)
    ensures ReadThread(a, user, false, tid) == ReadThread(b, user, false, tid)
  {
  }

  lemma SameListing(a: Db, b: Db, user: string)
    requires Agree(a, b, user)
    ensures Listing(a, user, false) == Listing(b, user, false)
  {
    forall sm ensures sm in Listing(a, user, false) <==> sm in Listing(b, user, false) {
      if sm in Listing(a, user, false) {
        var tid :| tid in a.threads && Listed(a.threads[tid], user, false) && sm == SummaryOf(a, tid, user);
        assert Concerns(a, user, tid);
        SameReading(a, b, user, tid);
      }
      if sm in Listing(b, user, false) {
        var tid :| tid in b.threads && Listed(b.threads[tid], user, false) && sm == SummaryOf(b, tid, user);
        assert Concerns(b, user, tid);
        SameReading(a, b, user, tid);
      }
    }
  }

  lemma NothingYet(s: Db, tid: string)
    requires Inv(s) && tid !in s.threads
    ensures MessagesOf(s.messages, tid) == [] && LikesOf(s.likes, tid) == {}
  {
    MessagesOfHolds(s.messages, tid);
    forall m | m in s.messages ensures m.thread in s.threads {
      var i :| 0 <= i < |s.messages| && s.messages[i] == m;
      assert GoodMessage(s.threads, s.messages[i]);
    }
    Strings.HasElement(MessagesOf(s.messages, tid));
  }

  lemma CreateAgrees(a: Db, b: Db, user: string, act: Act)
    requires Inv(a) && Inv(b) && Agree(a, b, user) && act.CreateThread? && FreshIds(a, act) && FreshIds(b, act)
    ensures Do(a, user, act).1 == Do(b, user, act).1 && Agree(Do(a, user, act).0, Do(b, user, act).0, user)
  {
    if IsAudience(act.audience) {
      var c, d := Do(a, user, act).0, Do(b, user, act).0;
      var m := MessageRow(act.mid, act.tid, RoleParticipant, user, act.body, act.at, VISIBLE);
      forall tid | Concerns(c, user, tid) || Concerns(d, user, tid)
        ensures Concerns(c, user, tid) && Concerns(d, user, tid) && SameRows(c, d, tid)
      {
        MessagesOfAppend(a.messages, m, tid);
        MessagesOfAppend(b.messages, m, tid);
        if tid == act.tid {
          NothingYet(a, tid);
          NothingYet(b, tid);
        } else {
          assert Concerns(a, user, tid) <==> Concerns(c, user, tid);
          assert Concerns(b, user, tid) <==> Concerns(d, user, tid);
          assert SameRows(a, b, tid);
        }
      }
    }
  }

  lemma AppendAgrees(a: Db, b: Db, user: string, act: Act)
    requires Agree(a, b, user) && act.AppendOwnMessage?
    ensures Do(a, user, act).1 == Do(b, user, act).1 && Agree(Do(a, user, act).0, Do(b, user, act).0, user)
  {
    var c, d := Do(a, user, act).0, Do(b, user, act).0;
    var m := MessageRow(act.mid, act.tid, RoleParticipant, user, act.body, act.at, VISIBLE);
    assert Concerns(a, user, act.tid) <==> Concerns(b, user, act.tid);
    assert Concerns(a, user, act.tid) ==> SameRows(a, b, act.tid);
    forall tid ensures Concerns(c, user, tid) <==> Concerns(a, user, tid) { }
    forall tid ensures Concerns(d, user, tid) <==> Concerns(b, user, tid) { }
    forall tid | Concerns(c, user, tid) ensures SameRows(c, d, tid) {
      assert SameRows(a, b, tid);
      MessagesOfAppend(a.messages, m, tid);
      MessagesOfAppend(b.messages, m, tid);
    }
    if act.tid in a.threads && a.threads[act.tid].author == user {
      SameReading(c, d, user, act.tid);
    }
  }

  lemma LikesOfChange(likes: set<Like>, l: Like, tid: string)
    ensures LikesOf(likes + {l}, tid) == LikesOf(likes, tid) + if l.thread == tid then {l.user} else {}
    ensures LikesOf(likes - {l}, tid) == LikesOf(likes, tid) - if l.thread == tid then {l.user} else {}
  {
    forall u ensures u in LikesOf(likes + {l}, tid) <==> u in LikesOf(likes, tid) || (l.thread == tid && u == l.user) {
      if l.thread == tid && u == l.user { assert l in likes + {l}; }
      if u in LikesOf(likes, tid) { assert Like(tid, u) in likes + {l}; }
    }
    forall u ensures u in LikesOf(likes - {l}, tid) <==> u in LikesOf(likes, tid) && !(l.thread == tid && u == l.user) {
      if u in LikesOf(likes, tid) && !(l.thread == tid && u == l.user) { assert Like(tid, u) in likes - {l}; }
    }
  }

  /** A change of one like, the same in both states, keeps them in agreement. */
  lemma LikesAgree(a: Db, b: Db, user: string, l: Like)
    requires Agree(a, b, user)
    ensures Agree(a.(likes := a.likes + {l}), b.(likes := b.likes + {l}), user)
    ensures Agree(a.(likes := a.likes - {l}), b.(likes := b.likes - {l}), user)
  {
    forall c: Db, tid ensures c.threads == a.threads ==> (Concerns(c, user, tid) <==> Concerns(a, user, tid)) { }
    forall c: Db, tid ensures c.threads == b.threads ==> (Concerns(c, user, tid) <==> Concerns(b, user, tid)) { }
    forall tid | Concerns(a, user, tid)
      ensures SameRows(a.(likes := a.likes + {l}), b.(likes := b.likes + {l}), tid)
      ensures SameRows(a.(likes := a.likes - {l}), b.(likes := b.likes - {l}), tid)
    {
      assert SameRows(a, b, tid);
      LikesOfChange(a.likes, l, tid);
      LikesOfChange(b.likes, l, tid);
    }
  }

  lemma DoAgrees(a: Db, b: Db, user: string, act: Act)
    requires Inv(a) && Inv(b) && Agree(a, b, user) && FreshIds(a, act) && FreshIds(b, act)
    ensures Do(a, user, act).1 == Do(b, user, act).1 && Agree(Do(a, user, act).0, Do(b, user, act).0, user)
  {
    match act {
      case CreateThread(_, _, _, _, _, _) => CreateAgrees(a, b, user, act);
      case ListThreads => SameListing(a, b, user);
      case GetThread(tid) =>
        assert Concerns(a, user, tid) <==> Concerns(b, user, tid);
        if Concerns(a, user, tid) { SameReading(a, b, user, tid); }
      case AppendOwnMessage(_, _, _, _) => AppendAgrees(a, b, user, act);
      case LikeThread(tid) =>
        assert Concerns(a, user, tid) <==> Concerns(b, user, tid);
        assert Concerns(a, user, tid) ==> SameRows(a, b, tid);
        LikesAgree(a, b, user, Like(tid, user));
      case Unlike(tid) => LikesAgree(a, b, user, Like(tid, user));
    }
  }

  function Outcomes(s: Db, user: string, acts: seq<Act>): (Db, seq<Answer>)
    decreases acts
  {
    if acts == [] then (s, [])
    else
      var (t, answer) := Do(s, user, acts[0]);
      var (end, rest) := Outcomes(t, user, acts[1..]);
      (end, [answer] + rest)
  }

  ghost predicate FreshActs(s: Db, user: string, acts: seq<Act>)
    decreases acts
  {
    acts == [] || (FreshIds(s, acts[0]) && FreshActs(Do(s, user, acts[0]).0, user, acts[1..]))
  }

  /** Two boards that agree on what concerns a participant answer every sequence of that
      participant's calls alike, and agree again afterwards. */
  lemma {:induction false} NonInterference(a: Db, b: Db, user: string, acts: seq<Act>)
    requires Inv(a) && Inv(b) && Agree(a, b, user) && FreshActs(a, user, acts) && FreshActs(b, user, acts)
    ensures Outcomes(a, user, acts).1 == Outcomes(b, user, acts).1
    ensures Agree(Outcomes(a, user, acts).0, Outcomes(b, user, acts).0, user)
    decreases acts
  {
    if acts != [] {
      DoAgrees(a, b, user, acts[0]);
      DoKeeps(a, user, acts[0]);
      DoKeeps(b, user, acts[0]);
      NonInterference(Do(a, user, acts[0]).0, Do(b, user, acts[0]).0, user, acts[1..]);
    }
  }

  /** What somebody else writes in a thread that does not concern a participant changes nothing for
      that participant. */
  lemma OthersAreUnseen(s: Db, user: string, other: string, act: Act)
    requires Inv(s) && FreshIds(s, act) && other != user
    requires match act
             case CreateThread(audience, _, _, _, _, _) => audience != ALL
             case AppendOwnMessage(tid, _, _, _) => !Concerns(s, user, tid)
             case LikeThread(tid) => !Concerns(s, user, tid)
             case Unlike(tid) => !Concerns(s, user, tid)
             case _ => true
    ensures Agree(s, Do(s, other, act).0, user)
  {
    match act {
      case CreateThread(audience, subject, body, at, id, mid) => OthersThreads(s, user, other, act);
      case AppendOwnMessage(id, body, at, mid) =>
        OneMoreElsewhere(s, user, MessageRow(mid, id, RoleParticipant, other, body, at, VISIBLE));
      case LikeThread(id) => LikesElsewhere(s, user, Like(id, other));
      case Unlike(id) => LikesElsewhere(s, user, Like(id, other));
      case ListThreads => NothingChanged(s, user);
      case GetThread(_) => NothingChanged(s, user);
    }
  }

  lemma NothingChanged(s: Db, user: string)
    ensures Agree(s, s, user)
  {
  }

  lemma OthersThreads(s: Db, user: string, other: string, act: Act)
    requires FreshIds(s, act) && other != user && act.CreateThread? && act.audience != ALL
    ensures Agree(s, Do(s, other, act).0, user)
  {
    var t := Do(s, other, act).0;
    forall tid ensures Concerns(s, user, tid) <==> Concerns(t, user, tid) { }
    forall tid | Concerns(s, user, tid) ensures SameRows(s, t, tid) {
      MessagesOfAppend(s.messages, MessageRow(act.mid, act.tid, RoleParticipant, other, act.body, act.at, VISIBLE),
                       tid);
    }
  }

  lemma OneMoreElsewhere(s: Db, user: string, m: MessageRow)
    requires !Concerns(s, user, m.thread)
    ensures Agree(s, s.(messages := s.messages + [m]), user) && Agree(s, s, user)
  {
    var t := s.(messages := s.messages + [m]);
    forall tid ensures Concerns(s, user, tid) <==> Concerns(t, user, tid) { }
    forall tid | Concerns(s, user, tid) ensures SameRows(s, t, tid) {
      MessagesOfAppend(s.messages, m, tid);
    }
  }

  lemma LikesElsewhere(s: Db, user: string, l: Like)
    requires !Concerns(s, user, l.thread)
    ensures Agree(s, s.(likes := s.likes + {l}), user) && Agree(s, s.(likes := s.likes - {l}), user)
            && Agree(s, s, user)
  {
    var t, u := s.(likes := s.likes + {l}), s.(likes := s.likes - {l});
    forall tid
      ensures Concerns(s, user, tid) <==> Concerns(t, user, tid)
      ensures Concerns(s, user, tid) <==> Concerns(u, user, tid)
    {
    }
    forall tid | Concerns(s, user, tid) ensures SameRows(s, t, tid) && SameRows(s, u, tid) {
      LikesOfChange(s.likes, l, tid);
    }
  }

  /** No existence oracle: a thread that does not concern the caller answers as an unknown id does,
      and so does a moderated one, except to its author's own append. */
  lemma UnreadableIsUnknown(s: Db, user: string, tid: string, body: string, at: string, mid: string)
    requires tid !in s.threads || !VisibleToParticipant(s.threads[tid], user)
    ensures Do(s, user, GetThread(tid)) == (s, Refused(ErrNotFound))
    ensures Do(s, user, LikeThread(tid)) == (s, Refused(ErrNotFound))
    ensures Do(s, user, AppendOwnMessage(tid, body, at, mid)) == (s, Refused(ErrNotFound))
            <==> (tid in s.threads ==> s.threads[tid].author != user)
  {
  }

  /** "a" opens a thread and an admin hides it. */
  function HidingRun(tid: string, mid: string): seq<Op> {
    [Participant("a", CreateThread(ADMIN, "subject", "body", "1", tid, mid)),
     SetThreadState(tid, None, None, Some(HIDDEN))]
  }

  lemma AfterTwo(a: Op, b: Op)
    ensures After(EMPTY, [a, b]) == Step(Step(EMPTY, a).0, b).0
    ensures FreshRun(EMPTY, [a, b]) <==> FreshOp(EMPTY, a) && FreshOp(Step(EMPTY, a).0, b)
  {
    assert [a, b][1..] == [b] && [b][1..] == [];
    assert After(Step(EMPTY, a).0, [b]) == Step(Step(EMPTY, a).0, b).0;
    assert FreshRun(Step(EMPTY, a).0, [b]) <==> FreshOp(Step(EMPTY, a).0, b);
  }

  lemma HiddenBoard(tid: string, mid: string)
    ensures FreshRun(EMPTY, HidingRun(tid, mid))
    ensures After(EMPTY, HidingRun(tid, mid))
            == Db(map[tid := ThreadRow("a", ADMIN, "subject", "1", false, false, HIDDEN)],
                  [MessageRow(mid, tid, RoleParticipant, "a", "body", "1", VISIBLE)], {})
  {
    var create, moderate := HidingRun(tid, mid)[0], HidingRun(tid, mid)[1];
    AfterTwo(create, moderate);
    var s := Step(EMPTY, create).0;
    assert s.threads == map[tid := ThreadRow("a", ADMIN, "subject", "1", false, false, VISIBLE)];
    assert s.messages == [MessageRow(mid, tid, RoleParticipant, "a", "body", "1", VISIBLE)];
  }

  /** The package comment has a moderated thread refused; on a board a run reaches, reading it is, and
      the author's append stores the message and shows the thread. */
  lemma HiddenThreadIsShownToItsAuthor(tid: string, mid: string, next: string)
    requires mid != next
    ensures var s, append := After(EMPTY, HidingRun(tid, mid)), AppendOwnMessage(tid, "more", "2", next);
            && FreshRun(EMPTY, HidingRun(tid, mid)) && Inv(s) && FreshIds(s, append)
            && Do(s, "a", GetThread(tid)).1 == Refused(ErrNotFound)
            && Do(s, "a", append).1.Shows? && Do(s, "a", append).0 != s
  {
    var s := After(EMPTY, HidingRun(tid, mid));
    HiddenBoard(tid, mid);
    EveryReachableBoard(HidingRun(tid, mid));
    assert HIDDEN != VISIBLE by { assert HIDDEN[0] != VISIBLE[0]; }
    var append := AppendOwnMessage(tid, "more", "2", next);
    assert |Do(s, "a", append).0.messages| == |s.messages| + 1;
  }

  /** "a" opens a public thread and nobody likes it. */
  function NobodysRun(tid: string, mid: string): seq<Op> {
    [Participant("a", CreateThread(ALL, "subject", "body", "1", tid, mid)), Participant("", LikeThread(tid))]
  }

  /** A board that stores nobody's like: the listing calls the thread liked, reading it does not. */
  lemma NobodysLike(tid: string, mid: string)
    ensures var s := After(EMPTY, NobodysRun(tid, mid));
            && FreshRun(EMPTY, NobodysRun(tid, mid)) && Like(tid, "") in s.likes
            && (exists sm :: sm in Listing(s, "", false) && sm.id == tid && sm.liked)
            && ReadThread(s, "", false, tid).Ok? && !ReadThread(s, "", false, tid).value.liked
  {
    var s := After(EMPTY, NobodysRun(tid, mid));
    AfterTwo(NobodysRun(tid, mid)[0], NobodysRun(tid, mid)[1]);
    var created := Step(EMPTY, NobodysRun(tid, mid)[0]).0;
    assert created.threads == map[tid := ThreadRow("a", ALL, "subject", "1", false, false, VISIBLE)];
    assert "a" != "";
    assert s.threads == created.threads && s.likes == {Like(tid, "")};
    assert Like(tid, "").user in LikesOf(s.likes, tid);
    assert SummaryOf(s, tid, "") in Listing(s, "", false);
  }

  /** A like taken back leaves the board as it was iff it was not there before. */
  lemma UnlikeUndoesLikeIff(s: Db, user: string, tid: string)
    requires Do(s, user, LikeThread(tid)).1 == Done
    ensures Do(Do(s, user, LikeThread(tid)).0, user, Unlike(tid)).0 == s <==> Like(tid, user) !in s.likes
    ensures Do(Do(s, user, LikeThread(tid)).0, user, LikeThread(tid)) == (Do(s, user, LikeThread(tid)).0, Done)
  {
    var l := Like(tid, user);
    assert (s.likes + {l}) - {l} == s.likes - {l};
    if l in s.likes {
      assert l !in s.likes - {l};
    } else {
      assert s.likes - {l} == s.likes;
    }
  }

  // ---- what was written is read ----------------------------------------------

  lemma ShownOfOneMore(ms: seq<MessageRow>, m: MessageRow, isAdmin: bool)
    requires m.state == VISIBLE
    ensures Shown(ms + [m], isAdmin) == Shown(ms, isAdmin)
            + [Message(m.id, m.role, m.author, m.body, m.created, VISIBLE)]
  {
    if ms == [] {
      assert [] + [m] == [m] && [m][1..] == [];
      assert VISIBLE[0] != DELETED[0];
    } else {
      assert (ms + [m])[1..] == ms[1..] + [m];
      ShownOfOneMore(ms[1..], m, isAdmin);
    }
  }

  /** A new thread is read by its author, and by everybody if it is public, with its one message. */
  lemma CreatedIsRead(s: Db, author: string, audience: string, subject: string, body: string, at: string, tid: string,
                      mid: string, viewer: string)
    requires Inv(s) && tid !in s.threads && IsAudience(audience)
    ensures var t := Create(s, author, audience, subject, body, at, tid, mid).0;
            var r := ReadThread(t, viewer, false, tid);
            && (r.Ok? <==> viewer == author || audience == ALL)
            && (r.Ok? ==> && r.value.author == author && r.value.subject == subject && r.value.audience == audience
                          && r.value.messages == [Message(mid, RoleParticipant, author, body, at, VISIBLE)]
                          && r.value.likeCount == 0 && !r.value.pinned && !r.value.answered)
  {
    var m := MessageRow(mid, tid, RoleParticipant, author, body, at, VISIBLE);
    NothingYet(s, tid);
    MessagesOfAppend(s.messages, m, tid);
    assert [] + [m] == [m];
    ShownOfOneMore([], m, false);
    assert ADMIN[1] != ALL[1];
  }

  /** A follow-up and a reply stand, in that role, after what was shown; a reply answers the thread. */
  lemma AppendedIsRead(s: Db, user: string, tid: string, body: string, at: string, mid: string)
    requires tid in s.threads
    ensures s.threads[tid].author == user ==>
              var (t, a) := AppendOwn(s, user, tid, body, at, mid);
              && t.threads == s.threads
              && Load(t, tid, false, user).messages
                 == Load(s, tid, false, user).messages + [Message(mid, RoleParticipant, user, body, at, VISIBLE)]
              && a == Shows(Load(t, tid, false, user))
    ensures var (t, a) := Reply(s, user, tid, body, at, mid);
            && t.threads[tid].answered
            && (forall isAdmin :: Load(t, tid, isAdmin, user).messages
                                  == Load(s, tid, isAdmin, user).messages
                                      + [Message(mid, RoleAdmin, user, body, at, VISIBLE)])
            && a == Shows(Load(t, tid, true, user))
  {
    var own, reply := MessageRow(mid, tid, RoleParticipant, user, body, at, VISIBLE),
        MessageRow(mid, tid, RoleAdmin, user, body, at, VISIBLE);
    MessagesOfAppend(s.messages, own, tid);
    MessagesOfAppend(s.messages, reply, tid);
    ShownOfOneMore(MessagesOf(s.messages, tid), own, false);
    forall isAdmin ensures Shown(MessagesOf(s.messages, tid) + [reply], isAdmin)
                           == Shown(MessagesOf(s.messages, tid), isAdmin)
                               + [Message(mid, RoleAdmin, user, body, at, VISIBLE)]
    {
      ShownOfOneMore(MessagesOf(s.messages, tid), reply, isAdmin);
    }
  }

  /** A thread put out of sight is read by no participant, and back in sight as before. */
  lemma ModeratedIsUnread(s: Db, tid: string, to: string, viewer: string)
    requires tid in s.threads && IsState(to)
    ensures var t := SetThread(s, tid, None, None, Some(to)).0;
            && (to != VISIBLE ==> ReadThread(t, viewer, false, tid) == Err(ErrNotFound))
            && (s.threads[tid].state == VISIBLE ==> SetThread(t, tid, None, None, Some(VISIBLE)).0 == s)
  {
    var t := SetThread(s, tid, None, None, Some(to)).0;
    if s.threads[tid].state == VISIBLE {
      assert SetThread(t, tid, None, None, Some(VISIBLE)).0.threads == s.threads;
    }
  }
}
