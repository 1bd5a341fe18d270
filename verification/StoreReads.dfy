/** What the store answers after each call, in terms of what it answered before: which calls touch
    which answers, what they make of them, which statements can fail, and what an empty database says. */
module StoreReads {
  import opened StoreState
  import opened StoreRuns
  import opened Wrappers

  /** The calls after which an answer may be another one. */
  predicate Touches(op: Op, q: Query) {
    match q
    case IsSolved(k) => op.Reset? || op.Restart? || (op.MarkSolved? && op.k == k)
    case HasExfil(k, _) => op.Reset? || op.Restart? || ((op.RecordExfil? || op.ResetDirty?) && op.k == k)
    case HasExfilAny(k) => op.Reset? || op.Restart? || ((op.RecordExfil? || op.ResetDirty?) && op.k == k)
    case PendingExfilSolves => op.Reset? || op.Restart? || op.RecordExfil? || op.ResetDirty? || op.MarkSolved?
    case DirtyRules(k) => op.Reset? || op.Restart? || ((op.MarkDirty? || op.ResetDirty?) && op.k == k)
    case HasExpectedRuleFire(k) => op.Reset? || op.Restart? || (op.RecordExpectedRuleFire? && op.k == k)
    case HintViews(user) => op.Reset? || op.Restart? || (op.RecordHintView? && op.k.user == user)
    case StepChecks(user) => op.Reset? || op.Restart? || (op.SetStepCheck? && op.k.user == user)
    case DisplayName(user) =>
      op.Restart? || ((op.SetDisplayName? || op.SetProfile? || op.ResetProfile?) && op.user == user)
    case Avatar(user) => op.Restart? || ((op.SetProfile? || op.ResetProfile?) && op.user == user)
  }

  lemma MarksStay(marks: set<(Key, int)>, x: (Key, int), user: string)
    requires user != x.0.user
    ensures MarksOf(marks + {x}, user) == MarksOf(marks, user) == MarksOf(marks - {x}, user)
  {
  }

  lemma HintStays(s: State, x: (Key, int), failAt: nat, q: Query)
    requires !Touches(Op.RecordHintView(x.0, x.1), q)
    ensures Respond(RecordHintViewStep(s, x, failAt).0.mem, q) == Respond(s.mem, q)
  {
    if q.HintViews? { MarksStay(s.mem.hints, x, q.user); }
  }

  lemma CheckStays(s: State, x: (Key, int), checked: bool, failAt: nat, q: Query)
    requires !Touches(Op.SetStepCheck(x.0, x.1, checked), q)
    ensures Respond(SetStepCheckStep(s, x, checked, failAt).0.mem, q) == Respond(s.mem, q)
  {
    if q.StepChecks? { MarksStay(s.mem.steps, x, q.user); }
  }

  lemma SolveStays(s: State, k: Key, at: string, failAt: nat, q: Query)
    requires !Touches(Op.MarkSolved(k, at), q)
    ensures Respond(MarkSolvedStep(s, k, at, failAt).0.mem, q) == Respond(s.mem, q)
  {
  }

  lemma ReceiptStays(s: State, k: Key, flag: string, failAt: nat, q: Query)
    requires !Touches(Op.RecordExfil(k, flag), q)
    ensures Respond(RecordExfilStep(s, k, flag, failAt).0.mem, q) == Respond(s.mem, q)
  {
  }

  lemma NameStays(s: State, user: string, name: string, failAt: nat, q: Query)
    requires !Touches(Op.SetDisplayName(user, name), q)
    ensures Respond(SetDisplayNameStep(s, user, name, failAt).0.mem, q) == Respond(s.mem, q)
  {
  }

  lemma ProfileStays(s: State, user: string, name: Option<string>, avatar: Option<string>, failAt: nat, q: Query)
    requires !Touches(Op.SetProfile(user, name, avatar), q)
    ensures Respond(SetProfileStep(s, user, name, avatar, failAt).0.mem, q) == Respond(s.mem, q)
  {
  }

  lemma ProfileResetStays(s: State, user: string, failAt: nat, q: Query)
    requires !Touches(Op.ResetProfile(user), q)
    ensures Respond(ResetProfileStep(s, user, failAt).0.mem, q) == Respond(s.mem, q)
  {
  }

  lemma FireStays(s: State, user: string, rule: string, time: real, q: Query)
    requires !Touches(Op.RecordRuleFire(user, rule, time), q)
    ensures Respond(RecordRuleFireStep(s, user, rule, time).0.mem, q) == Respond(s.mem, q)
  {
  }

  lemma TaintStays(s: State, k: Key, rule: string, failAt: nat, q: Query)
    requires !Touches(Op.MarkDirty(k, rule), q)
    ensures Respond(MarkDirtyStep(s, k, rule, failAt).0.mem, q) == Respond(s.mem, q)
  {
  }

  lemma ExpectationStays(s: State, k: Key, rule: string, failAt: nat, q: Query)
    requires !Touches(Op.RecordExpectedRuleFire(k, rule), q)
    ensures Respond(RecordExpectedStep(s, k, rule, failAt).0.mem, q) == Respond(s.mem, q)
  {
  }

  lemma PairResetStays(s: State, k: Key, failAt: nat, q: Query)
    requires !Touches(Op.ResetDirty(k), q)
    ensures Respond(ResetDirtyStep(s, k, failAt).0.mem, q) == Respond(s.mem, q)
  {
  }

  lemma WipeStays(s: State, failAt: nat, q: Query)
    requires !Touches(Reset, q)
    ensures Respond(ResetStep(s, failAt).0.mem, q) == Respond(s.mem, q)
  {
  }

  /** Every other answer stays as it was, whatever fails. */
  lemma OthersStay(s: State, op: Op, failAt: nat, q: Query)
    requires !Touches(op, q)
    ensures Told(s, op, failAt, q) == Respond(s.mem, q)
  {
    match op {
      case MarkSolved(k, at) => SolveStays(s, k, at, failAt, q);
      case RecordExfil(k, flag) => ReceiptStays(s, k, flag, failAt, q);
      case RecordHintView(k, idx) => HintStays(s, (k, idx), failAt, q);
      case SetStepCheck(k, idx, checked) => CheckStays(s, (k, idx), checked, failAt, q);
      case SetDisplayName(user, name) => NameStays(s, user, name, failAt, q);
      case SetProfile(user, name, avatar) => ProfileStays(s, user, name, avatar, failAt, q);
      case ResetProfile(user) => ProfileResetStays(s, user, failAt, q);
      case RecordRuleFire(user, rule, time) => FireStays(s, user, rule, time, q);
      case MarkDirty(k, rule) => TaintStays(s, k, rule, failAt, q);
      case RecordExpectedRuleFire(k, rule) => ExpectationStays(s, k, rule, failAt, q);
      case ResetDirty(k) => PairResetStays(s, k, failAt, q);
      case Reset => WipeStays(s, failAt, q);
      case Restart => assert false;
      case Ask(query) =>
    }
  }

  // ---- which calls fail ------------------------------------------------------

  function Given(o: Option<string>): nat { match o case None => 0 case Some(_) => 1 }

  /** The statements of a call that the source runs, and so may fail. */
  function Statements(m: Mem, op: Op): nat {
    match op
    case MarkSolved(k, _) => if Respond(m, IsSolved(k)).b then 0 else 1
    case RecordExfil(_, _) => 1
    case RecordHintView(k, idx) => if (k.challenge, idx) in Respond(m, HintViews(k.user)).marks then 0 else 1
    case SetStepCheck(_, _, _) => 1
    case SetDisplayName(_, _) => 1
    case SetProfile(_, name, avatar) =>
      if Given(name) + Given(avatar) == 0 then 0 else 2 + Given(name) + Given(avatar)
    case ResetProfile(_) => 4
    case RecordRuleFire(_, _, _) => 0
    case MarkDirty(_, _) => 1
    case RecordExpectedRuleFire(_, _) => 1
    case ResetDirty(_) => 4
    case Reset => 6
    case Restart => 0
    case Ask(_) => 0
  }

  lemma HintIsSeen(marks: set<(Key, int)>, k: Key, idx: int)
    ensures (k, idx) in marks <==> (k.challenge, idx) in MarksOf(marks, k.user)
  {
    if (k, idx) in marks { assert (k, idx).0.user == k.user; }
    if (k.challenge, idx) in MarksOf(marks, k.user) {
      var x :| x in marks && x.0.user == k.user && (x.0.challenge, x.1) == (k.challenge, idx);
      assert x == (k, idx);
    }
  }

  /** A call fails iff one of its statements does. */
  lemma FailsIff(s: State, op: Op, failAt: nat)
    ensures Step(s, op, failAt).1.Failed? <==> 1 <= failAt <= Statements(s.mem, op)
  {
    match op {
      case MarkSolved(_, _) =>
      case RecordExfil(_, _) =>
      case RecordHintView(k, idx) => HintIsSeen(s.mem.hints, k, idx);
      case SetStepCheck(_, _, _) =>
      case SetDisplayName(_, _) =>
      case SetProfile(_, _, _) =>
      case ResetProfile(_) =>
      case RecordRuleFire(_, _, _) =>
      case MarkDirty(_, _) =>
      case RecordExpectedRuleFire(_, _) =>
      case ResetDirty(_) =>
      case Reset =>
      case Restart =>
      case Ask(_) =>
    }
  }

  /** A failed call changes nothing, but for the two that write memory first and the full reset, which
      keeps its memory and leaves the tables before the failed statement empty. */
  lemma FailedCallsChangeNothing(s: State, op: Op, failAt: nat)
    requires Step(s, op, failAt).1.Failed?
    ensures !op.MarkDirty? && !op.RecordExpectedRuleFire? && !op.Reset? ==> Step(s, op, failAt).0 == s
    ensures op.MarkDirty? || op.RecordExpectedRuleFire? ==> Step(s, op, failAt).0.db == s.db
    ensures op.Reset? ==>
              var t := Step(s, op, failAt).0;
              && t.mem == s.mem && t.db.names == s.db.names && t.db.avatars == s.db.avatars
              && t.db.expected == s.db.expected
              && t.db.solved == (if failAt > 1 then map[] else s.db.solved)
              && t.db.exfil == (if failAt > 2 then map[] else s.db.exfil)
              && t.db.hints == (if failAt > 3 then {} else s.db.hints)
              && t.db.steps == (if failAt > 4 then {} else s.db.steps)
              && t.db.dirty == (if failAt > 5 then {} else s.db.dirty)
  {
    match op {
      case MarkSolved(_, _) =>
      case RecordExfil(_, _) =>
      case RecordHintView(_, _) =>
      case SetStepCheck(_, _, _) =>
      case SetDisplayName(_, _) =>
      case SetProfile(_, _, _) =>
      case ResetProfile(_) =>
      case MarkDirty(_, _) =>
      case RecordExpectedRuleFire(_, _) =>
      case ResetDirty(_) =>
      case Reset =>
    }
  }

  // ---- what a call makes of the answers it touches -----------------------------

  function Of(k: Key, receipts: set<Receipt>): set<Receipt> {
    set r | r in receipts && r.user == k.user && r.challenge == k.challenge
  }

  /** The first solve counts and is told apart from a repeat; its receipt is no longer pending. */
  lemma SolveIsRead(s: State, k: Key, at: string, failAt: nat)
    requires Succeeds(s, Op.MarkSolved(k, at), failAt)
    ensures var op, before := Op.MarkSolved(k, at), Respond(s.mem, IsSolved(k)).b;
            && Step(s, op, failAt).1 == Flag(!before) && Told(s, op, failAt, IsSolved(k)) == Flag(true)
            && Told(s, op, failAt, PendingExfilSolves).receipts
               == Pending(s.mem) - Of(k, Pending(s.mem))
            && Step(s, op, failAt).0.mem.solved[k] == (if before then s.mem.solved[k] else at)
            && (k in s.db.solved ==> Step(s, op, failAt).0.db.solved == s.db.solved)
            && (!before && k !in s.db.solved ==> Step(s, op, failAt).0.db.solved == s.db.solved[k := at])
  {
    var t := MarkSolvedStep(s, k, at, failAt).0;
    assert Step(s, Op.MarkSolved(k, at), failAt).0 == t;
    forall r ensures r in Pending(t.mem) <==> r in Pending(s.mem) && r !in Of(k, Pending(s.mem)) {
      var j := Key(r.user, r.challenge);
      PendingHolds(s.mem, r);
      PendingHolds(t.mem, r);
      assert j == k <==> r.user == k.user && r.challenge == k.challenge;
    }
  }

  lemma PendingHolds(m: Mem, r: Receipt)
    ensures r in Pending(m) <==>
            var k := Key(r.user, r.challenge); k in m.exfil && k !in m.solved && m.exfil[k] == r.flag
  {
    var k := Key(r.user, r.challenge);
    if k in m.exfil && k !in m.solved && m.exfil[k] == r.flag {
      assert r == Receipt(k.user, k.challenge, m.exfil[k]);
    }
  }

  /** The last receipt of a pair replaces the one before, and is pending until the pair is solved. */
  lemma ReceiptIsRead(s: State, k: Key, flag: string, failAt: nat)
    requires Succeeds(s, Op.RecordExfil(k, flag), failAt)
    ensures var op := Op.RecordExfil(k, flag);
            && Step(s, op, failAt).1 == Done && Told(s, op, failAt, HasExfilAny(k)) == Flag(true)
            && (forall g :: Told(s, op, failAt, HasExfil(k, g)) == Flag(g == flag))
            && Told(s, op, failAt, PendingExfilSolves).receipts
               == (Pending(s.mem) - Of(k, Pending(s.mem)))
                  + if Respond(s.mem, IsSolved(k)).b then {} else {Receipt(k.user, k.challenge, flag)}
  {
    var t := RecordExfilStep(s, k, flag, failAt).0;
    assert Step(s, Op.RecordExfil(k, flag), failAt).0 == t;
    forall r
      ensures r in Pending(t.mem) <==>
              (r in Pending(s.mem) && r !in Of(k, Pending(s.mem)))
              || (k !in s.mem.solved && r == Receipt(k.user, k.challenge, flag))
    {
      PendingHolds(s.mem, r);
      PendingHolds(t.mem, r);
      assert Key(r.user, r.challenge) == k <==> r.user == k.user && r.challenge == k.challenge;
    }
  }

  lemma MarksOfMore(marks: set<(Key, int)>, k: Key, idx: int)
    ensures MarksOf(marks + {(k, idx)}, k.user) == MarksOf(marks, k.user) + {(k.challenge, idx)}
    ensures MarksOf(marks - {(k, idx)}, k.user) == MarksOf(marks, k.user) - {(k.challenge, idx)}
  {
    forall c, i
      ensures (c, i) in MarksOf(marks + {(k, idx)}, k.user) <==> (c, i) in MarksOf(marks, k.user) + {(k.challenge, idx)}
      ensures (c, i) in MarksOf(marks - {(k, idx)}, k.user) <==> (c, i) in MarksOf(marks, k.user) - {(k.challenge, idx)}
    {
      var j := Key(k.user, c);
      HintIsSeen(marks, j, i);
      HintIsSeen(marks + {(k, idx)}, j, i);
      HintIsSeen(marks - {(k, idx)}, j, i);
      assert j == k <==> c == k.challenge;
    }
  }

  /** A first reveal is told apart from a repeat, and is one more mark of its user. */
  lemma HintIsRead(s: State, k: Key, idx: int, failAt: nat)
    requires Succeeds(s, Op.RecordHintView(k, idx), failAt)
    ensures var op, before := Op.RecordHintView(k, idx), Respond(s.mem, HintViews(k.user)).marks;
            && Step(s, op, failAt).1 == Flag((k.challenge, idx) !in before)
            && Told(s, op, failAt, HintViews(k.user)) == Marks(before + {(k.challenge, idx)})
  {
    HintIsSeen(s.mem.hints, k, idx);
    MarksOfMore(s.mem.hints, k, idx);
    if (k, idx) in s.mem.hints { assert s.mem.hints + {(k, idx)} == s.mem.hints; }
  }

  /** A tick is one more mark of its user, an untick one less, and every other mark stays. */
  lemma TickIsRead(s: State, k: Key, idx: int, checked: bool, failAt: nat)
    requires Succeeds(s, Op.SetStepCheck(k, idx, checked), failAt)
    ensures var op, before := Op.SetStepCheck(k, idx, checked), Respond(s.mem, StepChecks(k.user)).marks;
            && Step(s, op, failAt).1 == Done
            && Told(s, op, failAt, StepChecks(k.user))
               == Marks(if checked then before + {(k.challenge, idx)} else before - {(k.challenge, idx)})
  {
    MarksOfMore(s.mem.steps, k, idx);
  }

  function Shown(name: string, user: string): string { if name != "" then name else user }

  lemma NameIsRead(s: State, user: string, name: string, failAt: nat)
    requires Succeeds(s, Op.SetDisplayName(user, name), failAt)
    ensures Step(s, Op.SetDisplayName(user, name), failAt).1 == Done
    ensures Told(s, Op.SetDisplayName(user, name), failAt, DisplayName(user)) == Text(Shown(name, user))
  {
  }

  /** Each field that is given is answered from then on; one that is not stays. */
  lemma ProfileIsRead(s: State, user: string, name: Option<string>, avatar: Option<string>, failAt: nat)
    requires Succeeds(s, Op.SetProfile(user, name, avatar), failAt)
    ensures var op := Op.SetProfile(user, name, avatar);
            && Step(s, op, failAt).1 == Done
            && Told(s, op, failAt, DisplayName(user))
               == (if name.Some? then Text(Shown(name.value, user)) else Respond(s.mem, DisplayName(user)))
            && Told(s, op, failAt, Avatar(user))
               == (if avatar.Some? then Text(avatar.value) else Respond(s.mem, Avatar(user)))
  {
  }

  lemma ProfileResetIsRead(s: State, user: string, failAt: nat)
    requires Succeeds(s, Op.ResetProfile(user), failAt)
    ensures Step(s, Op.ResetProfile(user), failAt).1 == Done
    ensures Told(s, Op.ResetProfile(user), failAt, DisplayName(user)) == Text(user)
    ensures Told(s, Op.ResetProfile(user), failAt, Avatar(user)) == Text("")
  {
  }

  /** Both kinds of rule are known at once, even where the insert failed. */
  lemma RulesAreRead(s: State, k: Key, rule: string, failAt: nat)
    ensures Told(s, Op.MarkDirty(k, rule), failAt, DirtyRules(k))
            == Rules(Respond(s.mem, DirtyRules(k)).rules + {rule})
    ensures Told(s, Op.RecordExpectedRuleFire(k, rule), failAt, HasExpectedRuleFire(k)) == Flag(true)
    ensures failAt != 1 ==> Step(s, Op.MarkDirty(k, rule), failAt).1 == Done
    ensures failAt != 1 ==> Step(s, Op.RecordExpectedRuleFire(k, rule), failAt).1 == Done
  {
    var t, u := MarkDirtyStep(s, k, rule, failAt).0, RecordExpectedStep(s, k, rule, failAt).0;
    assert Step(s, Op.MarkDirty(k, rule), failAt).0 == t;
    assert Step(s, Op.RecordExpectedRuleFire(k, rule), failAt).0 == u;
    assert t.mem.dirty == AddRule(s.mem.dirty, k, rule) && u.mem.expected == AddRule(s.mem.expected, k, rule);
    assert rule in RulesOf(u.mem.expected, k);
  }

  /** A reset pair is clean and has no receipt. */
  lemma PairResetIsRead(s: State, k: Key, failAt: nat)
    requires Succeeds(s, Op.ResetDirty(k), failAt)
    ensures var op := Op.ResetDirty(k);
            && Step(s, op, failAt).1 == Done && Told(s, op, failAt, DirtyRules(k)) == Rules({})
            && Told(s, op, failAt, HasExfilAny(k)) == Flag(false)
            && (forall g :: Told(s, op, failAt, HasExfil(k, g)) == Flag(false))
            && Told(s, op, failAt, PendingExfilSolves).receipts == Pending(s.mem) - Of(k, Pending(s.mem))
  {
    var t := ResetDirtyStep(s, k, failAt).0;
    assert Step(s, Op.ResetDirty(k), failAt).0 == t;
    forall r ensures r in Pending(t.mem) <==> r in Pending(s.mem) && r !in Of(k, Pending(s.mem)) {
      PendingHolds(s.mem, r);
      PendingHolds(t.mem, r);
      assert Key(r.user, r.challenge) == k <==> r.user == k.user && r.challenge == k.challenge;
    }
  }

  /** What a store with nothing in it answers; names are no part of a reset. */
  predicate SaysNothing(m: Mem, q: Query) {
    match q
    case IsSolved(_) => Respond(m, q) == Flag(false)
    case HasExfil(_, _) => Respond(m, q) == Flag(false)
    case HasExfilAny(_) => Respond(m, q) == Flag(false)
    case PendingExfilSolves => Respond(m, q) == Receipts({})
    case DirtyRules(_) => Respond(m, q) == Rules({})
    case HasExpectedRuleFire(_) => Respond(m, q) == Flag(false)
    case HintViews(_) => Respond(m, q) == Marks({})
    case StepChecks(_) => Respond(m, q) == Marks({})
    case DisplayName(_) => true
    case Avatar(_) => true
  }

  /** A full reset counts the solves it forgets. */
  lemma WipeIsRead(s: State, failAt: nat, q: Query)
    requires Succeeds(s, Reset, failAt)
    ensures var solved := set k | k in s.mem.solved && Respond(s.mem, IsSolved(k)).b;
            Step(s, Reset, failAt).1 == Count(|solved|)
    ensures SaysNothing(Step(s, Reset, failAt).0.mem, q)
  {
    assert (set k | k in s.mem.solved && Respond(s.mem, IsSolved(k)).b) == s.mem.solved.Keys;
  }

  lemma NewStoreIsRead(user: string, q: Query)
    ensures SaysNothing(FRESH.mem, q)
    ensures Respond(FRESH.mem, DisplayName(user)) == Text(user) && Respond(FRESH.mem, Avatar(user)) == Text("")
  {
    assert Grouped({}) == map[];
  }
}
