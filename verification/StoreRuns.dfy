/** What the store keeps over whole runs: containment of the tables in memory, restart
    transparency, and the taint rule. */
module StoreRuns {
  import opened StoreState
  import opened Wrappers

  // ---- containment ----------------------------------------------------------

  ghost predicate SubMap<K, V>(a: map<K, V>, b: map<K, V>) {
    forall k | k in a :: k in b && a[k] == b[k]
  }

  ghost predicate RowsIn(rows: set<(Key, string)>, m: map<Key, set<string>>) {
    forall r | r in rows :: r.0 in m && r.1 in m[r.0]
  }

  ghost predicate NoEmptySets(m: map<Key, set<string>>) { forall k | k in m :: m[k] != {} }

  /** Every persisted row is in memory with the same value. */
  ghost predicate Contained(s: State) { ResultsContained(s) && RulesContained(s) }

  ghost predicate ResultsContained(s: State) {
    && SubMap(s.db.solved, s.mem.solved) && SubMap(s.db.exfil, s.mem.exfil)
    && s.db.hints <= s.mem.hints && s.db.steps <= s.mem.steps
    && s.db.names == s.mem.names && s.db.avatars == s.mem.avatars
  }

  ghost predicate RulesContained(s: State) {
    && RowsIn(s.db.dirty, s.mem.dirty) && RowsIn(s.db.expected, s.mem.expected)
    && NoEmptySets(s.mem.dirty) && NoEmptySets(s.mem.expected)
  }

  /** Memory holds nothing beyond the tables: a restart would rebuild it. */
  ghost predicate Synced(s: State) {
    s.mem == Load(s.db).(events := s.mem.events, fires := s.mem.fires)
  }

  lemma GroupedRows(rows: set<(Key, string)>)
    ensures RowsIn(rows, Grouped(rows)) && NoEmptySets(Grouped(rows))
    ensures forall k, x :: (k in Grouped(rows) && x in Grouped(rows)[k]) <==> (k, x) in rows
  {
    forall k | k in Grouped(rows) ensures Grouped(rows)[k] != {} {
      var r :| r in rows && r.0 == k;
      assert r.1 in RowRules(rows, k);
    }
    forall k, x ensures (k in Grouped(rows) && x in Grouped(rows)[k]) <==> (k, x) in rows {
      if (k, x) in rows { assert (k, x).0 == k && (k, x).1 == x; }
    }
    forall r | r in rows ensures r.0 in Grouped(rows) && r.1 in Grouped(rows)[r.0] { assert (r.0, r.1) in rows; }
  }

  lemma SyncedIsContained(s: State)
    requires Synced(s)
    ensures Contained(s)
  {
    GroupedRows(s.db.dirty);
    GroupedRows(s.db.expected);
  }

  lemma ResetKeeps(s: State, failAt: nat)
    requires Contained(s)
    ensures Contained(ResetStep(s, failAt).0)
  {
    if 1 <= failAt <= 6 {
      var db := ResetTables(s.db, failAt - 1);
      assert SubMap(db.solved, s.mem.solved) && SubMap(db.exfil, s.mem.exfil);
      assert RowsIn(db.dirty, s.mem.dirty) && RowsIn(db.expected, s.mem.expected);
    }
  }

  lemma MarkSolvedKeeps(s: State, k: Key, at: string, failAt: nat)
    requires ResultsContained(s)
    ensures ResultsContained(MarkSolvedStep(s, k, at, failAt).0)
  {
  }

  lemma ProfileKeeps(s: State, user: string, name: Option<string>, avatar: Option<string>, failAt: nat)
    requires ResultsContained(s)
    ensures ResultsContained(SetProfileStep(s, user, name, avatar, failAt).0)
    ensures ResultsContained(ResetProfileStep(s, user, failAt).0)
  {
  }

  lemma ResetDirtyKeeps(s: State, k: Key, failAt: nat)
    requires Contained(s)
    ensures Contained(ResetDirtyStep(s, k, failAt).0)
  {
  }

  lemma MapsKeep(s: State, k: Key, flag: string, x: (Key, int), checked: bool, failAt: nat)
    requires ResultsContained(s)
    ensures ResultsContained(RecordExfilStep(s, k, flag, failAt).0)
    ensures ResultsContained(RecordHintViewStep(s, x, failAt).0)
    ensures ResultsContained(SetStepCheckStep(s, x, checked, failAt).0)
  {
  }

  /** The parts of the state that the results speak of. */
  ghost predicate SameResults(s: State, t: State) {
    && s.db.solved == t.db.solved && s.db.exfil == t.db.exfil && s.db.hints == t.db.hints && s.db.steps == t.db.steps
    && s.db.names == t.db.names && s.db.avatars == t.db.avatars
    && s.mem.solved == t.mem.solved && s.mem.exfil == t.mem.exfil
    && s.mem.hints == t.mem.hints && s.mem.steps == t.mem.steps
    && s.mem.names == t.mem.names && s.mem.avatars == t.mem.avatars
  }

  lemma ResultsUntouched(s: State, op: Op, failAt: nat)
    requires op.RecordRuleFire? || op.MarkDirty? || op.RecordExpectedRuleFire? || op.Ask?
    ensures SameResults(s, Step(s, op, failAt).0)
  {
  }

  lemma StepKeepsResults(s: State, op: Op, failAt: nat)
    requires ResultsContained(s) && !op.Reset? && !op.ResetDirty?
    ensures ResultsContained(Step(s, op, failAt).0)
  {
    match op {
      case MarkSolved(k, at) => MarkSolvedKeeps(s, k, at, failAt);
      case RecordExfil(k, flag) => MapsKeep(s, k, flag, (k, 0), true, failAt);
      case RecordHintView(k, idx) => MapsKeep(s, k, "", (k, idx), true, failAt);
      case SetStepCheck(k, idx, checked) => MapsKeep(s, k, "", (k, idx), checked, failAt);
      case SetDisplayName(_, _) =>
      case SetProfile(user, name, avatar) => ProfileKeeps(s, user, name, avatar, failAt);
      case ResetProfile(user) => ProfileKeeps(s, user, None, None, failAt);
      case Restart =>
      case _ => ResultsUntouched(s, op, failAt);
    }
  }

  lemma RowsInAdd(rows: set<(Key, string)>, m: map<Key, set<string>>, k: Key, x: string)
    requires RowsIn(rows, m) && NoEmptySets(m)
    ensures RowsIn(rows, AddRule(m, k, x)) && RowsIn(rows + {(k, x)}, AddRule(m, k, x)) && NoEmptySets(AddRule(m, k, x))
  {
    assert x in AddRule(m, k, x)[k];
  }

  lemma RulesContainedFrom(s: State)
    requires RowsIn(s.db.dirty, s.mem.dirty) && NoEmptySets(s.mem.dirty)
    requires RowsIn(s.db.expected, s.mem.expected) && NoEmptySets(s.mem.expected)
    ensures RulesContained(s)
  {
  }

  lemma MarkDirtyKeeps(s: State, k: Key, rule: string, failAt: nat)
    requires RulesContained(s)
    ensures RulesContained(MarkDirtyStep(s, k, rule, failAt).0)
  {
    var t := MarkDirtyStep(s, k, rule, failAt).0;
    assert t.mem == s.mem.(dirty := AddRule(s.mem.dirty, k, rule));
    assert t.db == s.db || t.db == s.db.(dirty := s.db.dirty + {(k, rule)});
    RowsInAdd(s.db.dirty, s.mem.dirty, k, rule);
    RulesContainedFrom(t);
  }

  lemma RecordExpectedKeeps(s: State, k: Key, rule: string, failAt: nat)
    requires RulesContained(s)
    ensures RulesContained(RecordExpectedStep(s, k, rule, failAt).0)
  {
    var t := RecordExpectedStep(s, k, rule, failAt).0;
    assert t.mem == s.mem.(expected := AddRule(s.mem.expected, k, rule));
    assert t.db == s.db || t.db == s.db.(expected := s.db.expected + {(k, rule)});
    RowsInAdd(s.db.expected, s.mem.expected, k, rule);
    RulesContainedFrom(t);
  }

  lemma RestartKeepsRules(s: State)
    ensures RulesContained(State(s.db, Load(s.db)))
  {
    GroupedRows(s.db.dirty);
    GroupedRows(s.db.expected);
  }

  lemma StepKeepsRules(s: State, op: Op, failAt: nat)
    requires RulesContained(s) && !op.Reset? && !op.ResetDirty?
    ensures RulesContained(Step(s, op, failAt).0)
  {
    match op {
      case MarkDirty(k, rule) => MarkDirtyKeeps(s, k, rule, failAt);
      case RecordExpectedRuleFire(k, rule) => RecordExpectedKeeps(s, k, rule, failAt);
      case Restart => RestartKeepsRules(s);
      case _ => RulesUntouched(s, op, failAt);
    }
  }

  lemma RulesUntouched(s: State, op: Op, failAt: nat)
    requires !op.MarkDirty? && !op.RecordExpectedRuleFire? && !op.ResetDirty? && !op.Reset? && !op.Restart?
    ensures var t := Step(s, op, failAt).0;
            && t.db.dirty == s.db.dirty && t.db.expected == s.db.expected
            && t.mem.dirty == s.mem.dirty && t.mem.expected == s.mem.expected
  {
    match op {
      case MarkSolved(_, _) =>
      case RecordExfil(_, _) =>
      case RecordHintView(_, _) =>
      case SetStepCheck(_, _, _) =>
      case SetDisplayName(_, _) =>
      case SetProfile(_, _, _) =>
      case ResetProfile(_) =>
      case RecordRuleFire(_, _, _) =>
      case Ask(_) =>
    }
  }

  /** Containment survives every step: any statement may fail, also in the middle of a reset. */
  lemma StepKeepsContained(s: State, op: Op, failAt: nat)
    requires Contained(s)
    ensures Contained(Step(s, op, failAt).0)
  {
    if op.Reset? {
      ResetKeeps(s, failAt);
    } else if op.ResetDirty? {
      ResetDirtyKeeps(s, op.k, failAt);
    } else {
      StepKeepsResults(s, op, failAt);
      StepKeepsRules(s, op, failAt);
    }
  }

  lemma {:induction false} RunsKeepContained(s: State, calls: seq<Call>)
    requires Contained(s)
    ensures Contained(After(s, calls))
    decreases calls
  {
    if calls != [] {
      StepKeepsContained(s, calls[0].op, calls[0].failAt);
      RunsKeepContained(Step(s, calls[0].op, calls[0].failAt).0, calls[1..]);
    }
  }

  lemma GroupedAdd(rows: set<(Key, string)>, k: Key, x: string)
    ensures Grouped(rows + {(k, x)}) == AddRule(Grouped(rows), k, x)
  {
    var a, b := Grouped(rows + {(k, x)}), AddRule(Grouped(rows), k, x);
    forall j ensures j in a <==> j in b {
      if j in b && j != k { var r :| r in rows && r.0 == j; assert r in rows + {(k, x)}; }
      if j == k { assert (k, x) in rows + {(k, x)} && (k, x).0 == k; }
    }
    forall j | j in a ensures a[j] == b[j] {
      if j == k {
        if k !in Grouped(rows) { assert RowRules(rows, k) == {}; }
        assert (k, x).1 == x;
      }
    }
  }

  lemma GroupedRemove(rows: set<(Key, string)>, k: Key)
    ensures Grouped(set r | r in rows && r.0 != k) == Grouped(rows) - {k}
  {
    var left := set r | r in rows && r.0 != k;
    var a, b := Grouped(left), Grouped(rows) - {k};
    forall j ensures j in a <==> j in b {
      if j in b { var r :| r in rows && r.0 == j; assert r in left; }
    }
    forall j | j in a ensures a[j] == b[j] {
      assert forall x :: x in RowRules(left, j) <==> x in RowRules(rows, j);
    }
  }

  /** Without an error, memory and tables move together. */
  lemma StepKeepsSynced(s: State, op: Op, failAt: nat)
    requires Synced(s) && !Step(s, op, failAt).1.Failed?
    ensures Synced(Step(s, op, failAt).0)
  {
    match op {
      case MarkDirty(k, rule) => GroupedAdd(s.db.dirty, k, rule);
      case RecordExpectedRuleFire(k, rule) => GroupedAdd(s.db.expected, k, rule);
      case ResetDirty(k) => GroupedRemove(s.db.dirty, k);
      case Reset => assert Grouped({}) == map[];
      case _ =>
    }
  }

  lemma {:induction false} ErrorFreeRunsStaySynced(s: State, calls: seq<Call>)
    requires Synced(s) && ErrorFree(s, calls)
    ensures Synced(After(s, calls))
    decreases calls
  {
    if calls != [] {
      StepKeepsSynced(s, calls[0].op, calls[0].failAt);
      ErrorFreeRunsStaySynced(Step(s, calls[0].op, calls[0].failAt).0, calls[1..]);
    }
  }

  /** The two facts about every run from a new database. */
  lemma TablesAndMemory(calls: seq<Call>)
    ensures Contained(After(FRESH, calls))
    ensures ErrorFree(FRESH, calls) ==> Synced(After(FRESH, calls))
  {
    SyncedIsContained(FRESH);
    RunsKeepContained(FRESH, calls);
    if ErrorFree(FRESH, calls) { ErrorFreeRunsStaySynced(FRESH, calls); }
  }

  // ---- restart transparency -------------------------------------------------

  /** Equal but for the counters that live in memory only. */
  ghost predicate Alike(s: State, t: State) {
    s.db == t.db && s.mem == t.mem.(events := s.mem.events, fires := s.mem.fires)
  }

  ghost predicate AlikeAfter(s: State, t: State, op: Op, failAt: nat) {
    var ((s', a), (t', b)) := (Step(s, op, failAt), Step(t, op, failAt));
    Alike(s', t') && (a.Failed? <==> b.Failed?) && (Observed(op) ==> a == b)
  }

  lemma AlikeReceipts(s: State, t: State, op: Op, failAt: nat)
    requires Alike(s, t) && (op.MarkSolved? || op.RecordExfil? || op.RecordHintView? || op.SetStepCheck?)
    ensures AlikeAfter(s, t, op, failAt)
  {
    match op {
      case MarkSolved(_, _) =>
      case RecordExfil(_, _) =>
      case RecordHintView(_, _) =>
      case SetStepCheck(_, _, _) =>
    }
  }

  lemma AlikeProfiles(s: State, t: State, op: Op, failAt: nat)
    requires Alike(s, t) && (op.SetDisplayName? || op.SetProfile? || op.ResetProfile? || op.RecordRuleFire?)
    ensures AlikeAfter(s, t, op, failAt)
  {
    match op {
      case SetDisplayName(_, _) =>
      case SetProfile(_, _, _) =>
      case ResetProfile(_) =>
      case RecordRuleFire(_, _, _) =>
    }
  }

  lemma AlikeMarkDirty(s: State, t: State, k: Key, rule: string, failAt: nat)
    requires Alike(s, t)
    ensures var ((s', a), (t', b)) := (MarkDirtyStep(s, k, rule, failAt), MarkDirtyStep(t, k, rule, failAt));
            Alike(s', t') && a == b
  {
  }

  lemma AlikeExpected(s: State, t: State, k: Key, rule: string, failAt: nat)
    requires Alike(s, t)
    ensures var ((s', a), (t', b)) := (RecordExpectedStep(s, k, rule, failAt), RecordExpectedStep(t, k, rule, failAt));
            Alike(s', t') && a == b
  {
  }

  lemma AlikeResetDirty(s: State, t: State, k: Key, failAt: nat)
    requires Alike(s, t)
    ensures AlikeAfter(s, t, Op.ResetDirty(k), failAt)
  {
  }

  lemma AlikeTaint(s: State, t: State, op: Op, failAt: nat)
    requires Alike(s, t) && (op.MarkDirty? || op.RecordExpectedRuleFire? || op.ResetDirty?)
    ensures AlikeAfter(s, t, op, failAt)
  {
    match op {
      case MarkDirty(k, rule) => AlikeMarkDirty(s, t, k, rule, failAt);
      case RecordExpectedRuleFire(k, rule) => AlikeExpected(s, t, k, rule, failAt);
      case ResetDirty(k) => AlikeResetDirty(s, t, k, failAt);
    }
  }

  lemma AlikeWhole(s: State, t: State, op: Op, failAt: nat)
    requires Alike(s, t) && (op.Reset? || op.Restart? || op.Ask?)
    ensures AlikeAfter(s, t, op, failAt)
  {
    match op {
      case Reset =>
      case Restart =>
      case Ask(_) =>
    }
  }

  lemma AlikeSteps(s: State, t: State, op: Op, failAt: nat)
    requires Alike(s, t)
    ensures var (s', a), (t', b) := Step(s, op, failAt), Step(t, op, failAt);
            Alike(s', t') && (a.Failed? <==> b.Failed?) && (Observed(op) ==> a == b)
  {
    if op.MarkSolved? || op.RecordExfil? || op.RecordHintView? || op.SetStepCheck? {
      AlikeReceipts(s, t, op, failAt);
    } else if op.SetDisplayName? || op.SetProfile? || op.ResetProfile? || op.RecordRuleFire? {
      AlikeProfiles(s, t, op, failAt);
    } else if op.MarkDirty? || op.RecordExpectedRuleFire? || op.ResetDirty? {
      AlikeTaint(s, t, op, failAt);
    } else {
      AlikeWhole(s, t, op, failAt);
    }
  }

  /** In an error-free run, closing and reopening the store anywhere changes no later answer. */
  lemma {:induction false} RestartsAreInvisible(s: State, t: State, calls: seq<Call>)
    requires Alike(s, t) && Synced(s) && ErrorFree(s, calls)
    ensures Answers(s, calls) == Answers(t, WithoutRestarts(calls))
    ensures Alike(After(s, calls), After(t, WithoutRestarts(calls)))
    decreases calls
  {
    if calls != [] {
      var c := calls[0];
      var s' := Step(s, c.op, c.failAt).0;
      StepKeepsSynced(s, c.op, c.failAt);
      if c.op.Restart? {
        RestartsAreInvisible(s', t, calls[1..]);
        assert WithoutRestarts(calls) == WithoutRestarts(calls[1..]);
        assert Answers(s, calls) == [] + Answers(s', calls[1..]);
      } else {
        AlikeSteps(s, t, c.op, c.failAt);
        RestartsAreInvisible(s', Step(t, c.op, c.failAt).0, calls[1..]);
        var rest := WithoutRestarts(calls[1..]);
        assert WithoutRestarts(calls)[0] == c && WithoutRestarts(calls)[1..] == rest;
      }
    }
  }

  lemma RestartTransparency(calls: seq<Call>)
    requires ErrorFree(FRESH, calls)
    ensures Answers(FRESH, calls) == Answers(FRESH, WithoutRestarts(calls))
  {
    RestartsAreInvisible(FRESH, FRESH, calls);
  }

  /** What a restart forgets after failures: rows that only memory holds. */
  ghost predicate NothingInMemoryOnly(s: State) {
    && s.mem.solved.Keys == s.db.solved.Keys && s.mem.exfil == s.db.exfil
    && s.mem.hints == s.db.hints && s.mem.steps == s.db.steps
    && s.mem.dirty == Grouped(s.db.dirty)
    && s.mem.expected.Keys == Grouped(s.db.expected).Keys
  }

  /** After any failures, a restart changes some answer iff some row is in memory only. */
  lemma RestartIsInvisibleIff(s: State)
    requires Contained(s)
    ensures (forall q :: Respond(Load(s.db), q) == Respond(s.mem, q)) <==> NothingInMemoryOnly(s)
  {
    var m := Load(s.db);
    GroupedRows(s.db.dirty);
    GroupedRows(s.db.expected);
    if forall q :: Respond(m, q) == Respond(s.mem, q) {
      forall k ensures k in s.mem.solved <==> k in m.solved {
        assert Respond(m, IsSolved(k)) == Respond(s.mem, IsSolved(k));
      }
      forall k ensures k in s.mem.exfil <==> k in m.exfil {
        assert Respond(m, HasExfilAny(k)) == Respond(s.mem, HasExfilAny(k));
      }
      forall x ensures x in s.mem.hints <==> x in m.hints {
        SameMark(m.hints, s.mem.hints, x, HintViews(x.0.user), m, s.mem);
      }
      forall x ensures x in s.mem.steps <==> x in m.steps {
        SameMark(m.steps, s.mem.steps, x, StepChecks(x.0.user), m, s.mem);
      }
      forall k ensures RulesOf(s.mem.dirty, k) == RulesOf(m.dirty, k) {
        assert Respond(m, DirtyRules(k)) == Respond(s.mem, DirtyRules(k));
      }
      forall k ensures k in s.mem.dirty <==> k in m.dirty { assert RulesOf(s.mem.dirty, k) == RulesOf(m.dirty, k); }
      forall k | k in m.dirty ensures s.mem.dirty[k] == m.dirty[k] {
        assert RulesOf(s.mem.dirty, k) == RulesOf(m.dirty, k);
      }
      forall k ensures k in s.mem.expected <==> k in m.expected {
        assert Respond(m, HasExpectedRuleFire(k)) == Respond(s.mem, HasExpectedRuleFire(k));
      }
    }
    if NothingInMemoryOnly(s) {
      forall q ensures Respond(m, q) == Respond(s.mem, q) {}
    }
  }

  lemma SameMark(a: set<(Key, int)>, b: set<(Key, int)>, x: (Key, int), q: Query, m: Mem, n: Mem)
    requires (q == HintViews(x.0.user) && a == m.hints && b == n.hints)
             || (q == StepChecks(x.0.user) && a == m.steps && b == n.steps)
    requires Respond(m, q) == Respond(n, q)
    ensures x in b <==> x in a
  {
    var user := x.0.user;
    assert MarksOf(a, user) == MarksOf(b, user);
    assert x in a ==> (x.0.challenge, x.1) in MarksOf(a, user);
    assert x in b ==> (x.0.challenge, x.1) in MarksOf(b, user);
    if (x.0.challenge, x.1) in MarksOf(a, user) {
      var y :| y in a && y.0.user == user && (y.0.challenge, y.1) == (x.0.challenge, x.1);
      assert y == x;
      var z :| z in b && z.0.user == user && (z.0.challenge, z.1) == (x.0.challenge, x.1);
      assert z == x;
    }
  }

  // ---- the taint ------------------------------------------------------------

  predicate Dirty(s: State, k: Key) { RulesOf(s.mem.dirty, k) != {} }
  predicate HasReceipt(s: State, k: Key) { k in s.mem.exfil }

  /** A call after which the pair has a receipt of its own. */
  predicate Delivers(s: State, c: Call, k: Key) {
    c.op.RecordExfil? && c.op.k == k && !Step(s, c.op, c.failAt).1.Failed?
  }

  /** Rules only ever join a pair's taint, except that ResetDirty and Reset empty it, and then its
      receipt goes in the same step. */
  lemma TaintIsMonotone(s: State, c: Call, k: Key)
    requires !c.op.Restart?
    ensures var t := Step(s, c.op, c.failAt).0;
            || RulesOf(s.mem.dirty, k) <= RulesOf(t.mem.dirty, k)
            || (!Dirty(t, k) && !HasReceipt(t, k) && ((c.op.ResetDirty? && c.op.k == k) || c.op.Reset?))
  {
    match c.op {
      case MarkSolved(_, _) =>
      case RecordExfil(_, _) =>
      case RecordHintView(_, _) =>
      case SetStepCheck(_, _, _) =>
      case SetDisplayName(_, _) =>
      case SetProfile(_, _, _) =>
      case ResetProfile(_) =>
      case RecordRuleFire(_, _, _) =>
      case MarkDirty(_, _) =>
      case RecordExpectedRuleFire(_, _) =>
      case ResetDirty(_) =>
      case Reset =>
      case Restart =>
      case Ask(_) =>
    }
  }

  ghost predicate NoneDelivers(s: State, calls: seq<Call>, k: Key)
    decreases calls
  {
    calls == [] || (!Delivers(s, calls[0], k) && NoneDelivers(Step(s, calls[0].op, calls[0].failAt).0, calls[1..], k))
  }

  ghost predicate NoRestart(calls: seq<Call>) { forall c | c in calls :: !c.op.Restart? }

  lemma StaleStep(s: State, c: Call, k: Key)
    requires Dirty(s, k) || !HasReceipt(s, k)
    requires !Delivers(s, c, k) && (c.op.Restart? ==> Synced(s))
    ensures var t := Step(s, c.op, c.failAt).0; Dirty(t, k) || !HasReceipt(t, k)
  {
    if !c.op.Restart? { TaintIsMonotone(s, c, k); }
    if !Dirty(s, k) { NoNewReceipt(s, c, k); }
  }

  lemma ExfilUntouchedByMarks(s: State, op: Op, failAt: nat)
    requires op.MarkSolved? || op.RecordHintView? || op.SetStepCheck? || op.Ask? || op.RecordRuleFire?
    ensures Step(s, op, failAt).0.mem.exfil == s.mem.exfil
  {
    match op {
      case MarkSolved(_, _) =>
      case RecordHintView(_, _) =>
      case SetStepCheck(_, _, _) =>
      case RecordRuleFire(_, _, _) =>
      case Ask(_) =>
    }
  }

  lemma ExfilUntouchedByRules(s: State, op: Op, failAt: nat)
    requires op.MarkDirty? || op.RecordExpectedRuleFire?
    ensures Step(s, op, failAt).0.mem.exfil == s.mem.exfil
  {
    match op {
      case MarkDirty(_, _) =>
      case RecordExpectedRuleFire(_, _) =>
    }
  }

  lemma ExfilUntouched(s: State, op: Op, failAt: nat)
    requires !op.RecordExfil? && !op.ResetDirty? && !op.Reset? && !op.Restart?
    ensures Step(s, op, failAt).0.mem.exfil == s.mem.exfil
  {
    match op {
      case SetDisplayName(_, _) =>
      case SetProfile(_, _, _) =>
      case ResetProfile(_) =>
      case MarkDirty(_, _) => ExfilUntouchedByRules(s, op, failAt);
      case RecordExpectedRuleFire(_, _) => ExfilUntouchedByRules(s, op, failAt);
      case _ => ExfilUntouchedByMarks(s, op, failAt);
    }
  }

  lemma NoNewReceipt(s: State, c: Call, k: Key)
    requires !HasReceipt(s, k) && !Delivers(s, c, k) && (c.op.Restart? ==> Synced(s))
    ensures !HasReceipt(Step(s, c.op, c.failAt).0, k)
  {
    match c.op {
      case RecordExfil(_, _) =>
      case ResetDirty(_) =>
      case Reset =>
      case Restart =>
      case _ => ExfilUntouched(s, c.op, c.failAt);
    }
  }

  /** A pair that is dirty, or has no receipt, stays so until a new receipt arrives: in runs
      without a restart whatever fails, and in error-free runs with restarts. */
  lemma {:induction false} NoSolveOffAStaleReceipt(s: State, calls: seq<Call>, k: Key)
    requires Dirty(s, k) || !HasReceipt(s, k)
    requires NoneDelivers(s, calls, k)
    requires NoRestart(calls) || (Synced(s) && ErrorFree(s, calls))
    ensures Dirty(After(s, calls), k) || !HasReceipt(After(s, calls), k)
    decreases calls
  {
    if calls != [] {
      var c := calls[0];
      assert c in calls && forall d | d in calls[1..] :: d in calls;
      StaleStep(s, c, k);
      if !NoRestart(calls) { StepKeepsSynced(s, c.op, c.failAt); }
      NoSolveOffAStaleReceipt(Step(s, c.op, c.failAt).0, calls[1..], k);
    }
  }

  /** Where both a failure and a restart happen, the rule can fail: a taint that reached memory
      only is forgotten, and the old receipt is pending and clean. */
  lemma FailureAndRestartForgetTaint(k: Key, rule: string, flag: string)
    ensures var calls := [Call(RecordExfil(k, flag), 0), Call(MarkDirty(k, rule), 1), Call(Restart, 0)];
            && Dirty(After(FRESH, calls[..2]), k)
            && NoneDelivers(After(FRESH, calls[..1]), calls[1..], k)
            && !Dirty(After(FRESH, calls), k)
            && Receipt(k.user, k.challenge, flag) in Pending(After(FRESH, calls).mem)
  {
    var a, b, c := Call(RecordExfil(k, flag), 0), Call(MarkDirty(k, rule), 1), Call(Restart, 0);
    var calls := [a, b, c];
    var s1 := Step(FRESH, a.op, 0).0;
    var s2 := Step(s1, b.op, 1).0;
    var s3 := Step(s2, c.op, 0).0;
    assert calls[..1] == [a] && calls[1..] == [b, c] && calls[..2] == [a, b];
    assert [a, b][1..] == [b] && [b, c][1..] == [c] && [c][1..] == [] && [b][1..] == [] && [a][1..] == [];
    assert After(s3, []) == s3 && After(s2, [c]) == s3 && After(s1, [b, c]) == s3 && After(FRESH, calls) == s3;
    assert After(s2, []) == s2 && After(s1, [b]) == s2 && After(FRESH, [a, b]) == s2 && After(FRESH, [a]) == s1;
    assert rule in RulesOf(s2.mem.dirty, k);
    assert NoneDelivers(s2, [c], k) && NoneDelivers(s1, [b, c], k);
    assert Grouped({}) == map[];
    assert k in s3.mem.exfil && k !in s3.mem.solved;
  }

  /** A restart keeps a pair's taint iff a row of it was persisted. */
  lemma RestartKeepsTaintIff(s: State, k: Key)
    requires Contained(s) && Dirty(s, k)
    ensures Dirty(Step(s, Restart, 0).0, k) <==> exists rule :: (k, rule) in s.db.dirty
  {
    GroupedRows(s.db.dirty);
    if exists rule :: (k, rule) in s.db.dirty {
      var rule :| (k, rule) in s.db.dirty;
      assert rule in Grouped(s.db.dirty)[k];
    }
    if Dirty(Step(s, Restart, 0).0, k) {
      var rule :| rule in RulesOf(Grouped(s.db.dirty), k);
      assert (k, rule) in s.db.dirty;
    }
  }

  // ---- what was written is read ----------------------------------------------

  function Told(s: State, op: Op, failAt: nat, q: Query): Answer { Respond(Step(s, op, failAt).0.mem, q) }

  predicate Succeeds(s: State, op: Op, failAt: nat) { !Step(s, op, failAt).1.Failed? }
}
