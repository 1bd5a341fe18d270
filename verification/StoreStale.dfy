/** No solve off a stale receipt, in every run: failures and restarts mixed. What a restart must find
    persisted for the rule to survive it, and the rule for exactly the runs whose restarts do. */
module StoreStale {
  import opened StoreState
  import opened StoreRuns

  /** The rule: a clean pair has no receipt from before it was last tainted. */
  predicate Safe(s: State, k: Key) { Dirty(s, k) || !HasReceipt(s, k) }

  ghost predicate TaintPersisted(s: State, k: Key) { exists rule :: (k, rule) in s.db.dirty }

  /** What an operator can read from the tables before a restart: a taint in memory has a row, or the
      pair has no receipt row left. */
  ghost predicate Survives(s: State, k: Key) { Dirty(s, k) ==> TaintPersisted(s, k) || k !in s.db.exfil }

  /** A restart keeps the rule iff the pair's taint was persisted or its receipt row is gone. */
  lemma RestartKeepsTheRuleIff(s: State, k: Key, failAt: nat)
    requires Contained(s) && Safe(s, k)
    ensures Safe(Step(s, Restart, failAt).0, k) <==> Survives(s, k)
  {
    assert Step(s, Restart, failAt).0 == Step(s, Restart, 0).0;
    if Dirty(s, k) {
      RestartKeepsTaintIff(s, k);
    } else {
      assert k !in s.db.exfil;
    }
  }

  /** The rule holds now and after every call. */
  ghost predicate SafeThroughout(s: State, calls: seq<Call>, k: Key)
    decreases calls
  {
    Safe(s, k) && (calls == [] || SafeThroughout(Step(s, calls[0].op, calls[0].failAt).0, calls[1..], k))
  }

  /** Every restart of the run finds the pair as Survives asks. */
  ghost predicate RestartsSurvive(s: State, calls: seq<Call>, k: Key)
    decreases calls
  {
    calls == [] ||
    (&& (calls[0].op.Restart? ==> Survives(s, k))
     && RestartsSurvive(Step(s, calls[0].op, calls[0].failAt).0, calls[1..], k))
  }

  lemma SafeStepIff(s: State, c: Call, k: Key)
    requires Contained(s) && Safe(s, k) && !Delivers(s, c, k)
    ensures Safe(Step(s, c.op, c.failAt).0, k) <==> (c.op.Restart? ==> Survives(s, k))
  {
    if c.op.Restart? { RestartKeepsTheRuleIff(s, k, c.failAt); } else { StaleStep(s, c, k); }
  }

  /** In every run, whatever fails and whenever it restarts, until the pair's next receipt the rule
      holds throughout iff every restart survives. */
  lemma {:induction false} SafeThroughoutIff(s: State, calls: seq<Call>, k: Key)
    requires Contained(s) && Safe(s, k) && NoneDelivers(s, calls, k)
    ensures SafeThroughout(s, calls, k) <==> RestartsSurvive(s, calls, k)
    decreases calls
  {
    if calls != [] {
      var c := calls[0];
      var t := Step(s, c.op, c.failAt).0;
      SafeStepIff(s, c, k);
      StepKeepsContained(s, c.op, c.failAt);
      if Safe(t, k) { SafeThroughoutIff(t, calls[1..], k); }
    }
  }

  /** The rule at the end of a run, from any point of a run from a new database on. */
  lemma SafeAtTheEnd(before: seq<Call>, calls: seq<Call>, k: Key)
    requires var s := After(FRESH, before); Safe(s, k) && NoneDelivers(s, calls, k) && RestartsSurvive(s, calls, k)
    ensures Safe(After(After(FRESH, before), calls), k)
  {
    TablesAndMemory(before);
    SafeThroughoutIff(After(FRESH, before), calls, k);
    EndsSafe(After(FRESH, before), calls, k);
  }

  lemma {:induction false} EndsSafe(s: State, calls: seq<Call>, k: Key)
    requires SafeThroughout(s, calls, k)
    ensures Safe(After(s, calls), k)
    decreases calls
  {
    if calls != [] { EndsSafe(Step(s, calls[0].op, calls[0].failAt).0, calls[1..], k); }
  }
}
