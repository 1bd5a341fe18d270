/** The `Store` object: the tables as one field, a mirror map per table, and the counters. Every
    method is one step of StoreState, named in its contract; `failAt` picks the SQL statement that fails, 0 is none. */
module Store {
  import opened StoreState
  import opened StoreFires
  import opened StoreRuns
  import Strings
  import opened Wrappers

  class Store {
    var db: Db
    var solved: map<Key, string>
    var exfil: map<Key, string>
    var hintViews: set<(Key, int)>
    var stepChecks: set<(Key, int)>
    var dirtyRules: map<Key, set<string>>
    var expectedRuleFire: map<Key, set<string>>
    var displayNames: map<string, string>
    var avatars: map<string, string>
    var log: FireLog

    ghost predicate Valid()
      reads this, log, log.Buffers()
    {
      log.Valid()
    }

    ghost function Memory(): Mem
      reads this, log, log.Buffers()
      requires Valid()
    {
      Mem(solved, exfil, hintViews, stepChecks, dirtyRules, expectedRuleFire, displayNames, avatars,
          log.events, log.Fires())
    }

    ghost function Abs(): State
      reads this, log, log.Buffers()
      requires Valid()
    {
      State(db, Memory())
    }

    /** `Open` on an existing database: new maps, filled by loadFromDB. */
    constructor (rows: Db)
      ensures Valid() && fresh(log) && fresh(log.Buffers()) && Abs() == State(rows, Load(rows))
    {
      var solves := LoadMap(rows.solved);
      var receipts := LoadMap(rows.exfil);
      var names := LoadMap(rows.names);
      var pictures := LoadMap(rows.avatars);
      var taint := LoadRules(rows.dirty);
      var expected := LoadRules(rows.expected);
      db := rows;
      hintViews, stepChecks := rows.hints, rows.steps;
      solved, exfil, displayNames, avatars := solves, receipts, names, pictures;
      dirtyRules, expectedRuleFire := taint, expected;
      log := new FireLog();
      new;
      assert Memory() == Load(rows);
    }

    method MarkSolved(k: Key, at: string, failAt: nat) returns (r: Answer)
      requires Valid()
      modifies this
      ensures Valid() && log == old(log)
      ensures (Abs(), r) == MarkSolvedStep(old(Abs()), k, at, failAt)
    {
      if k in solved {
        return Flag(false);
      }
      if failAt == 1 {
        return Failed;
      }
      if k !in db.solved {
        db := db.(solved := db.solved[k := at]);
      }
      solved := solved[k := at];
      assert log.Fires() == old(log.Fires());
      return Flag(true);
    }

    method RecordExfil(k: Key, flag: string, failAt: nat) returns (r: Answer)
      requires Valid()
      modifies this
      ensures Valid() && log == old(log)
      ensures (Abs(), r) == RecordExfilStep(old(Abs()), k, flag, failAt)
    {
      if failAt == 1 {
        return Failed;
      }
      db := db.(exfil := db.exfil[k := flag]);
      exfil := exfil[k := flag];
      assert log.Fires() == old(log.Fires());
      return Done;
    }

    method RecordHintView(k: Key, idx: int, failAt: nat) returns (r: Answer)
      requires Valid()
      modifies this
      ensures Valid() && log == old(log)
      ensures (Abs(), r) == RecordHintViewStep(old(Abs()), (k, idx), failAt)
    {
      if (k, idx) in hintViews {
        return Flag(false);
      }
      if failAt == 1 {
        return Failed;
      }
      db := db.(hints := db.hints + {(k, idx)});
      hintViews := hintViews + {(k, idx)};
      assert log.Fires() == old(log.Fires());
      return Flag(true);
    }

    method SetStepCheck(k: Key, idx: int, checked: bool, failAt: nat) returns (r: Answer)
      requires Valid()
      modifies this
      ensures Valid() && log == old(log)
      ensures (Abs(), r) == SetStepCheckStep(old(Abs()), (k, idx), checked, failAt)
    {
      if failAt == 1 {
        return Failed;
      }
      if checked {
        db := db.(steps := db.steps + {(k, idx)});
        stepChecks := stepChecks + {(k, idx)};
      } else {
        db := db.(steps := db.steps - {(k, idx)});
        stepChecks := stepChecks - {(k, idx)};
      }
      assert log.Fires() == old(log.Fires());
      return Done;
    }

    method SetDisplayName(user: string, name: string, failAt: nat) returns (r: Answer)
      requires Valid()
      modifies this
      ensures Valid() && log == old(log)
      ensures (Abs(), r) == SetDisplayNameStep(old(Abs()), user, name, failAt)
    {
      if failAt == 1 {
        return Failed;
      }
      db := db.(names := db.names[user := name]);
      displayNames := displayNames[user := name];
      assert log.Fires() == old(log.Fires());
      return Done;
    }

    method SetProfile(user: string, name: Option<string>, avatar: Option<string>, failAt: nat) returns (r: Answer)
      requires Valid()
      modifies this
      ensures Valid() && log == old(log)
      ensures (Abs(), r) == SetProfileStep(old(Abs()), user, name, avatar, failAt)
    {
      if name.None? && avatar.None? {
        return Done;
      }
      // the transaction works on a copy of the tables until its commit
      var tx, statement := db, 1;
      if failAt == statement {
        return Failed;
      }
      if name.Some? {
        statement := statement + 1;
        if failAt == statement {
          return Failed;
        }
        tx := tx.(names := tx.names[user := name.value]);
      }
      if avatar.Some? {
        statement := statement + 1;
        if failAt == statement {
          return Failed;
        }
        tx := tx.(avatars := tx.avatars[user := avatar.value]);
      }
      if failAt == statement + 1 {
        return Failed;
      }
      db := tx;
      if name.Some? {
        displayNames := displayNames[user := name.value];
      }
      if avatar.Some? {
        avatars := avatars[user := avatar.value];
      }
      assert log.Fires() == old(log.Fires());
      return Done;
    }

    method ResetProfile(user: string, failAt: nat) returns (r: Answer)
      requires Valid()
      modifies this
      ensures Valid() && log == old(log)
      ensures (Abs(), r) == ResetProfileStep(old(Abs()), user, failAt)
    {
      if failAt == 1 {
        return Failed;
      }
      var tx := db;
      if failAt == 2 {
        return Failed;
      }
      tx := tx.(names := tx.names - {user});
      if failAt == 3 {
        return Failed;
      }
      tx := tx.(avatars := tx.avatars - {user});
      if failAt == 4 {
        return Failed;
      }
      db := tx;
      displayNames := displayNames - {user};
      avatars := avatars - {user};
      assert log.Fires() == old(log.Fires());
      return Done;
    }

    method RecordRuleFire(user: string, rule: string, at: real) returns (r: Answer)
      requires Valid()
      modifies log, log.Buffers()
      ensures Valid() && fresh(log.Buffers() - old(log.Buffers()))
      ensures (Abs(), r) == RecordRuleFireStep(old(Abs()), user, rule, at)
    {
      var n := log.RecordRuleFire(user, rule, at);
      return Count(n);
    }

    method MarkDirty(k: Key, rule: string, failAt: nat) returns (r: Answer)
      requires Valid()
      modifies this
      ensures Valid() && log == old(log)
      ensures (Abs(), r) == MarkDirtyStep(old(Abs()), k, rule, failAt)
    {
      if k !in dirtyRules {
        dirtyRules := dirtyRules[k := {}];
      }
      dirtyRules := dirtyRules[k := dirtyRules[k] + {rule}];
      AddedToSet(old(dirtyRules), dirtyRules, k, rule);
      assert log.Fires() == old(log.Fires());
      assert Memory() == old(Memory()).(dirty := AddRule(old(dirtyRules), k, rule));
      if failAt == 1 {
        return Failed;
      }
      db := db.(dirty := db.dirty + {(k, rule)});
      assert log.Fires() == old(log.Fires());
      return Done;
    }

    method RecordExpectedRuleFire(k: Key, rule: string, failAt: nat) returns (r: Answer)
      requires Valid()
      modifies this
      ensures Valid() && log == old(log)
      ensures (Abs(), r) == RecordExpectedStep(old(Abs()), k, rule, failAt)
    {
      if k !in expectedRuleFire {
        expectedRuleFire := expectedRuleFire[k := {}];
      }
      expectedRuleFire := expectedRuleFire[k := expectedRuleFire[k] + {rule}];
      AddedToSet(old(expectedRuleFire), expectedRuleFire, k, rule);
      assert log.Fires() == old(log.Fires());
      assert Memory() == old(Memory()).(expected := AddRule(old(expectedRuleFire), k, rule));
      if failAt == 1 {
        return Failed;
      }
      db := db.(expected := db.expected + {(k, rule)});
      assert log.Fires() == old(log.Fires());
      return Done;
    }

    method ResetDirty(k: Key, failAt: nat) returns (r: Answer)
      requires Valid()
      modifies this
      ensures Valid() && log == old(log)
      ensures (Abs(), r) == ResetDirtyStep(old(Abs()), k, failAt)
    {
      if failAt == 1 {
        return Failed;
      }
      var tx := db;
      if failAt == 2 {
        return Failed;
      }
      tx := tx.(dirty := (set row | row in tx.dirty && row.0 != k));
      if failAt == 3 {
        return Failed;
      }
      tx := tx.(exfil := tx.exfil - {k});
      if failAt == 4 {
        return Failed;
      }
      db := tx;
      dirtyRules := dirtyRules - {k};
      exfil := exfil - {k};
      assert log.Fires() == old(log.Fires());
      return Done;
    }

    /** The six deletes of a full reset, outside a transaction. */
    method ClearTables(failAt: nat) returns (ok: bool)
      modifies this`db
      ensures ok == !(1 <= failAt <= 6)
      ensures db == ResetTables(old(db), if ok then 6 else failAt - 1)
    {
      if failAt == 1 {
        return false;
      }
      db := db.(solved := map[]);
      if failAt == 2 {
        return false;
      }
      db := db.(exfil := map[]);
      if failAt == 3 {
        return false;
      }
      db := db.(hints := {});
      if failAt == 4 {
        return false;
      }
      db := db.(steps := {});
      if failAt == 5 {
        return false;
      }
      db := db.(dirty := {});
      if failAt == 6 {
        return false;
      }
      db := db.(expected := {});
      return true;
    }

    /** New maps for everything but the profiles. */
    method WipeMemory()
      requires Valid()
      modifies this
      ensures Valid() && db == old(db)
      ensures fresh(log) && log.Buffers() == {}
      ensures Memory() == Wiped(old(Memory()))
    {
      solved, exfil, hintViews, stepChecks := map[], map[], {}, {};
      dirtyRules, expectedRuleFire := map[], map[];
      log := new FireLog();
    }

    method Reset(failAt: nat) returns (r: Answer)
      requires Valid()
      modifies this
      ensures Valid() && (log == old(log) || (fresh(log) && log.Buffers() == {}))
      ensures (Abs(), r) == ResetStep(old(Abs()), failAt)
    {
      var ok := ClearTables(failAt);
      if !ok {
        assert log.Fires() == old(log.Fires());
        return Failed;
      }
      var cleared := |solved|;
      WipeMemory();
      return Count(cleared);
    }

    method IsSolved(k: Key) returns (b: bool)
      requires Valid()
      ensures Flag(b) == Respond(Memory(), Query.IsSolved(k))
    {
      b := k in solved;
    }

    method HasExfil(k: Key, flag: string) returns (b: bool)
      requires Valid()
      ensures Flag(b) == Respond(Memory(), Query.HasExfil(k, flag))
    {
      b := k in exfil && exfil[k] == flag;
    }

    method HasExfilAny(k: Key) returns (b: bool)
      requires Valid()
      ensures Flag(b) == Respond(Memory(), Query.HasExfilAny(k))
    {
      b := k in exfil;
    }

    method HasExpectedRuleFire(k: Key) returns (b: bool)
      requires Valid()
      ensures Flag(b) == Respond(Memory(), Query.HasExpectedRuleFire(k))
    {
      b := k in expectedRuleFire && |expectedRuleFire[k]| > 0;
    }

    method DisplayName(user: string) returns (name: string)
      requires Valid()
      ensures Text(name) == Respond(Memory(), Query.DisplayName(user))
    {
      name := if user in displayNames && displayNames[user] != "" then displayNames[user] else user;
    }

    method Avatar(user: string) returns (avatar: string)
      requires Valid()
      ensures Text(avatar) == Respond(Memory(), Query.Avatar(user))
    {
      avatar := if user in avatars then avatars[user] else "";
    }

    /** In a store that a run led to, the fires of the window are those of the whole history. */
    method RecentRuleFires(user: string, now: real, window: int) returns (out: seq<Fire>)
      requires Valid()
      ensures out == Recent(FiresOf(Memory(), user), now - window as real)
      ensures forall calls | Abs() == After(FRESH, calls) && window <= 300
                             && (forall f | f in History([], calls, user) :: f.at <= now) ::
                out == Recent(History([], calls, user), now - window as real)
    {
      out := log.RecentRuleFires(user, now, window);
      forall calls | Abs() == After(FRESH, calls) && window <= 300
                     && (forall f | f in History([], calls, user) :: f.at <= now)
        ensures out == Recent(History([], calls, user), now - window as real)
      {
        AnswersAreHistory(calls, Memory(), user, [], now, window);
      }
    }

    /** And so are the wanted rules among them. */
    method RecentFiresMatching(user: string, rules: seq<string>, now: real, window: int) returns (out: seq<string>)
      requires Valid()
      ensures IsMatching(out, Recent(FiresOf(Memory(), user), now - window as real), rules)
      ensures forall calls | Abs() == After(FRESH, calls) && window <= 300
                             && (forall f | f in History([], calls, user) :: f.at <= now) ::
                IsMatching(out, Recent(History([], calls, user), now - window as real), rules)
    {
      out := log.RecentFiresMatching(user, rules, now, window);
      forall calls | Abs() == After(FRESH, calls) && window <= 300
                     && (forall f | f in History([], calls, user) :: f.at <= now)
        ensures IsMatching(out, Recent(History([], calls, user), now - window as real), rules)
      {
        AnswersAreHistory(calls, Memory(), user, rules, now, window);
      }
    }

    /** The receipts of unsolved pairs, in the order the map yields them. */
    method CollectPending() returns (found: seq<Receipt>)
      ensures Strings.DistinctKeys(ReceiptKey, found)
      ensures forall r :: r in found <==>
                var k := Key(r.user, r.challenge); k in exfil && k !in solved && r.flag == exfil[k]
    {
      found := [];
      var left := exfil.Keys;
      while left != {}
        invariant left <= exfil.Keys
        invariant forall r | r in found :: Key(r.user, r.challenge) !in left
        invariant Strings.DistinctKeys(ReceiptKey, found)
        invariant forall r :: r in found <==>
                    var k := Key(r.user, r.challenge); k in exfil && k !in left && k !in solved && r.flag == exfil[k]
        decreases left
      {
        var k :| k in left;
        left := left - {k};
        if k !in solved {
          found := found + [Receipt(k.user, k.challenge, exfil[k])];
        }
      }
    }

    /** The receipts of unsolved pairs, in (user, challenge) order. */
    method PendingExfilSolves() returns (out: seq<Receipt>)
      requires Valid()
      ensures Strings.SortedBy(ReceiptKey, out) && Strings.DistinctKeys(ReceiptKey, out)
      ensures Respond(Memory(), Query.PendingExfilSolves) == Receipts(set r | r in out)
    {
      var found := CollectPending();
      out := Strings.Sort(ReceiptKey, found);
      Strings.SortKeepsDistinctKeys(ReceiptKey, found);
      PendingIs(Memory(), out);
    }

    /** The rules that taint a pair, sorted; empty means clean. */
    method DirtyRules(k: Key) returns (out: seq<string>)
      requires Valid()
      ensures Strings.SortedBy(Strings.TextKey, out) && Strings.Distinct(out)
      ensures Respond(Memory(), Query.DirtyRules(k)) == Rules(set r | r in out)
    {
      var found: seq<string> := [];
      var rules := if k in dirtyRules then dirtyRules[k] else {};
      var left := rules;
      while left != {}
        invariant left <= rules && Strings.Distinct(found)
        invariant forall r :: r in found <==> r in rules && r !in left
        decreases left
      {
        var rule :| rule in left;
        left := left - {rule};
        found := found + [rule];
      }
      out := Strings.Sort(Strings.TextKey, found);
      Strings.SortKeepsDistinct(Strings.TextKey, found);
      assert (set r | r in out) == rules;
    }
  }

  lemma PendingIs(m: Mem, out: seq<Receipt>)
    requires forall r :: r in out <==> var k := Key(r.user, r.challenge);
             k in m.exfil && k !in m.solved && r.flag == m.exfil[k]
    ensures (set r | r in out) == Pending(m)
  {
    forall r ensures r in out <==> r in Pending(m) {
      assert r in Pending(m) <==> var k := Key(r.user, r.challenge);
             k in m.exfil && k !in m.solved && r.flag == m.exfil[k];
    }
  }

  function ReceiptKey(r: Receipt): Strings.Key { Strings.Key(r.user, r.challenge) }
  /** The row loops of loadFromDB: rows come in any order. */
  method LoadMap<K, V>(rows: map<K, V>) returns (m: map<K, V>)
    ensures m == rows
  {
    m := map[];
    var left := rows.Keys;
    while left != {}
      invariant left <= rows.Keys && m.Keys == rows.Keys - left
      invariant forall k | k in m :: m[k] == rows[k]
      decreases left
    {
      var k :| k in left;
      m := m[k := rows[k]];
      left := left - {k};
    }
  }

  method LoadRules(rows: set<(Key, string)>) returns (m: map<Key, set<string>>)
    ensures m == Grouped(rows)
  {
    m := map[];
    var left := rows;
    while left != {}
      invariant left <= rows
      invariant m == Grouped(rows - left)
      decreases left
    {
      var row :| row in left;
      if row.0 !in m {
        m := m[row.0 := {}];
      }
      m := m[row.0 := m[row.0] + {row.1}];
      GroupedAdd(rows - left, row.0, row.1);
      assert rows - (left - {row}) == (rows - left) + {(row.0, row.1)};
      left := left - {row};
    }
    assert rows - {} == rows;
  }
}
