/** The scoring store as a step machine: the SQLite tables, the in-memory mirrors, and every
    method as one step in which a chosen SQL statement may fail. A statement or a commit takes
    effect fully or not at all; `failAt` numbers the statements of a call from 1, 0 is no failure.
    Columns no method reads back (the times other than a solve's) are not kept. */
module StoreState {
  import opened Wrappers

  datatype Key = Key(user: string, challenge: string)
  datatype Receipt = Receipt(user: string, challenge: string, flag: string)
  datatype Fire = Fire(rule: string, at: real)

  datatype Db = Db(
    solved: map<Key, string>,
    exfil: map<Key, string>,
    hints: set<(Key, int)>,
    steps: set<(Key, int)>,
    dirty: set<(Key, string)>,
    expected: set<(Key, string)>,
    names: map<string, string>,
    avatars: map<string, string>)

  datatype Mem = Mem(
    solved: map<Key, string>,
    exfil: map<Key, string>,
    hints: set<(Key, int)>,
    steps: set<(Key, int)>,
    dirty: map<Key, set<string>>,
    expected: map<Key, set<string>>,
    names: map<string, string>,
    avatars: map<string, string>,
    events: map<string, nat>,
    fires: map<string, seq<Fire>>)

  datatype State = State(db: Db, mem: Mem)

  const RETENTION := 300.0

  // ---- rows and sets --------------------------------------------------------

  function AddRule(m: map<Key, set<string>>, k: Key, rule: string): map<Key, set<string>> {
    m[k := (if k in m then m[k] else {}) + {rule}]
  }

  /** An empty set is made first where the key is new. */
  lemma AddedToSet(before: map<Key, set<string>>, after: map<Key, set<string>>, k: Key, rule: string)
    requires var made := if k !in before then before[k := {}] else before; after == made[k := made[k] + {rule}]
    ensures after == AddRule(before, k, rule)
  {
  }

  function RulesOf(m: map<Key, set<string>>, k: Key): set<string> { if k in m then m[k] else {} }

  function RowRules(rows: set<(Key, string)>, k: Key): set<string> {
    set r | r in rows && r.0 == k :: r.1
  }

  /** The map of sets that loadFromDB rebuilds from (user, challenge, rule) rows. */
  function Grouped(rows: set<(Key, string)>): map<Key, set<string>> {
    var keys := set r | r in rows :: r.0;
    map k | k in keys :: RowRules(rows, k)
  }

  /** `loadFromDB` into a new store. */
  function Load(db: Db): Mem {
    Mem(db.solved, db.exfil, db.hints, db.steps, Grouped(db.dirty), Grouped(db.expected), db.names, db.avatars,
        map[], map[])
  }

  const EMPTY_DB := Db(map[], map[], {}, {}, {}, {}, map[], map[])
  const FRESH := State(EMPTY_DB, Load(EMPTY_DB))

  function Recent(fires: seq<Fire>, cutoff: real): seq<Fire> {
    if fires == [] then []
    else (if fires[0].at >= cutoff then [fires[0]] else []) + Recent(fires[1..], cutoff)
  }

  function FiresOf(m: Mem, user: string): seq<Fire> { if user in m.fires then m.fires[user] else [] }

  // ---- the steps ------------------------------------------------------------

  datatype Op =
    | MarkSolved(k: Key, at: string)
    | RecordExfil(k: Key, flag: string)
    | RecordHintView(k: Key, idx: int)
    | SetStepCheck(k: Key, idx: int, checked: bool)
    | SetDisplayName(user: string, name: string)
    | SetProfile(user: string, newName: Option<string>, newAvatar: Option<string>)
    | ResetProfile(user: string)
    | RecordRuleFire(user: string, rule: string, time: real)
    | MarkDirty(k: Key, rule: string)
    | RecordExpectedRuleFire(k: Key, rule: string)
    | ResetDirty(k: Key)
    | Reset
    | Restart
    | Ask(query: Query)

  datatype Query =
    | IsSolved(k: Key)
    | HasExfil(k: Key, flag: string)
    | HasExfilAny(k: Key)
    | PendingExfilSolves
    | DirtyRules(k: Key)
    | HasExpectedRuleFire(k: Key)
    | HintViews(user: string)
    | StepChecks(user: string)
    | DisplayName(user: string)
    | Avatar(user: string)

  datatype Answer =
    | Done
    | Failed
    | Flag(b: bool)
    | Count(n: nat)
    | Text(s: string)
    | Rules(rules: set<string>)
    | Receipts(receipts: set<Receipt>)
    | Marks(marks: set<(string, int)>)

  function Pending(m: Mem): set<Receipt> {
    set k | k in m.exfil && k !in m.solved :: Receipt(k.user, k.challenge, m.exfil[k])
  }

  function MarksOf(marks: set<(Key, int)>, user: string): set<(string, int)> {
    set x | x in marks && x.0.user == user :: (x.0.challenge, x.1)
  }

  function Respond(m: Mem, q: Query): Answer {
    match q
    case IsSolved(k) => Flag(k in m.solved)
    case HasExfil(k, flag) => Flag(k in m.exfil && m.exfil[k] == flag)
    case HasExfilAny(k) => Flag(k in m.exfil)
    case PendingExfilSolves => Receipts(Pending(m))
    case DirtyRules(k) => Rules(RulesOf(m.dirty, k))
    case HasExpectedRuleFire(k) => Flag(RulesOf(m.expected, k) != {})
    case HintViews(user) => Marks(MarksOf(m.hints, user))
    case StepChecks(user) => Marks(MarksOf(m.steps, user))
    case DisplayName(user) => Text(if user in m.names && m.names[user] != "" then m.names[user] else user)
    case Avatar(user) => Text(if user in m.avatars then m.avatars[user] else "")
  }

  /** The tables after the first n statements of a full reset. */
  function ResetTables(db: Db, n: nat): Db {
    db.(solved := if n >= 1 then map[] else db.solved,
        exfil := if n >= 2 then map[] else db.exfil,
        hints := if n >= 3 then {} else db.hints,
        steps := if n >= 4 then {} else db.steps,
        dirty := if n >= 5 then {} else db.dirty,
        expected := if n >= 6 then {} else db.expected)
  }

  function Written(o: Option<string>): nat { if o.Some? then 1 else 0 }

  function Put(m: map<string, string>, user: string, o: Option<string>): map<string, string> {
    if o.Some? then m[user := o.value] else m
  }

  function MarkSolvedStep(s: State, k: Key, at: string, failAt: nat): (State, Answer) {
    if k in s.mem.solved then (s, Flag(false))
    else if failAt == 1 then (s, Failed)
    else
      var rows := if k in s.db.solved then s.db.solved else s.db.solved[k := at];
      (State(s.db.(solved := rows), s.mem.(solved := s.mem.solved[k := at])), Flag(true))
  }

  function RecordExfilStep(s: State, k: Key, flag: string, failAt: nat): (State, Answer) {
    if failAt == 1 then (s, Failed)
    else (State(s.db.(exfil := s.db.exfil[k := flag]), s.mem.(exfil := s.mem.exfil[k := flag])), Done)
  }

  function RecordHintViewStep(s: State, x: (Key, int), failAt: nat): (State, Answer) {
    if x in s.mem.hints then (s, Flag(false))
    else if failAt == 1 then (s, Failed)
    else (State(s.db.(hints := s.db.hints + {x}), s.mem.(hints := s.mem.hints + {x})), Flag(true))
  }

  function SetStepCheckStep(s: State, x: (Key, int), checked: bool, failAt: nat): (State, Answer) {
    if failAt == 1 then (s, Failed)
    else if checked then (State(s.db.(steps := s.db.steps + {x}), s.mem.(steps := s.mem.steps + {x})), Done)
    else (State(s.db.(steps := s.db.steps - {x}), s.mem.(steps := s.mem.steps - {x})), Done)
  }

  function SetDisplayNameStep(s: State, user: string, name: string, failAt: nat): (State, Answer) {
    if failAt == 1 then (s, Failed)
    else (State(s.db.(names := s.db.names[user := name]), s.mem.(names := s.mem.names[user := name])), Done)
  }

  /** Both tables in one transaction: begin, one statement per field given, commit. */
  function SetProfileStep(s: State, user: string, name: Option<string>, avatar: Option<string>, failAt: nat)
    : (State, Answer)
  {
    if name.None? && avatar.None? then (s, Done)
    else if 1 <= failAt <= 2 + Written(name) + Written(avatar) then (s, Failed)
    else (State(s.db.(names := Put(s.db.names, user, name), avatars := Put(s.db.avatars, user, avatar)),
                s.mem.(names := Put(s.mem.names, user, name), avatars := Put(s.mem.avatars, user, avatar))), Done)
  }

  function ResetProfileStep(s: State, user: string, failAt: nat): (State, Answer) {
    if 1 <= failAt <= 4 then (s, Failed)
    else (State(s.db.(names := s.db.names - {user}, avatars := s.db.avatars - {user}),
                s.mem.(names := s.mem.names - {user}, avatars := s.mem.avatars - {user})), Done)
  }

  function RecordRuleFireStep(s: State, user: string, rule: string, time: real): (State, Answer) {
    var n := (if user in s.mem.events then s.mem.events[user] else 0) + 1;
    var kept := Recent(FiresOf(s.mem, user) + [Fire(rule, time)], time - RETENTION);
    (State(s.db, s.mem.(events := s.mem.events[user := n], fires := s.mem.fires[user := kept])), Count(n))
  }

  /** Memory first: a failed statement leaves the taint in memory only. */
  function MarkDirtyStep(s: State, k: Key, rule: string, failAt: nat): (State, Answer) {
    var mem := s.mem.(dirty := AddRule(s.mem.dirty, k, rule));
    if failAt == 1 then (State(s.db, mem), Failed)
    else (State(s.db.(dirty := s.db.dirty + {(k, rule)}), mem), Done)
  }

  function RecordExpectedStep(s: State, k: Key, rule: string, failAt: nat): (State, Answer) {
    var mem := s.mem.(expected := AddRule(s.mem.expected, k, rule));
    if failAt == 1 then (State(s.db, mem), Failed)
    else (State(s.db.(expected := s.db.expected + {(k, rule)}), mem), Done)
  }

  /** Begin, two deletes, commit; memory only after the commit. */
  function ResetDirtyStep(s: State, k: Key, failAt: nat): (State, Answer) {
    if 1 <= failAt <= 4 then (s, Failed)
    else (State(s.db.(dirty := (set r | r in s.db.dirty && r.0 != k), exfil := s.db.exfil - {k}),
                s.mem.(dirty := s.mem.dirty - {k}, exfil := s.mem.exfil - {k})), Done)
  }

  /** Six statements outside a transaction: a failure leaves the earlier tables empty. */
  function ResetStep(s: State, failAt: nat): (State, Answer) {
    if 1 <= failAt <= 6 then (State(ResetTables(s.db, failAt - 1), s.mem), Failed)
    else (State(ResetTables(s.db, 6), Wiped(s.mem)), Count(|s.mem.solved|))
  }

  function Wiped(m: Mem): Mem {
    Mem(map[], map[], {}, {}, map[], map[], m.names, m.avatars, map[], map[])
  }

  function Step(s: State, op: Op, failAt: nat): (State, Answer) {
    match op
    case MarkSolved(k, at) => MarkSolvedStep(s, k, at, failAt)
    case RecordExfil(k, flag) => RecordExfilStep(s, k, flag, failAt)
    case RecordHintView(k, idx) => RecordHintViewStep(s, (k, idx), failAt)
    case SetStepCheck(k, idx, checked) => SetStepCheckStep(s, (k, idx), checked, failAt)
    case SetDisplayName(user, name) => SetDisplayNameStep(s, user, name, failAt)
    case SetProfile(user, name, avatar) => SetProfileStep(s, user, name, avatar, failAt)
    case ResetProfile(user) => ResetProfileStep(s, user, failAt)
    case RecordRuleFire(user, rule, time) => RecordRuleFireStep(s, user, rule, time)
    case MarkDirty(k, rule) => MarkDirtyStep(s, k, rule, failAt)
    case RecordExpectedRuleFire(k, rule) => RecordExpectedStep(s, k, rule, failAt)
    case ResetDirty(k) => ResetDirtyStep(s, k, failAt)
    case Reset => ResetStep(s, failAt)
    case Restart => (State(s.db, Load(s.db)), Done)
    case Ask(q) => (s, Respond(s.mem, q))
  }

  datatype Call = Call(op: Op, failAt: nat)

  function After(s: State, calls: seq<Call>): State
    decreases calls
  {
    if calls == [] then s else After(Step(s, calls[0].op, calls[0].failAt).0, calls[1..])
  }

  /** The answers that do not come from the in-memory-only counters. */
  predicate Observed(op: Op) { !op.RecordRuleFire? && !op.Restart? }

  function Answers(s: State, calls: seq<Call>): seq<Answer>
    decreases calls
  {
    if calls == [] then []
    else
      var (t, a) := Step(s, calls[0].op, calls[0].failAt);
      (if Observed(calls[0].op) then [a] else []) + Answers(t, calls[1..])
  }

  function WithoutRestarts(calls: seq<Call>): seq<Call> {
    if calls == [] then []
    else (if calls[0].op.Restart? then [] else [calls[0]]) + WithoutRestarts(calls[1..])
  }

  /** No call of the run returned an error. */
  predicate ErrorFree(s: State, calls: seq<Call>)
    decreases calls
  {
    calls == [] || (var (t, a) := Step(s, calls[0].op, calls[0].failAt); !a.Failed? && ErrorFree(t, calls[1..]))
  }
}
