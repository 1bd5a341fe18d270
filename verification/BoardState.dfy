/** The QA board as tables: every store method as a function of the tables, and what holds in every
    reachable state. Ids come from the caller and are fresh where a lemma says so; SQL errors are
    left out. */
module BoardState {
  import Strings
  import opened Wrappers

  datatype Error = ErrNotFound | ErrSelfLike | ErrInvalidAudience | ErrInvalidState

  datatype Role = RoleParticipant | RoleAdmin

  const ADMIN := "admin"
  const ALL := "all"
  const VISIBLE := "visible"
  const HIDDEN := "hidden"
  const DELETED := "deleted"

  datatype ThreadRow = ThreadRow(
    author: string, audience: string, subject: string, created: string, pinned: bool, answered: bool, state: string)
  datatype MessageRow = MessageRow(
    id: string, thread: string, role: Role, author: string, body: string, created: string, state: string)
  datatype Like = Like(thread: string, user: string)

  /** Messages are in rowid order. */
  datatype Db = Db(threads: map<string, ThreadRow>, messages: seq<MessageRow>, likes: set<Like>)

  const EMPTY := Db(map[], [], {})

  datatype Message = Message(id: string, role: Role, author: string, body: string, created: string, state: string)
  datatype Thread = Thread(
    id: string, author: string, audience: string, subject: string, created: string, pinned: bool, answered: bool,
    state: string, messages: seq<Message>, likeCount: nat, liked: bool)
  datatype Summary = Summary(
    id: string, author: string, audience: string, subject: string, created: string, updated: string, pinned: bool,
    answered: bool, state: string, messageCount: nat, likeCount: nat, liked: bool)

  predicate IsAudience(a: string) { a == ADMIN || a == ALL }
  predicate IsState(st: string) { st == VISIBLE || st == HIDDEN || st == DELETED }

  // ---- reading ---------------------------------------------------------------

  function MessagesOf(ms: seq<MessageRow>, tid: string): seq<MessageRow> {
    if ms == [] then [] else (if ms[0].thread == tid then [ms[0]] else []) + MessagesOf(ms[1..], tid)
  }

  /** A deleted message keeps its row and loses its body in every answer; participants get the
      visible messages only. */
  function Shown(ms: seq<MessageRow>, isAdmin: bool): seq<Message> {
    if ms == [] then []
    else
      (if isAdmin || ms[0].state == VISIBLE
       then [Message(ms[0].id, ms[0].role, ms[0].author,
                     if ms[0].state == DELETED then "" else ms[0].body, ms[0].created, ms[0].state)]
       else [])
      + Shown(ms[1..], isAdmin)
  }

  function LikesOf(likes: set<Like>, tid: string): set<string> {
    set l | l in likes && l.thread == tid :: l.user
  }

  function VisibleToParticipant(t: ThreadRow, viewer: string): bool {
    t.state == VISIBLE && (t.audience == ALL || (t.audience == ADMIN && t.author == viewer))
  }

  /** loadThreadLocked followed by likeStatusLocked. */
  function Load(s: Db, tid: string, isAdmin: bool, viewer: string): Thread
    requires tid in s.threads
  {
    var t := s.threads[tid];
    Thread(tid, t.author, t.audience, t.subject, t.created, t.pinned, t.answered, t.state,
           Shown(MessagesOf(s.messages, tid), isAdmin),
           |LikesOf(s.likes, tid)|, viewer != "" && viewer in LikesOf(s.likes, tid))
  }

  function ReadThread(s: Db, viewer: string, isAdmin: bool, tid: string): Result<Thread, Error> {
    if tid !in s.threads then Err(ErrNotFound)
    else if !isAdmin && !VisibleToParticipant(s.threads[tid], viewer) then Err(ErrNotFound)
    else Ok(Load(s, tid, isAdmin, viewer))
  }

  function Latest(a: string, b: string): string { if Strings.Le(a, b) then b else a }

  /** MAX(m.created_at) over the messages, or the given text where there are none. */
  function Updated(ms: seq<MessageRow>, created: string): string {
    if ms == [] then created
    else if |ms| == 1 then ms[0].created
    else Latest(ms[0].created, Updated(ms[1..], created))
  }

  function Ids(ms: seq<MessageRow>): set<string> { set m | m in ms :: m.id }

  /** The row of the listing query; `liked` compares with the viewer even where it is empty. */
  function SummaryOf(s: Db, tid: string, viewer: string): Summary
    requires tid in s.threads
  {
    var t, ms := s.threads[tid], MessagesOf(s.messages, tid);
    Summary(tid, t.author, t.audience, t.subject, t.created, Updated(ms, t.created), t.pinned, t.answered, t.state,
            |Ids(ms)|, |LikesOf(s.likes, tid)|, viewer in LikesOf(s.likes, tid))
  }

  predicate Listed(t: ThreadRow, viewer: string, isAdmin: bool) {
    isAdmin || (t.state == VISIBLE && (t.audience == ALL || (t.audience == ADMIN && t.author == viewer)))
  }

  function Listing(s: Db, viewer: string, isAdmin: bool): set<Summary> {
    set tid | tid in s.threads && Listed(s.threads[tid], viewer, isAdmin) :: SummaryOf(s, tid, viewer)
  }

  /** ORDER BY pinned DESC, updated_at DESC; ties in any order. */
  predicate NotAfter(a: Summary, b: Summary) {
    (a.pinned && !b.pinned) || (a.pinned == b.pinned && Strings.Le(b.updated, a.updated))
  }

  ghost predicate InOrder(out: seq<Summary>) { forall i, j | 0 <= i < j < |out| :: NotAfter(out[i], out[j]) }

  /** A possible answer: every row once, in order. */
  ghost predicate IsListing(out: seq<Summary>, rows: set<Summary>) {
    InOrder(out) && Strings.Distinct(out) && forall r :: r in out <==> r in rows
  }

  // ---- writing ---------------------------------------------------------------

  datatype Act =
    | CreateThread(audience: string, subject: string, body: string, at: string, tid: string, mid: string)
    | ListThreads
    | GetThread(tid: string)
    | AppendOwnMessage(tid: string, body: string, at: string, mid: string)
    | LikeThread(tid: string)
    | Unlike(tid: string)

  datatype Op =
    | Participant(user: string, act: Act)
    | AdminReply(admin: string, tid: string, body: string, at: string, mid: string)
    | SetThreadState(tid: string, pinned: Option<bool>, answered: Option<bool>, state: Option<string>)
    | SetMessageState(mid: string, to: string)

  datatype Answer =
    | Done
    | Id(tid: string)
    | Shows(thread: Thread)
    | Lists(rows: set<Summary>)
    | Refused(error: Error)

  function Create(s: Db, author: string, audience: string, subject: string, body: string, at: string, tid: string,
                  mid: string)
    : (Db, Answer)
  {
    if !IsAudience(audience) then (s, Refused(ErrInvalidAudience))
    else
      (Db(s.threads[tid := ThreadRow(author, audience, subject, at, false, false, VISIBLE)],
          s.messages + [MessageRow(mid, tid, RoleParticipant, author, body, at, VISIBLE)],
          s.likes), Id(tid))
  }

  function AppendOwn(s: Db, author: string, tid: string, body: string, at: string, mid: string): (Db, Answer) {
    if tid !in s.threads || s.threads[tid].author != author then (s, Refused(ErrNotFound))
    else
      var t := s.(messages := s.messages + [MessageRow(mid, tid, RoleParticipant, author, body, at, VISIBLE)]);
      (t, Shows(Load(t, tid, false, author)))
  }

  function AddLike(s: Db, user: string, tid: string): (Db, Answer) {
    if tid !in s.threads || s.threads[tid].audience != ALL || s.threads[tid].state != VISIBLE then
      (s, Refused(ErrNotFound))
    else if s.threads[tid].author == user then (s, Refused(ErrSelfLike))
    else (s.(likes := s.likes + {Like(tid, user)}), Done)
  }

  function Do(s: Db, user: string, act: Act): (Db, Answer) {
    match act
    case CreateThread(audience, subject, body, at, tid, mid) => Create(s, user, audience, subject, body, at, tid, mid)
    case ListThreads => (s, Lists(Listing(s, user, false)))
    case GetThread(tid) => (s, match ReadThread(s, user, false, tid) case Ok(t) => Shows(t) case Err(e) => Refused(e))
    case AppendOwnMessage(tid, body, at, mid) => AppendOwn(s, user, tid, body, at, mid)
    case LikeThread(tid) => AddLike(s, user, tid)
    case Unlike(tid) => (s.(likes := s.likes - {Like(tid, user)}), Done)
  }

  function Reply(s: Db, admin: string, tid: string, body: string, at: string, mid: string): (Db, Answer) {
    if tid !in s.threads then (s, Refused(ErrNotFound))
    else
      var t := s.(messages := s.messages + [MessageRow(mid, tid, RoleAdmin, admin, body, at, VISIBLE)],
                  threads := s.threads[tid := s.threads[tid].(answered := true)]);
      (t, Shows(Load(t, tid, true, admin)))
  }

  function Or<T>(o: Option<T>, d: T): T { if o.Some? then o.value else d }

  function SetThread(s: Db, tid: string, pinned: Option<bool>, answered: Option<bool>, state: Option<string>)
    : (Db, Answer)
  {
    if state.Some? && !IsState(state.value) then (s, Refused(ErrInvalidState))
    else if tid !in s.threads then (s, Refused(ErrNotFound))
    else
      var t := s.threads[tid];
      var changed :=
        t.(pinned := Or(pinned, t.pinned), answered := Or(answered, t.answered), state := Or(state, t.state));
      (s.(threads := s.threads[tid := changed]), Done)
  }

  function Restate(ms: seq<MessageRow>, mid: string, state: string): (r: seq<MessageRow>)
    ensures |r| == |ms|
    ensures forall i | 0 <= i < |ms| :: r[i] == if ms[i].id == mid then ms[i].(state := state) else ms[i]
  {
    if ms == [] then [] else [if ms[0].id == mid then ms[0].(state := state) else ms[0]] + Restate(ms[1..], mid, state)
  }

  function SetMessage(s: Db, mid: string, state: string): (Db, Answer) {
    if !IsState(state) then (s, Refused(ErrInvalidState))
    else if mid !in Ids(s.messages) then (s, Refused(ErrNotFound))
    else (s.(messages := Restate(s.messages, mid, state)), Done)
  }

  function Step(s: Db, op: Op): (Db, Answer) {
    match op
    case Participant(user, act) => Do(s, user, act)
    case AdminReply(admin, tid, body, at, mid) => Reply(s, admin, tid, body, at, mid)
    case SetThreadState(tid, pinned, answered, state) => SetThread(s, tid, pinned, answered, state)
    case SetMessageState(mid, to) => SetMessage(s, mid, to)
  }

  /** The ids an act would insert are new. */
  predicate FreshIds(s: Db, act: Act) {
    && (act.CreateThread? ==> act.tid !in s.threads && act.mid !in Ids(s.messages))
    && (act.AppendOwnMessage? ==> act.mid !in Ids(s.messages))
  }

  predicate FreshOp(s: Db, op: Op) {
    && (op.Participant? ==> FreshIds(s, op.act))
    && (op.AdminReply? ==> op.mid !in Ids(s.messages))
  }

  function After(s: Db, ops: seq<Op>): Db
    decreases ops
  {
    if ops == [] then s else After(Step(s, ops[0]).0, ops[1..])
  }

  predicate FreshRun(s: Db, ops: seq<Op>)
    decreases ops
  {
    ops == [] || (FreshOp(s, ops[0]) && FreshRun(Step(s, ops[0]).0, ops[1..]))
  }
}
