/** The in-memory rule fires: one slice per user, appended to and then filtered in place. The
    bounded list answers every recent question as the whole history would. */
module StoreFires {
  import opened StoreState
  import Strings

  // ---- the bounded list is a correct cache ----------------------------------

  lemma {:induction false} RecentAppend(a: seq<Fire>, f: Fire, cutoff: real)
    ensures Recent(a + [f], cutoff) == Recent(a, cutoff) + if f.at >= cutoff then [f] else []
  {
    if a == [] {
      assert [] + [f] == [f] && [f][1..] == [];
    } else {
      var b := a + [f];
      assert b[0] == a[0] && b[1..] == a[1..] + [f];
      RecentAppend(a[1..], f, cutoff);
      assert Recent(b, cutoff) == (if a[0].at >= cutoff then [a[0]] else []) + Recent(b[1..], cutoff);
    }
  }

  lemma {:induction false} RecentOfRecent(a: seq<Fire>, low: real, cutoff: real)
    requires low <= cutoff
    ensures Recent(Recent(a, low), cutoff) == Recent(a, cutoff)
  {
    if a != [] {
      RecentOfRecent(a[1..], low, cutoff);
      if a[0].at >= low {
        assert Recent(a, low) == [a[0]] + Recent(a[1..], low)
               && ([a[0]] + Recent(a[1..], low))[1..] == Recent(a[1..], low);
      } else {
        assert Recent(a, low) == Recent(a[1..], low);
      }
    }
  }

  /** The list kept after a history of fires. */
  function Kept(history: seq<Fire>): seq<Fire> {
    if history == [] then []
    else
      var last := history[|history| - 1];
      Recent(Kept(history[..|history| - 1]) + [last], last.at - RETENTION)
  }

  /** Any window of at most the retention time, asked at or after every fire, in arrival order,
      sees the list as it would see the history. Fires need not arrive in time order. */
  lemma {:induction false} KeptAnswersAsHistory(history: seq<Fire>, now: real, window: real)
    requires window <= RETENTION && forall f | f in history :: f.at <= now
    ensures Recent(Kept(history), now - window) == Recent(history, now - window)
  {
    if history != [] {
      var n := |history| - 1;
      var before, last := history[..n], history[n];
      assert history == before + [last] && last in history && forall f | f in before :: f in history;
      KeptAnswersAsHistory(before, now, window);
      KeptAppend(before, last);
      NextKept(Kept(before), before, last, last.at - RETENTION, now - window);
    }
  }

  lemma NextKept(kept: seq<Fire>, before: seq<Fire>, last: Fire, oldest: real, cutoff: real)
    requires oldest <= cutoff && Recent(kept, cutoff) == Recent(before, cutoff)
    ensures Recent(Recent(kept + [last], oldest), cutoff) == Recent(before + [last], cutoff)
  {
    RecentOfRecent(kept + [last], oldest, cutoff);
    RecentAppend(kept, last, cutoff);
    RecentAppend(before, last, cutoff);
  }

  /** A user's fires since the counters were last wiped, oldest first. */
  function History(past: seq<Fire>, calls: seq<Call>, user: string): seq<Fire>
    decreases calls
  {
    if calls == [] then past else History(Noted(past, calls[0], user), calls[1..], user)
  }

  lemma FiresUntouched(s: State, c: Call, user: string)
    requires !c.op.RecordRuleFire? && !c.op.Restart? && !(c.op.Reset? && !(1 <= c.failAt <= 6))
    ensures Step(s, c.op, c.failAt).0.mem.fires == s.mem.fires
  {
    match c.op {
      case MarkSolved(_, _) =>
      case RecordExfil(_, _) =>
      case RecordHintView(_, _) =>
      case SetStepCheck(_, _, _) =>
      case SetDisplayName(_, _) =>
      case SetProfile(_, _, _) =>
      case ResetProfile(_) =>
      case MarkDirty(_, _) =>
      case RecordExpectedRuleFire(_, _) =>
      case ResetDirty(_) =>
      case Reset =>
      case Ask(_) =>
    }
  }

  /** One call, as the history sees it. */
  function Noted(past: seq<Fire>, c: Call, user: string): seq<Fire> {
    if c.op.RecordRuleFire? && c.op.user == user then past + [Fire(c.op.rule, c.op.time)]
    else if c.op.Restart? || (c.op.Reset? && !(1 <= c.failAt <= 6)) then []
    else past
  }

  lemma KeptAppend(past: seq<Fire>, f: Fire)
    ensures Kept(past + [f]) == Recent(Kept(past) + [f], f.at - RETENTION)
  {
    assert (past + [f])[..|past|] == past && (past + [f])[|past|] == f;
  }

  lemma FireStep(s: State, user: string, rule: string, time: real, u: string)
    ensures FiresOf(RecordRuleFireStep(s, user, rule, time).0.mem, u)
            == if u == user then Recent(FiresOf(s.mem, u) + [Fire(rule, time)], time - RETENTION) else FiresOf(s.mem, u)
  {
  }

  lemma RecordKeepsTheCache(s: State, c: Call, user: string, past: seq<Fire>)
    requires c.op.RecordRuleFire? && FiresOf(s.mem, user) == Kept(past)
    ensures FiresOf(Step(s, c.op, c.failAt).0.mem, user) == Kept(Noted(past, c, user))
  {
    RecordIs(s, c, user);
    KeptOfRecord(past, c, user);
  }

  lemma RecordIs(s: State, c: Call, user: string)
    requires c.op.RecordRuleFire?
    ensures FiresOf(Step(s, c.op, c.failAt).0.mem, user) == Recorded(FiresOf(s.mem, user), c, user)
  {
    FireStep(s, c.op.user, c.op.rule, c.op.time, user);
  }

  lemma KeptOfRecord(past: seq<Fire>, c: Call, user: string)
    requires c.op.RecordRuleFire?
    ensures Kept(Noted(past, c, user)) == Recorded(Kept(past), c, user)
  {
    KeptAppend(past, Fire(c.op.rule, c.op.time));
  }

  /** A user's kept list after a fire, the user's own or another's. */
  function Recorded(kept: seq<Fire>, c: Call, user: string): seq<Fire>
    requires c.op.RecordRuleFire?
  {
    if c.op.user == user then Recent(kept + [Fire(c.op.rule, c.op.time)], c.op.time - RETENTION) else kept
  }

  lemma StepKeepsTheCache(s: State, c: Call, user: string, past: seq<Fire>)
    requires FiresOf(s.mem, user) == Kept(past)
    ensures FiresOf(Step(s, c.op, c.failAt).0.mem, user) == Kept(Noted(past, c, user))
  {
    if c.op.RecordRuleFire? {
      RecordKeepsTheCache(s, c, user, past);
    } else if !c.op.Restart? && !(c.op.Reset? && !(1 <= c.failAt <= 6)) {
      FiresUntouched(s, c, user);
      assert Noted(past, c, user) == past;
    } else {
      FiresWiped(s, c, user);
    }
  }

  lemma FiresWiped(s: State, c: Call, user: string)
    requires c.op.Restart? || (c.op.Reset? && !(1 <= c.failAt <= 6))
    ensures FiresOf(Step(s, c.op, c.failAt).0.mem, user) == []
  {
    assert Step(s, c.op, c.failAt).0.mem.fires == map[];
  }

  lemma {:induction false} RunsKeepTheCache(s: State, calls: seq<Call>, user: string, past: seq<Fire>)
    requires FiresOf(s.mem, user) == Kept(past)
    ensures FiresOf(After(s, calls).mem, user) == Kept(History(past, calls, user))
    decreases calls
  {
    if calls != [] {
      StepKeepsTheCache(s, calls[0], user, past);
      RunsKeepTheCache(Step(s, calls[0].op, calls[0].failAt).0, calls[1..], user, Noted(past, calls[0], user));
    }
  }

  /** After any run, whatever failed in it. */
  lemma CacheIsCorrect(calls: seq<Call>, user: string, now: real, window: real)
    requires window <= 300.0 && forall f | f in History([], calls, user) :: f.at <= now
    ensures Recent(FiresOf(After(FRESH, calls).mem, user), now - window)
            == Recent(History([], calls, user), now - window)
  {
    RunsKeepTheCache(FRESH, calls, user, []);
    KeptAnswersAsHistory(History([], calls, user), now, window);
  }

  /** The rules among `rules` that fired: sorted, each once. */
  ghost predicate IsMatching(out: seq<string>, fires: seq<Fire>, rules: seq<string>) {
    && Strings.SortedBy((r: string) => Strings.Key(r, ""), out) && Strings.Distinct(out)
    && forall r :: r in out <==> r in rules && exists f | f in fires :: f.rule == r
  }

  /** On a run: at the state `m` that the calls lead to, the two questions have the answers that the
      user's whole history since the last wipe would give. */
  lemma AnswersAreHistory(calls: seq<Call>, m: Mem, user: string, rules: seq<string>, now: real, window: int)
    requires m == After(FRESH, calls).mem
    requires window <= 300 && forall f | f in History([], calls, user) :: f.at <= now
    ensures var history := Recent(History([], calls, user), now - window as real);
            && Recent(FiresOf(m, user), now - window as real) == history
            && forall out :: IsMatching(out, Recent(FiresOf(m, user), now - window as real), rules)
                <==> IsMatching(out, history, rules)
  {
    CacheIsCorrect(calls, user, now, window as real);
  }

  // ---- the count ------------------------------------------------------------

  function Counted(m: Mem, user: string): nat { if user in m.events then m.events[user] else 0 }

  lemma EventsUntouched(s: State, c: Call)
    requires !c.op.RecordRuleFire? && !c.op.Restart? && !(c.op.Reset? && !(1 <= c.failAt <= 6))
    ensures Step(s, c.op, c.failAt).0.mem.events == s.mem.events
  {
    match c.op {
      case MarkSolved(_, _) =>
      case RecordExfil(_, _) =>
      case RecordHintView(_, _) =>
      case SetStepCheck(_, _, _) =>
      case SetDisplayName(_, _) =>
      case SetProfile(_, _, _) =>
      case ResetProfile(_) =>
      case MarkDirty(_, _) =>
      case RecordExpectedRuleFire(_, _) =>
      case ResetDirty(_) =>
      case Reset =>
      case Ask(_) =>
    }
  }

  lemma {:induction false} RunsKeepTheCount(s: State, calls: seq<Call>, user: string, past: seq<Fire>)
    requires Counted(s.mem, user) == |past|
    ensures Counted(After(s, calls).mem, user) == |History(past, calls, user)|
    decreases calls
  {
    if calls != [] {
      var c := calls[0];
      if !c.op.RecordRuleFire? && !c.op.Restart? && !(c.op.Reset? && !(1 <= c.failAt <= 6)) { EventsUntouched(s, c); }
      RunsKeepTheCount(Step(s, c.op, c.failAt).0, calls[1..], user, Noted(past, c, user));
    }
  }

  /** A fire is answered with the number of the user's fires since the last wipe, itself included,
      however many of them the bounded list has dropped. */
  lemma CountIsHistory(calls: seq<Call>, user: string, rule: string, time: real, failAt: nat)
    ensures Step(After(FRESH, calls), RecordRuleFire(user, rule, time), failAt).1
            == Count(|History([], calls, user)| + 1)
  {
    RunsKeepTheCount(FRESH, calls, user, []);
  }

  /** The list is bounded: nothing in it is more than 300 s older than the last fire. */
  lemma KeptIsBounded(history: seq<Fire>)
    requires history != []
    ensures forall f | f in Kept(history) :: f in history && f.at >= history[|history| - 1].at - 300.0
  {
    KeptIsInside(history);
    RecentIsFiltered(Kept(history[..|history| - 1]) + [history[|history| - 1]], history[|history| - 1].at - RETENTION);
  }

  lemma {:induction false} RecentIsFiltered(a: seq<Fire>, cutoff: real)
    ensures forall f :: f in Recent(a, cutoff) <==> f in a && f.at >= cutoff
  {
    if a != [] {
      RecentIsFiltered(a[1..], cutoff);
      assert forall f :: f in a <==> f == a[0] || f in a[1..];
    }
  }

  lemma {:induction false} KeptIsInside(history: seq<Fire>)
    ensures forall f | f in Kept(history) :: f in history
  {
    if history != [] {
      var n := |history| - 1;
      KeptIsInside(history[..n]);
      RecentIsFiltered(Kept(history[..n]) + [history[n]], history[n].at - RETENTION);
      assert forall f | f in history[..n] :: f in history;
    }
  }

  // ---- the slices -----------------------------------------------------------

  /** A Go slice: a backing array and the length in use. */
  datatype Slice = Slice(buf: array<Fire>, len: nat)

  /** The in-place filter `kept := fires[:0]`: what is kept moves to the front of its own array. */
  method FilterInPlace(buf: array<Fire>, n: nat, cutoff: real) returns (k: nat)
    requires n <= buf.Length
    modifies buf
    ensures k <= n && buf[..k] == Recent(old(buf[..n]), cutoff)
  {
    k := 0;
    ghost var was := buf[..n];
    for i := 0 to n
      invariant k <= i
      invariant buf[..k] == Recent(was[..i], cutoff)
      invariant forall j | i <= j < n :: buf[j] == was[j]
    {
      RecentAppend(was[..i], was[i], cutoff);
      assert was[..i + 1] == was[..i] + [was[i]];
      if buf[i].at >= cutoff {
        buf[k] := buf[i];
        k := k + 1;
        assert buf[..k] == Recent(was[..i], cutoff) + [was[i]];
      }
    }
    assert was[..n] == was;
  }

  function BuffersOf(lists: map<string, Slice>): set<array<Fire>> { set u | u in lists :: lists[u].buf }

  ghost predicate InBounds(lists: map<string, Slice>) { forall u | u in lists :: lists[u].len <= lists[u].buf.Length }

  ghost predicate Unshared(lists: map<string, Slice>) {
    forall u, v | u in lists && v in lists && u != v :: lists[u].buf != lists[v].buf
  }

  lemma UnsharedWith(lists: map<string, Slice>, user: string, s: Slice)
    requires Unshared(lists) && forall u | u in lists && u != user :: lists[u].buf != s.buf
    ensures Unshared(lists[user := s])
  {
  }

  /** What the slices hold. */
  ghost function Contents(lists: map<string, Slice>): map<string, seq<Fire>>
    reads BuffersOf(lists)
    requires InBounds(lists)
  {
    map u | u in lists :: lists[u].buf[..lists[u].len]
  }

  lemma ContentsWith(lists: map<string, Slice>, user: string, s: Slice)
    requires InBounds(lists) && s.len <= s.buf.Length
    ensures InBounds(lists[user := s]) && Contents(lists[user := s]) == Contents(lists)[user := s.buf[..s.len]]
  {
  }

  lemma SameBut<V>(a: map<string, V>, b: map<string, V>, user: string, v: V)
    requires a.Keys == b.Keys && forall u | u in a && u != user :: a[u] == b[u]
    ensures a[user := v] == b[user := v]
  {
  }

  class FireLog {
    var lists: map<string, Slice>
    var events: map<string, nat>

    ghost function Buffers(): set<array<Fire>>
      reads this
    {
      BuffersOf(lists)
    }

    /** No two users share a backing array. */
    ghost predicate Valid()
      reads this, Buffers()
    {
      InBounds(lists) && Unshared(lists)
    }

    ghost function Fires(): map<string, seq<Fire>>
      reads this, Buffers()
      requires Valid()
    {
      Contents(lists)
    }

    ghost function Of(user: string): seq<Fire>
      reads this, Buffers()
      requires Valid()
    {
      if user in lists then lists[user].buf[..lists[user].len] else []
    }

    constructor ()
      ensures Valid() && Fires() == map[] && events == map[] && Buffers() == {}
    {
      lists, events := map[], map[];
    }

    /** `append`: in place while there is room, else into a new array. */
    method Append(user: string, f: Fire) returns (fires: Slice)
      requires Valid()
      modifies Buffers()
      ensures Valid()
      ensures forall u | u in lists && u != user :: lists[u].buf[..lists[u].len] == old(lists[u].buf[..lists[u].len])
      ensures fires.len <= fires.buf.Length && fires.buf[..fires.len] == old(Of(user)) + [f]
      ensures fresh(fires.buf) || (user in lists && fires.buf == lists[user].buf)
    {
      if user in lists && lists[user].len < lists[user].buf.Length {
        var s := lists[user];
        s.buf[s.len] := f;
        assert s.buf[..s.len + 1] == old(s.buf[..s.len]) + [f];
        return Slice(s.buf, s.len + 1);
      }
      var n := if user in lists then lists[user].len else 0;
      var bigger := new Fire[2 * n + 1](_ => f);
      if user in lists {
        forall i | 0 <= i < n { bigger[i] := lists[user].buf[i]; }
      }
      assert bigger[..n + 1] == old(Of(user)) + [f];
      return Slice(bigger, n + 1);
    }

    /** Append and filter, the new slice not yet stored. */
    method AppendAndFilter(user: string, f: Fire, cutoff: real) returns (kept: Slice)
      requires Valid()
      modifies Buffers()
      ensures Valid()
      ensures forall u | u in lists && u != user :: lists[u].buf[..lists[u].len] == old(lists[u].buf[..lists[u].len])
      ensures kept.len <= kept.buf.Length && kept.buf[..kept.len] == Recent(old(Of(user)) + [f], cutoff)
      ensures fresh(kept.buf) || (user in lists && kept.buf == lists[user].buf)
    {
      var fires := Append(user, f);
      assert forall u | u in lists && u != user :: fires.buf != lists[u].buf;
      var k := FilterInPlace(fires.buf, fires.len, cutoff);
      return Slice(fires.buf, k);
    }

    /** `s.ruleFires[user] = kept`. */
    method Keep(user: string, kept: Slice)
      requires Valid() && kept.len <= kept.buf.Length && forall u | u in lists && u != user :: lists[u].buf != kept.buf
      modifies this`lists
      ensures Valid() && lists == old(lists)[user := kept] && Fires() == old(Fires())[user := kept.buf[..kept.len]]
    {
      ContentsWith(lists, user, kept);
      UnsharedWith(lists, user, kept);
      lists := lists[user := kept];
    }

    method AppendAndTrim(user: string, f: Fire, cutoff: real)
      requires Valid()
      modifies this`lists, Buffers()
      ensures Valid() && fresh(Buffers() - old(Buffers()))
      ensures Fires() == old(Fires())[user := Recent(old(Of(user)) + [f], cutoff)]
    {
      var kept := AppendAndFilter(user, f, cutoff);
      SameBut(Contents(lists), old(Fires()), user, kept.buf[..kept.len]);
      Keep(user, kept);
    }

    method RecordRuleFire(user: string, rule: string, at: real) returns (count: nat)
      requires Valid()
      modifies this, Buffers()
      ensures Valid() && fresh(Buffers() - old(Buffers()))
      ensures count == (if user in old(events) then old(events)[user] else 0) + 1
      ensures events == old(events)[user := count]
      ensures Fires() == old(Fires())[user := Recent(old(Of(user)) + [Fire(rule, at)], at - RETENTION)]
    {
      AppendAndTrim(user, Fire(rule, at), at - RETENTION);
      count := (if user in events then events[user] else 0) + 1;
      events := events[user := count];
    }

    method RecentRuleFires(user: string, now: real, window: int) returns (out: seq<Fire>)
      requires Valid()
      ensures out == Recent(Of(user), now - window as real)
    {
      out := [];
      if user in lists {
        var s := lists[user];
        ghost var all := s.buf[..s.len];
        for i := 0 to s.len
          invariant out == Recent(all[..i], now - window as real)
        {
          RecentAppend(all[..i], all[i], now - window as real);
          assert all[..i + 1] == all[..i] + [all[i]];
          if s.buf[i].at >= now - window as real {
            out := out + [s.buf[i]];
          }
        }
        assert all[..s.len] == all;
      }
    }

    method RecentFiresMatching(user: string, rules: seq<string>, now: real, window: int) returns (out: seq<string>)
      requires Valid()
      ensures IsMatching(out, Recent(Of(user), now - window as real), rules)
    {
      var seen: seq<string> := [];
      var recent := RecentRuleFires(user, now, window);
      for i := 0 to |recent|
        invariant Strings.Distinct(seen)
        invariant forall r :: r in seen <==> r in rules && exists j | 0 <= j < i :: recent[j].rule == r
      {
        if recent[i].rule in rules && recent[i].rule !in seen {
          seen := seen + [recent[i].rule];
        }
      }
      out := Strings.Sort(r => Strings.Key(r, ""), seen);
      Strings.SortKeepsDistinct(r => Strings.Key(r, ""), seen);
    }
  }
}
