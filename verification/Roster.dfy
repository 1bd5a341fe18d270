/** The identity roster: the one normaliser of addresses, the start-up parse of the seat table, and
    the resolution of an authenticated address to a seat. Rows are taken after YAML decoding. */
module Roster {
  import opened Identity
  import Strings
  import opened Wrappers


  /** The domains whose local parts are folded; the first is the one they are unified to. */
  const FOLDED := ["gmail.com", "googlemail.com"]

  function Before(s: string, c: char): string { if c in s then s[..IndexOf(s, c)] else s }

  function Without(s: string, c: char): (r: string)
    ensures c !in r && |r| <= |s| && forall x | x in r :: x in s
  {
    if s == "" then "" else (if s[0] == c then "" else [s[0]]) + Without(s[1..], c)
  }

  function FoldLocal(local: string): string { Without(Before(local, '+'), '.') }

  function Fold(local: string, domain: string): Option<string> {
    if domain !in FOLDED then Some(local + "@" + domain)
    else if FoldLocal(local) == "" then None
    else Some(FoldLocal(local) + "@" + FOLDED[0])
  }

  function NormalizeEmail(raw: string, space: Spaces): Option<string> {
    var s := TrimSpace(raw, space);
    if s == "" || !IsPlainASCII(s) then None
    else
      var low := Strings.Lower(s);
      if !OneAt(low) then None
      else
        var domain := NormalizeDomain(low[IndexOf(low, '@') + 1..], space);
        if domain.Err? then None else Fold(low[..IndexOf(low, '@')], domain.value)
  }

  // ---- the normal form -------------------------------------------------------

  predicate IsParts(local: string, domain: string) {
    && local != "" && '@' !in local && Tidy(local) && IsDomain(domain)
    && (domain in FOLDED ==> domain == FOLDED[0] && '+' !in local && '.' !in local)
  }

  ghost predicate IsEmail(n: string) { exists local, domain :: IsParts(local, domain) && n == local + "@" + domain }

  function Local(n: string): string { if '@' in n then n[..IndexOf(n, '@')] else "" }
  function Domain(n: string): string { if '@' in n then n[IndexOf(n, '@') + 1..] else "" }

  lemma PartsOf(local: string, domain: string)
    requires '@' !in local && '@' !in domain
    ensures var n := local + "@" + domain; '@' in n && Local(n) == local && Domain(n) == domain
  {
    var n := local + "@" + domain;
    OneAtIff(local, domain);
    assert n[|local|] == '@';
    assert n[..|local|] == local && n[|local| + 1..] == domain;
  }

  lemma {:induction false} WithoutNothing(s: string, c: char)
    requires c !in s
    ensures Without(s, c) == s
  {
    if s != "" {
      assert s[0] in s && forall x | x in s[1..] :: x in s;
      WithoutNothing(s[1..], c);
      assert [s[0]] + s[1..] == s;
    }
  }

  lemma {:induction false} WithoutKeepsTidy(s: string, c: char)
    requires Tidy(s)
    ensures Tidy(Without(s, c))
  {
    if s != "" {
      assert forall i | 0 <= i < |s| - 1 :: s[1..][i] == s[i + 1];
      WithoutKeepsTidy(s[1..], c);
      assert Plain(s[0]);
    }
  }

  lemma FoldedLocal(local: string)
    requires Tidy(local) && '@' !in local
    ensures Tidy(FoldLocal(local)) && '@' !in FoldLocal(local) && '+' !in FoldLocal(local) && '.' !in FoldLocal(local)
    ensures '+' !in local && '.' !in local ==> FoldLocal(local) == local
  {
    var b := Before(local, '+');
    assert forall x | x in b :: x in local;
    assert '+' !in b;
    assert Tidy(b);
    WithoutKeepsTidy(b, '.');
    if '+' !in local && '.' !in local { WithoutNothing(local, '.'); }
  }

  lemma TwoLabels(a: string, b: string)
    requires a != "" && b != "" && '.' !in a && '.' !in b
    ensures "" !in Strings.Split(a + ['.'] + b, '.')
  {
    Strings.SplitOfAppend(a, b, '.');
    Strings.SplitOfOne(a, '.');
    Strings.SplitOfOne(b, '.');
  }

  lemma FoldedDomainIsDomain()
    ensures IsDomain(FOLDED[0])
  {
    FoldedLabels();
    FoldedIsTidy();
  }

  lemma FoldedLabels()
    ensures "" !in Strings.Split(FOLDED[0], '.')
  {
    TwoLabels("gmail", "com");
    assert "gmail" + ['.'] + "com" == FOLDED[0];
  }

  lemma FoldedIsTidy()
    ensures FOLDED[0] != "" && Tidy(FOLDED[0]) && '@' !in FOLDED[0]
  {
  }

  lemma FoldIsEmail(local: string, domain: string)
    requires local != "" && '@' !in local && Tidy(local) && IsDomain(domain) && Fold(local, domain).Some?
    ensures IsEmail(Fold(local, domain).value)
  {
    FoldedLocal(local);
    FoldedDomainIsDomain();
    if domain in FOLDED {
      assert IsParts(FoldLocal(local), FOLDED[0]);
    } else {
      assert IsParts(local, domain);
    }
  }

  lemma FoldOfParts(local: string, domain: string)
    requires IsParts(local, domain)
    ensures Fold(local, domain) == Some(local + "@" + domain)
  {
    FoldedLocal(local);
  }

  /** Every address the normaliser returns is in normal form. */
  lemma NormalizedIsEmail(raw: string, space: Spaces)
    requires NormalizeEmail(raw, space).Some?
    ensures IsEmail(NormalizeEmail(raw, space).value)
  {
    var s := TrimSpace(raw, space);
    var low := Strings.Lower(s);
    LowerOfPlain(s);
    OneAtSplits(low);
    NormalizedDomain(low[IndexOf(low, '@') + 1..], space);
    var local := low[..IndexOf(low, '@')];
    assert Tidy(local);
    FoldIsEmail(local, NormalizeDomain(low[IndexOf(low, '@') + 1..], space).value);
  }

  lemma PartsAreTidy(local: string, domain: string)
    requires Tidy(local) && Tidy(domain)
    ensures Tidy(local + "@" + domain)
  {
  }

  lemma NormalizeOfParts(local: string, domain: string, space: Spaces)
    requires IsSpaceTest(space) && IsParts(local, domain)
    ensures NormalizeEmail(local + "@" + domain, space) == Some(local + "@" + domain)
  {
    var n := local + "@" + domain;
    PartsAreTidy(local, domain);
    TrimOfPlain(n, space);
    LowerOfTidy(n);
    OneAtIff(local, domain);
    PartsOf(local, domain);
    NormalizeOfDomain(domain, space);
    FoldOfParts(local, domain);
  }

  lemma NormalizeIsIdempotent(raw: string, space: Spaces)
    requires IsSpaceTest(space) && NormalizeEmail(raw, space).Some?
    ensures NormalizeEmail(NormalizeEmail(raw, space).value, space) == NormalizeEmail(raw, space)
  {
    NormalizedIsEmail(raw, space);
    var local, domain :| IsParts(local, domain) && NormalizeEmail(raw, space).value == local + "@" + domain;
    NormalizeOfParts(local, domain, space);
  }

  lemma EmailParts(n: string)
    requires IsEmail(n)
    ensures IsParts(Local(n), Domain(n)) && n == Local(n) + "@" + Domain(n)
  {
    var local, domain :| IsParts(local, domain) && n == local + "@" + domain;
    PartsOf(local, domain);
  }

  // ---- the table -------------------------------------------------------------

  datatype Row = Row(seat: string, external: Option<string>)

  datatype RowError =
    | SeatNotASCII | SeatShape | DuplicateSeat | SeatIsAdmin
    | ExternalBlank | ExternalNotASCII | ExternalShape | ExternalInDomain | ExternalIsAdmin | DuplicateExternal

  datatype RosterError = BadConfig(error: Error) | AdminNotNormal | NoSeats | BadRow(index: nat, why: RowError)

  datatype Roster = Roster(domain: string, seats: set<string>, external: map<string, string>)

  datatype RowResult = Added(roster: Roster) | Rejected(why: RowError)
  datatype Parsed = Accepted(roster: Roster) | Refused(error: RosterError)

  /** The body of the row loop. */
  function AddRow(r: Roster, admins: set<string>, row: Row, space: Spaces): RowResult {
    if !IsPlainASCII(row.seat) then Rejected(SeatNotASCII)
    else if !ValidSeat(row.seat) then Rejected(SeatShape)
    else if row.seat in r.seats then Rejected(DuplicateSeat)
    else if Canonical(row.seat, r.domain) in admins then Rejected(SeatIsAdmin)
    else
      var seated := r.(seats := r.seats + {row.seat});
      if row.external.None? then Added(seated)
      else AddExternal(seated, admins, row.seat, row.external.value, space)
  }

  function AddExternal(r: Roster, admins: set<string>, seat: string, external: string, space: Spaces): RowResult {
    var bare := TrimSpace(external, space);
    if bare == "" then Rejected(ExternalBlank)
    else if !IsPlainASCII(bare) then Rejected(ExternalNotASCII)
    else match NormalizeEmail(external, space)
      case None => Rejected(ExternalShape)
      case Some(n) =>
        if Domain(n) == r.domain then Rejected(ExternalInDomain)
        else if n in admins then Rejected(ExternalIsAdmin)
        else if n in r.external then Rejected(DuplicateExternal)
        else Added(r.(external := r.external[n := seat]))
  }

  function AddRows(r: Roster, admins: set<string>, rows: seq<Row>, i: nat, space: Spaces): Parsed
    requires i <= |rows|
    decreases |rows| - i
  {
    if i == |rows| then Accepted(r)
    else match AddRow(r, admins, rows[i], space)
      case Rejected(why) => Refused(BadRow(i, why))
      case Added(more) => AddRows(more, admins, rows, i + 1, space)
  }

  function Normals(admins: seq<string>, space: Spaces): (ns: seq<Option<string>>)
    ensures |ns| == |admins| && forall i | 0 <= i < |admins| :: ns[i] == NormalizeEmail(admins[i], space)
  {
    seq(|admins|, i requires 0 <= i < |admins| => NormalizeEmail(admins[i], space))
  }

  predicate AllSome(ns: seq<Option<string>>) { None !in ns }

  function Values(ns: seq<Option<string>>): set<string> { set n | n in ns && n.Some? :: n.value }

  predicate Normalise(admins: seq<string>, space: Spaces) { AllSome(Normals(admins, space)) }

  /** What the addresses normalise to; the set that the admin check consults. */
  function AdminSet(admins: seq<string>, space: Spaces): set<string> { Values(Normals(admins, space)) }

  function Parse(domain: string, admins: seq<string>, rows: seq<Row>, space: Spaces): Parsed {
    match Validate(domain, admins, false, space)
    case Err(e) => Refused(BadConfig(e))
    case Ok(cfg) =>
      if !Normalise(cfg.admins, space) then Refused(AdminNotNormal)
      else if rows == [] then Refused(NoSeats)
      else AddRows(Roster(cfg.domain, {}, map[]), AdminSet(cfg.admins, space), rows, 0, space)
  }

  /** The loop that fills the admin set from the normalised addresses. */
  method FillAdminSet(ns: seq<Option<string>>) returns (all: bool, adminSet: set<string>)
    ensures all == AllSome(ns) && adminSet == Values(ns)
  {
    all, adminSet := true, {};
    for i := 0 to |ns|
      invariant all == AllSome(ns[..i]) && adminSet == Values(ns[..i])
    {
      assert ns[..i + 1] == ns[..i] + [ns[i]];
      assert forall n :: n in ns[..i + 1] <==> n in ns[..i] || n == ns[i];
      if ns[i].Some? { adminSet := adminSet + {ns[i].value}; } else { all := false; }
    }
    assert ns[..|ns|] == ns;
  }

  method ParseRoster(domain: string, admins: seq<string>, rows: seq<Row>, space: Spaces) returns (r: Parsed)
    ensures r == Parse(domain, admins, rows, space)
  {
    var valid := Validate(domain, admins, false, space);
    if valid.Err? {
      return Refused(BadConfig(valid.error));
    }
    var cfg := valid.value;
    var all, adminSet := FillAdminSet(Normals(cfg.admins, space));
    if !all {
      return Refused(AdminNotNormal);
    }
    if rows == [] {
      return Refused(NoSeats);
    }
    r := FillRows(Roster(cfg.domain, {}, map[]), adminSet, rows, space);
  }

  method FillRows(empty: Roster, admins: set<string>, rows: seq<Row>, space: Spaces) returns (r: Parsed)
    ensures r == AddRows(empty, admins, rows, 0, space)
  {
    var roster := empty;
    for i := 0 to |rows|
      invariant AddRows(roster, admins, rows, i, space) == AddRows(empty, admins, rows, 0, space)
    {
      match AddRow(roster, admins, rows[i], space) {
        case Rejected(why) => return Refused(BadRow(i, why));
        case Added(more) => roster := more;
      }
    }
    return Accepted(roster);
  }

  // ---- resolution ------------------------------------------------------------

  /** The lookup, once the address is in normal form. */
  function Seat(r: Roster, n: string): Option<string> {
    if Domain(n) == r.domain then (if Local(n) in r.seats then Some(Local(n)) else None)
    else if n in r.external then Some(r.external[n])
    else None
  }

  function Resolve(r: Roster, raw: string, space: Spaces): Option<string> {
    match NormalizeEmail(raw, space) case None => None case Some(n) => Seat(r, n)
  }

  /** Exactly the addresses that normalise into the set. */
  function IsAdmin(admins: set<string>, raw: string, space: Spaces): bool {
    match NormalizeEmail(raw, space) case None => false case Some(n) => n in admins
  }

  // ---- what a parsed roster keeps --------------------------------------------

  ghost predicate GoodRoster(r: Roster, admins: set<string>) {
    && IsDomain(r.domain) && IsReserved(r.domain)
    && (forall s | s in r.seats :: ValidSeat(s) && Canonical(s, r.domain) !in admins)
    && (forall n | n in r.external :: IsEmail(n) && Domain(n) != r.domain && n !in admins && r.external[n] in r.seats)
  }

  lemma AddRowKeeps(r: Roster, admins: set<string>, row: Row, space: Spaces)
    requires GoodRoster(r, admins) && AddRow(r, admins, row, space).Added?
    ensures GoodRoster(AddRow(r, admins, row, space).roster, admins)
    ensures AddRow(r, admins, row, space).roster.domain == r.domain
  {
    if row.external.Some? { NormalizedIsEmail(row.external.value, space); }
  }

  lemma {:induction false} AddRowsKeep(r: Roster, admins: set<string>, rows: seq<Row>, i: nat, space: Spaces)
    requires GoodRoster(r, admins) && i <= |rows| && AddRows(r, admins, rows, i, space).Accepted?
    ensures GoodRoster(AddRows(r, admins, rows, i, space).roster, admins)
    ensures AddRows(r, admins, rows, i, space).roster.domain == r.domain
    decreases |rows| - i
  {
    if i < |rows| {
      AddRowKeeps(r, admins, rows[i], space);
      AddRowsKeep(AddRow(r, admins, rows[i], space).roster, admins, rows, i + 1, space);
    }
  }

  lemma ParsedIsGood(domain: string, admins: seq<string>, rows: seq<Row>, space: Spaces)
    requires IsSpaceTest(space) && Parse(domain, admins, rows, space).Accepted?
    ensures Validate(domain, admins, false, space).Ok?
    ensures var cfg := Validate(domain, admins, false, space).value;
            var r := Parse(domain, admins, rows, space).roster;
            GoodRoster(r, AdminSet(cfg.admins, space)) && r.domain == cfg.domain
  {
    ValidatedConfig(domain, admins, space);
    var cfg := Validate(domain, admins, false, space).value;
    AddRowsKeep(Roster(cfg.domain, {}, map[]), AdminSet(cfg.admins, space), rows, 0, space);
  }

  /** In a good roster nobody is both an admin and seated, whatever the spelling. */
  lemma AdminsHaveNoSeat(r: Roster, admins: set<string>, raw: string, space: Spaces)
    requires GoodRoster(r, admins)
    ensures !(IsAdmin(admins, raw, space) && Resolve(r, raw, space).Some?)
  {
    if NormalizeEmail(raw, space).Some? {
      NormalizedIsEmail(raw, space);
      EmailParts(NormalizeEmail(raw, space).value);
    }
  }

  /** As deployed: the configuration is validated once, the roster is parsed with it, and the handler
      builds its own set from it. */
  lemma NobodyIsBoth(domain: string, admins: seq<string>, rows: seq<Row>, raw: string, space: Spaces)
    requires IsSpaceTest(space) && Validate(domain, admins, false, space).Ok?
    requires var cfg := Validate(domain, admins, false, space).value;
             Parse(cfg.domain, cfg.admins, rows, space).Accepted?
    ensures var cfg := Validate(domain, admins, false, space).value;
            var r := Parse(cfg.domain, cfg.admins, rows, space).roster;
            !(IsAdmin(AdminSet(cfg.admins, space), raw, space) && Resolve(r, raw, space).Some?)
  {
    ValidatedConfig(domain, admins, space);
    var cfg := Validate(domain, admins, false, space).value;
    ParsedIsGood(cfg.domain, cfg.admins, rows, space);
    AdminsHaveNoSeat(Parse(cfg.domain, cfg.admins, rows, space).roster, AdminSet(cfg.admins, space), raw, space);
  }

  lemma ReservedIsNotFolded(domain: string)
    requires IsReserved(domain)
    ensures domain !in FOLDED
  {
    if domain in FOLDED {
      assert domain == "gmail.com" || domain == "googlemail.com";
      LastIndexOfFolded();
    }
  }

  lemma LastIndexOfFolded()
    ensures LastLabel("gmail.com") == "com" && LastLabel("googlemail.com") == "com"
  {
    IndexIs("gmail.com", '.', 5);
    IndexIs("googlemail.com", '.', 10);
  }

  /** The stamped form of a seat resolves to that seat. */
  lemma CanonicalResolves(r: Roster, admins: set<string>, seat: string, space: Spaces)
    requires IsSpaceTest(space) && GoodRoster(r, admins) && seat in r.seats
    ensures Resolve(r, Canonical(seat, r.domain), space) == Some(seat)
  {
    SeatIsTidy(seat);
    ReservedIsNotFolded(r.domain);
    NormalizeOfParts(seat, r.domain, space);
    PartsOf(seat, r.domain);
  }

  /** Whoever resolves is stamped with a form that resolves alike. */
  lemma StampIsAFixedPoint(r: Roster, admins: set<string>, raw: string, space: Spaces)
    requires IsSpaceTest(space) && GoodRoster(r, admins) && Resolve(r, raw, space).Some?
    ensures var seat := Resolve(r, raw, space).value;
            seat in r.seats && Resolve(r, Canonical(seat, r.domain), space) == Some(seat)
  {
    CanonicalResolves(r, admins, Resolve(r, raw, space).value, space);
  }

  /** An address outside the reserved domains gets a seat only through its own external row. */
  lemma OutsidersNeedARow(r: Roster, raw: string, space: Spaces)
    ensures var n := NormalizeEmail(raw, space);
            n.Some? && IsReserved(r.domain) && !IsReserved(Domain(n.value)) ==>
              Resolve(r, raw, space) == if n.value in r.external then Some(r.external[n.value]) else None
  {
    var n := NormalizeEmail(raw, space);
    if n.Some? && IsReserved(r.domain) && !IsReserved(Domain(n.value)) {
      assert Domain(n.value) != r.domain;
      assert Seat(r, n.value) == if n.value in r.external then Some(r.external[n.value]) else None;
    }
  }

  /** An accepted admin address is its own normal form, so the roster's check of that never fails. */
  lemma AdminIsNormal(e: string, space: Spaces)
    requires IsSpaceTest(space) && IsAdminEmail(e)
    ensures NormalizeEmail(e, space) == Some(e)
  {
    OneAtSplits(e);
    var local, domain := e[..IndexOf(e, '@')], e[IndexOf(e, '@') + 1..];
    assert Tidy(local);
    ReservedIsNotFolded(domain);
    NormalizeOfParts(local, domain, space);
  }

  // ---- which tables are accepted ---------------------------------------------

  function Ext(row: Row, space: Spaces): Option<string> {
    if row.external.None? then None else NormalizeEmail(row.external.value, space)
  }

  /** Nothing is wrong with the row itself. */
  predicate RowIsGood(domain: string, admins: set<string>, row: Row, space: Spaces) {
    && ValidSeat(row.seat) && Canonical(row.seat, domain) !in admins
    && (row.external.Some? ==>
          var n := NormalizeEmail(row.external.value, space);
          n.Some? && Domain(n.value) != domain && n.value !in admins)
  }

  predicate IsNew(r: Roster, row: Row, space: Spaces) {
    row.seat !in r.seats && (Ext(row, space).Some? ==> Ext(row, space).value !in r.external)
  }

  predicate Clash(a: Row, b: Row, space: Spaces) {
    a.seat == b.seat || (Ext(a, space).Some? && Ext(a, space) == Ext(b, space))
  }

  function With(r: Roster, row: Row, space: Spaces): Roster {
    r.(seats := r.seats + {row.seat},
       external := if Ext(row, space).Some? then r.external[Ext(row, space).value := row.seat] else r.external)
  }

  lemma SeatIsPlain(s: string)
    requires ValidSeat(s)
    ensures IsPlainASCII(s)
  {
  }

  lemma NormalIsPlain(raw: string, space: Spaces)
    requires NormalizeEmail(raw, space).Some?
    ensures TrimSpace(raw, space) != "" && IsPlainASCII(TrimSpace(raw, space))
  {
  }

  lemma AddExternalIff(r: Roster, admins: set<string>, seat: string, external: string, space: Spaces)
    ensures var n := NormalizeEmail(external, space);
            && (AddExternal(r, admins, seat, external, space).Added? <==>
                n.Some? && Domain(n.value) != r.domain && n.value !in admins && n.value !in r.external)
            && (AddExternal(r, admins, seat, external, space).Added? ==>
                AddExternal(r, admins, seat, external, space).roster == r.(external := r.external[n.value := seat]))
  {
    if NormalizeEmail(external, space).Some? { NormalIsPlain(external, space); }
  }

  lemma AddRowIff(r: Roster, admins: set<string>, row: Row, space: Spaces)
    ensures AddRow(r, admins, row, space).Added? <==> RowIsGood(r.domain, admins, row, space) && IsNew(r, row, space)
    ensures AddRow(r, admins, row, space).Added? ==> AddRow(r, admins, row, space).roster == With(r, row, space)
  {
    if ValidSeat(row.seat) { SeatIsPlain(row.seat); }
    if row.external.Some? {
      AddExternalIff(r.(seats := r.seats + {row.seat}), admins, row.seat, row.external.value, space);
    }
  }

  function WithAll(r: Roster, rows: seq<Row>, i: nat, space: Spaces): Roster
    requires i <= |rows|
    decreases |rows| - i
  {
    if i == |rows| then r else WithAll(With(r, rows[i], space), rows, i + 1, space)
  }

  ghost predicate AllAcceptable(r: Roster, admins: set<string>, rows: seq<Row>, i: nat, space: Spaces) {
    && (forall j | i <= j < |rows| :: RowIsGood(r.domain, admins, rows[j], space) && IsNew(r, rows[j], space))
    && (forall j, k | i <= j < k < |rows| :: !Clash(rows[j], rows[k], space))
  }

  lemma NewAfterIff(r: Roster, a: Row, b: Row, space: Spaces)
    ensures IsNew(With(r, a, space), b, space) <==> IsNew(r, b, space) && !Clash(a, b, space)
  {
  }

  lemma {:induction false} AddRowsIff(r: Roster, admins: set<string>, rows: seq<Row>, i: nat, space: Spaces)
    requires i <= |rows|
    ensures AddRows(r, admins, rows, i, space).Accepted? <==> AllAcceptable(r, admins, rows, i, space)
    ensures AddRows(r, admins, rows, i, space).Accepted?
            ==> AddRows(r, admins, rows, i, space).roster == WithAll(r, rows, i, space)
    decreases |rows| - i
  {
    if i < |rows| {
      AddRowIff(r, admins, rows[i], space);
      var more := With(r, rows[i], space);
      forall j | i < j < |rows|
        ensures IsNew(more, rows[j], space) <==> IsNew(r, rows[j], space) && !Clash(rows[i], rows[j], space)
      {
        NewAfterIff(r, rows[i], rows[j], space);
      }
      AddRowsIff(more, admins, rows, i + 1, space);
      if AddRow(r, admins, rows[i], space).Added? { AcceptableNext(r, more, admins, rows, i, space); }
    }
  }

  lemma AcceptableNext(r: Roster, more: Roster, admins: set<string>, rows: seq<Row>, i: nat, space: Spaces)
    requires i < |rows| && more.domain == r.domain
    requires RowIsGood(r.domain, admins, rows[i], space) && IsNew(r, rows[i], space)
    requires forall j | i < j < |rows| ::
               IsNew(more, rows[j], space) <==> IsNew(r, rows[j], space) && !Clash(rows[i], rows[j], space)
    ensures AllAcceptable(more, admins, rows, i + 1, space) <==> AllAcceptable(r, admins, rows, i, space)
  {
  }

  lemma {:induction false} WithAllSeats(r: Roster, rows: seq<Row>, i: nat, space: Spaces, s: string)
    requires i <= |rows|
    ensures s in WithAll(r, rows, i, space).seats <==> s in r.seats || exists j | i <= j < |rows| :: rows[j].seat == s
    ensures WithAll(r, rows, i, space).domain == r.domain
    decreases |rows| - i
  {
    if i < |rows| {
      WithAllSeats(With(r, rows[i], space), rows, i + 1, space, s);
      WithHolds(r, rows[i], space);
    }
  }

  lemma {:induction false} WithAllExternals(r: Roster, rows: seq<Row>, i: nat, space: Spaces, n: string)
    requires i <= |rows|
    ensures n in WithAll(r, rows, i, space).external
            <==> n in r.external || exists j | i <= j < |rows| :: Ext(rows[j], space) == Some(n)
    decreases |rows| - i
  {
    if i < |rows| {
      WithAllExternals(With(r, rows[i], space), rows, i + 1, space, n);
      WithHolds(r, rows[i], space);
    }
  }

  lemma WithHolds(r: Roster, row: Row, space: Spaces)
    ensures forall s :: s in With(r, row, space).seats <==> s in r.seats || s == row.seat
    ensures forall n :: n in With(r, row, space).external <==> n in r.external || Ext(row, space) == Some(n)
  {
  }

  /** A table is accepted iff the configuration is valid, there is a row, each row is good by itself
      and no two clash; the roster then holds the rows' seats and normalised addresses. */
  lemma ParseAcceptedIff(domain: string, admins: seq<string>, rows: seq<Row>, space: Spaces)
    requires IsSpaceTest(space)
    ensures Parse(domain, admins, rows, space).Accepted? <==>
            && Validate(domain, admins, false, space).Ok? && rows != []
            && (var cfg := Validate(domain, admins, false, space).value;
                forall j | 0 <= j < |rows| :: RowIsGood(cfg.domain, AdminSet(cfg.admins, space), rows[j], space))
            && (forall j, k | 0 <= j < k < |rows| :: !Clash(rows[j], rows[k], space))
    ensures Parse(domain, admins, rows, space).Accepted? ==>
            var r := Parse(domain, admins, rows, space).roster;
            && (forall s :: s in r.seats <==> exists j | 0 <= j < |rows| :: rows[j].seat == s)
            && (forall n :: n in r.external <==> exists j | 0 <= j < |rows| :: Ext(rows[j], space) == Some(n))
  {
    if Validate(domain, admins, false, space).Ok? {
      var cfg := Validate(domain, admins, false, space).value;
      AdminsNormalise(domain, admins, space);
      RowsAcceptedIff(Roster(cfg.domain, {}, map[]), AdminSet(cfg.admins, space), rows, space);
    }
  }

  lemma AdminsNormalise(domain: string, admins: seq<string>, space: Spaces)
    requires IsSpaceTest(space) && Validate(domain, admins, false, space).Ok?
    ensures Normalise(Validate(domain, admins, false, space).value.admins, space)
  {
    ValidatedConfig(domain, admins, space);
    var emails := Validate(domain, admins, false, space).value.admins;
    forall i | 0 <= i < |emails| ensures Normals(emails, space)[i].Some? { AdminIsNormal(emails[i], space); }
  }

  lemma RowsAcceptedIff(empty: Roster, admins: set<string>, rows: seq<Row>, space: Spaces)
    requires empty.seats == {} && empty.external == map[]
    ensures AddRows(empty, admins, rows, 0, space).Accepted? <==>
            && (forall j | 0 <= j < |rows| :: RowIsGood(empty.domain, admins, rows[j], space))
            && (forall j, k | 0 <= j < k < |rows| :: !Clash(rows[j], rows[k], space))
    ensures AddRows(empty, admins, rows, 0, space).Accepted? ==>
            var r := AddRows(empty, admins, rows, 0, space).roster;
            && (forall s :: s in r.seats <==> exists j | 0 <= j < |rows| :: rows[j].seat == s)
            && (forall n :: n in r.external <==> exists j | 0 <= j < |rows| :: Ext(rows[j], space) == Some(n))
  {
    AddRowsIff(empty, admins, rows, 0, space);
    forall s ensures s in WithAll(empty, rows, 0, space).seats <==> exists j | 0 <= j < |rows| :: rows[j].seat == s {
      WithAllSeats(empty, rows, 0, space, s);
    }
    forall n
      ensures n in WithAll(empty, rows, 0, space).external
              <==> exists j | 0 <= j < |rows| :: Ext(rows[j], space) == Some(n)
    {
      WithAllExternals(empty, rows, 0, space, n);
    }
    forall j | 0 <= j < |rows| ensures IsNew(empty, rows[j], space) { }
  }
}
