/** The identity code's answers in terms of the characters of its inputs: trimming and lower case, domains
    and the reserved names, seats, the fold of the two Google domains, and who is let in. */
module AddressRules {
  import opened Identity
  import opened Roster
  import Strings
  import opened Wrappers

  // ---- trimming and lower case -------------------------------------------------

  ghost predicate AllSpace(s: string, space: Spaces) { forall i | 0 <= i < |s| :: space(s[i]) }

  ghost predicate Bare(t: string, space: Spaces) { t == "" || (!space(t[0]) && !space(t[|t| - 1])) }

  lemma {:induction false} LeftIsDropped(a: string, t: string, space: Spaces)
    requires AllSpace(a, space) && (t == "" || !space(t[0]))
    ensures TrimLeft(a + t, space) == t
  {
    if a == "" {
      assert a + t == t;
    } else {
      assert (a + t)[1..] == a[1..] + t;
      LeftIsDropped(a[1..], t, space);
    }
  }

  lemma {:induction false} RightIsDropped(t: string, b: string, space: Spaces)
    requires AllSpace(b, space) && (t == "" || !space(t[|t| - 1]))
    ensures TrimRight(t + b, space) == t
    decreases |b|
  {
    if b == "" {
      assert t + b == t;
    } else {
      assert (t + b)[..|t + b| - 1] == t + b[..|b| - 1];
      RightIsDropped(t, b[..|b| - 1], space);
    }
  }

  /** Trimming takes all white space off both ends, and nothing else. */
  lemma TrimIs(a: string, t: string, b: string, space: Spaces)
    requires AllSpace(a, space) && AllSpace(b, space) && Bare(t, space)
    ensures TrimSpace(a + t + b, space) == t
  {
    if t == "" {
      assert a + t + b == (a + b) + "";
      LeftIsDropped(a + b, "", space);
    } else {
      assert a + t + b == a + (t + b);
      LeftIsDropped(a, t + b, space);
      RightIsDropped(t, b, space);
    }
  }

  lemma {:induction false} LowerIs(s: string)
    ensures |Strings.Lower(s)| == |s|
    ensures forall i | 0 <= i < |s| ::
              var c, d := s[i] as int, Strings.Lower(s)[i] as int;
              d == if 0x41 <= c <= 0x5A then c + 0x20 else if c == 0x212A then 0x6B else if c == 0x130 then 0x69 else c
  {
    if s != "" { LowerIs(s[1..]); }
  }

  // ---- domains -----------------------------------------------------------------

  /** A label is empty: nothing at all, a dot at an end, or two in a row. */
  ghost predicate HasEmptyLabel(s: string) { s == "" || s[0] == '.' || EmptyLater(s) }

  ghost predicate EmptyLater(s: string) {
    s != "" && (s[|s| - 1] == '.' || exists i :: 0 < i < |s| && s[i - 1] == s[i] == '.')
  }

  lemma {:induction false} SplitHasEmpty(s: string)
    ensures "" in Strings.Split(s, '.')[1..] <==> EmptyLater(s)
    ensures Strings.Split(s, '.')[0] == "" <==> s == "" || s[0] == '.'
  {
    if s != "" {
      var r := Strings.Split(s[1..], '.');
      SplitHasEmpty(s[1..]);
      assert forall i | 0 < i < |s| :: s[i] == s[1..][i - 1];
      assert s[0] == '.' ==> ([""] + r)[1..] == r;
      assert r == [r[0]] + r[1..];
      EmptyLaterNext(s);
    }
  }

  lemma EmptyLaterNext(s: string)
    requires s != ""
    ensures EmptyLater(s) <==> EmptyLater(s[1..]) || (s[0] == '.' && (|s| == 1 || s[1] == '.'))
  {
    var t := s[1..];
    if EmptyLater(s) && !(s[0] == '.' && (|s| == 1 || s[1] == '.')) && s[|s| - 1] != '.' {
      var i :| 0 < i < |s| && s[i - 1] == s[i] == '.';
      assert t[i - 1 - 1] == t[i - 1] == '.';
    }
    if EmptyLater(t) && t[|t| - 1] != '.' {
      var i :| 0 < i < |t| && t[i - 1] == t[i] == '.';
      assert s[i] == s[i + 1] == '.';
    }
  }

  lemma EmptyLabelIff(s: string)
    ensures "" in Strings.Split(s, '.') <==> HasEmptyLabel(s)
  {
    SplitHasEmpty(s);
    var r := Strings.Split(s, '.');
    assert r == [r[0]] + r[1..];
  }

  predicate Printable(s: string) { forall i | 0 <= i < |s| :: 0x21 <= s[i] as int <= 0x7E }

  lemma LowerKeeps(s: string, c: char)
    requires Printable(s) && !('A' <= c <= 'Z')
    ensures c in s ==> c in Strings.Lower(s)
    ensures !('a' <= c <= 'z') ==> (c in Strings.Lower(s) <==> c in s)
  {
    LowerIs(s);
    var low := Strings.Lower(s);
    if c in s {
      var i :| 0 <= i < |s| && s[i] == c;
      assert low[i] == c;
    }
    if c in low && !('a' <= c <= 'z') {
      var i :| 0 <= i < |s| && low[i] == c;
      assert s[i] == c;
    }
  }

  /** A domain is its trimmed text in lower case, or the first of four faults. */
  lemma DomainIs(raw: string, space: Spaces)
    ensures var d, low := TrimSpace(raw, space), Strings.Lower(TrimSpace(raw, space));
            NormalizeDomain(raw, space) ==
            if d == "" then Err(DomainEmpty) else if !Printable(d) then Err(NotASCII)
            else if '@' in d then Err(HasAt) else if HasEmptyLabel(low) then Err(EmptyLabel) else Ok(low)
  {
    var d := TrimSpace(raw, space);
    EmptyLabelIff(Strings.Lower(d));
    if Printable(d) { LowerKeeps(d, '@'); }
    assert Printable(d) <==> IsPlainASCII(d);
  }

  predicate ReservedName(x: string) {
    x == "local" || x == "test" || x == "invalid" || x == "example" || x == "localhost"
  }

  lemma ReservedHasNoDot(x: string)
    requires ReservedName(x)
    ensures '.' !in x && LastLabel(x) == x
  {
    assert x[0..] == x;
  }

  ghost predicate EndsReserved(domain: string, a: string, x: string) { ReservedName(x) && domain == a + "." + x }

  /** A domain is reserved iff it is one of the five names, or ends in a dot and one of them. */
  lemma ReservedIs(domain: string)
    ensures IsReserved(domain) <==> ReservedName(domain) || exists a, x :: EndsReserved(domain, a, x)
  {
    NamesAreReserved(LastLabel(domain));
    if ReservedName(LastLabel(domain)) {
      var a := BeforeLabel(domain);
      assert domain == LastLabel(domain) || EndsReserved(domain, a, LastLabel(domain));
    }
    if ReservedName(domain) { ReservedHasNoDot(domain); }
    if a, x :| EndsReserved(domain, a, x) { LabelAfterDot(a, x); }
  }

  lemma BeforeLabel(domain: string) returns (a: string)
    ensures domain == LastLabel(domain) || domain == a + "." + LastLabel(domain)
  {
    var i := LastIndex(domain, '.');
    a := domain[..i + 1];
    if i >= 0 {
      CutAt(domain, i, '.');
      a := domain[..i];
    }
  }

  lemma NamesAreReserved(x: string)
    ensures x in RESERVED <==> ReservedName(x)
  {
  }

  lemma LabelAfterDot(a: string, x: string)
    requires ReservedName(x)
    ensures LastLabel(a + "." + x) == x
  {
    var domain := a + "." + x;
    ReservedHasNoDot(x);
    assert forall j | |a| < j < |domain| :: domain[j] == x[j - |a| - 1] && x[j - |a| - 1] in x;
    IndexIs(domain, '.', |a|);
    assert domain[|a| + 1..] == x;
  }

  // ---- seats -------------------------------------------------------------------

  predicate LowerOrDigit(c: char) { 0x61 <= c as int <= 0x7A || 0x30 <= c as int <= 0x39 }

  /** The seat pattern, as it is written: one character, or two with at most 51 between them that may also
      be hyphens. */
  lemma SeatIs(s: string)
    ensures ValidSeat(s) <==> (exists a :: s == [a] && LowerOrDigit(a)) || exists a, mid, b :: IsLongSeat(s, a, mid, b)
  {
    if ValidSeat(s) && |s| == 1 { assert s == [s[0]]; }
    if ValidSeat(s) && |s| > 1 { LongSeat(s); }
    if a, mid, b :| IsLongSeat(s, a, mid, b) {
      forall i | 0 < i < |s| - 1 ensures Alphanumeric(s[i]) || s[i] == '-' { assert s[i] == mid[i - 1]; }
    }
  }

  ghost predicate IsLongSeat(s: string, a: char, mid: string, b: char) {
    && s == [a] + mid + [b] && LowerOrDigit(a) && LowerOrDigit(b) && |mid| <= 51
    && forall i | 0 <= i < |mid| :: LowerOrDigit(mid[i]) || mid[i] == '-'
  }

  lemma LongSeat(s: string)
    requires ValidSeat(s) && |s| > 1
    ensures IsLongSeat(s, s[0], s[1..|s| - 1], s[|s| - 1])
  {
    assert s == [s[0]] + s[1..|s| - 1] + [s[|s| - 1]];
  }

  // ---- addresses ---------------------------------------------------------------

  /** A text with exactly one '@' is two parts around it. */
  lemma OneAtMeans(s: string)
    ensures OneAt(s) <==>
            exists local, domain ::
              s == local + "@" + domain && local != "" && domain != "" && '@' !in local && '@' !in domain
  {
    if OneAt(s) { OneAtSplits(s); }
    if local, domain :| s == local + "@" + domain && local != "" && domain != "" && '@' !in local && '@' !in domain {
      OneAtIff(local, domain);
    }
  }

  lemma AddressParts(low: string, local: string, domain: string)
    requires low == local + "@" + domain && '@' !in local && '@' !in domain
    ensures OneAt(low) <==> local != "" && domain != ""
    ensures IndexOf(low, '@') == |local|
    ensures low[..IndexOf(low, '@')] == local && low[IndexOf(low, '@') + 1..] == domain
  {
    OneAtIff(local, domain);
  }

  lemma TidyDomain(low: string, local: string, domain: string, space: Spaces)
    requires IsSpaceTest(space) && Tidy(low) && low == local + "@" + domain && '@' !in domain && domain != ""
    ensures NormalizeDomain(domain, space) == if HasEmptyLabel(domain) then Err(EmptyLabel) else Ok(domain)
  {
    assert forall i | 0 <= i < |domain| :: domain[i] == low[|local| + 1 + i];
    TrimOfPlain(domain, space);
    LowerOfTidy(domain);
    DomainIs(domain, space);
  }

  /** A blank entry is skipped, one that is not an address in printable ASCII is a defect. */
  lemma BlankOrShapeless(raw: string, space: Spaces)
    ensures var e := TrimSpace(raw, space);
            && (e == "" <==> AdminEmail(raw, space) == Blank)
            && (e != "" && !Printable(e) <==> AdminEmail(raw, space) == Bad(AdminNotASCII))
            && (e != "" && Printable(e) && !OneAt(Strings.Lower(e)) <==> AdminEmail(raw, space) == Bad(AdminShape))
  {
    assert Printable(TrimSpace(raw, space)) <==> IsPlainASCII(TrimSpace(raw, space));
  }

  /** Any other is judged by the domain behind its '@', and taken in lower case. */
  lemma AdminEntryIs(raw: string, local: string, domain: string, space: Spaces)
    requires IsSpaceTest(space) && '@' !in local && '@' !in domain && local != "" && domain != ""
    requires Printable(TrimSpace(raw, space)) && Strings.Lower(TrimSpace(raw, space)) == local + "@" + domain
    ensures AdminEmail(raw, space) ==
            if HasEmptyLabel(domain) then Bad(AdminDomain)
            else if !IsReserved(domain) then Bad(AdminNotReserved) else Good(local + "@" + domain)
  {
    var e := TrimSpace(raw, space);
    BlankOrShapeless(raw, space);
    LowerOfPlain(e);
    AddressParts(Strings.Lower(e), local, domain);
    TidyDomain(Strings.Lower(e), local, domain, space);
  }

  /** A refused list is refused at its first bad entry, by position. */
  lemma {:induction false} FirstBadIs(es: seq<Entry>, i: nat, k: nat, defect: Defect)
    requires i <= |es|
    ensures Collect(es, i) == Err(AdminEntry(k, defect)) <==>
            i <= k < |es| && es[k] == Bad(defect) && forall j | i <= j < k :: !es[j].Bad?
    decreases |es| - i
  {
    if i < |es| { FirstBadIs(es, i + 1, k, defect); }
  }

  lemma AdminsRefusedAt(raw: seq<string>, k: nat, defect: Defect, space: Spaces)
    ensures Admins(raw, space) == Err(AdminEntry(k, defect)) <==>
            && k < |raw| && AdminEmail(raw[k], space) == Bad(defect)
            && forall j | 0 <= j < k :: !AdminEmail(raw[j], space).Bad?
  {
    FirstBadIs(Entries(raw, space), 0, k, defect);
  }

  // ---- the fold of the Google domains ------------------------------------------

  /** A tag from the first plus on is dropped. */
  lemma TagIsDropped(a: string, tag: string)
    requires '+' !in a
    ensures FoldLocal(a + "+" + tag) == FoldLocal(a)
  {
    var s := a + "+" + tag;
    assert s[|a|] == '+' && forall j | 0 <= j < |a| :: s[j] == a[j] && a[j] in a;
    IndexIs(s, '+', |a|);
    assert s[..|a|] == a;
  }

  lemma {:induction false} WithoutConcat(a: string, b: string, c: char)
    ensures Without(a + b, c) == Without(a, c) + Without(b, c)
  {
    if a == "" {
      assert a + b == b;
    } else {
      assert (a + b)[1..] == a[1..] + b && (a + b)[0] == a[0];
      WithoutConcat(a[1..], b, c);
      var head := if a[0] == c then "" else [a[0]];
      assert Without(a + b, c) == head + Without(a[1..] + b, c) && Without(a, c) == head + Without(a[1..], c);
    }
  }

  lemma DotIsLost(a: string)
    ensures Without(a + ".", '.') == Without(a, '.')
  {
    WithoutConcat(a, ".", '.');
    assert "."[1..] == "" && Without(".", '.') == "";
  }

  lemma FoldBeforePlus(a: string, b: string)
    requires '+' !in a
    ensures FoldLocal(a + b) == Without(a, '.') + FoldLocal(b)
  {
    BeforePlus(a, b);
    WithoutConcat(a, Before(b, '+'), '.');
  }

  /** So is a dot before it, one at a time. */
  lemma DotIsDropped(a: string, b: string)
    requires '+' !in a
    ensures FoldLocal(a + "." + b) == FoldLocal(a + b)
  {
    FoldBeforePlus(a + ".", b);
    FoldBeforePlus(a, b);
    DotIsLost(a);
  }

  lemma BeforePlus(a: string, b: string)
    requires '+' !in a
    ensures Before(a + b, '+') == a + Before(b, '+')
  {
    var s := a + b;
    if '+' in b {
      var k := IndexOf(b, '+');
      assert s[|a| + k] == '+';
      assert forall j | 0 <= j < |a| + k :: if j < |a| then s[j] == a[j] && a[j] in a else s[j] == b[j - |a|];
      IndexIs(s, '+', |a| + k);
      assert s[..|a| + k] == a + b[..k];
    } else {
      assert '+' !in s;
    }
  }

  /** What has neither is kept. */
  lemma OthersAreKept(a: string)
    requires '+' !in a && '.' !in a
    ensures FoldLocal(a) == a
  {
    WithoutNothing(a, '.');
  }

  lemma FoldIs(local: string, domain: string)
    ensures Fold(local, domain) ==
            if domain != "gmail.com" && domain != "googlemail.com" then Some(local + "@" + domain)
            else if FoldLocal(local) == "" then None else Some(FoldLocal(local) + "@gmail.com")
  {
    assert domain in FOLDED <==> domain == "gmail.com" || domain == "googlemail.com";
    assert FoldLocal(local) + "@" + FOLDED[0] == FoldLocal(local) + "@gmail.com";
  }

  /** An address is nothing, its lower case, or its fold at gmail.com. */
  lemma AddressIs(raw: string, local: string, domain: string, space: Spaces)
    requires IsSpaceTest(space)
    requires Printable(TrimSpace(raw, space)) && Strings.Lower(TrimSpace(raw, space)) == local + "@" + domain
    requires '@' !in local && '@' !in domain
    ensures NormalizeEmail(raw, space) ==
            if local == "" || HasEmptyLabel(domain) then None
            else if domain != "gmail.com" && domain != "googlemail.com" then Some(local + "@" + domain)
            else if FoldLocal(local) == "" then None else Some(FoldLocal(local) + "@gmail.com")
  {
    var s := TrimSpace(raw, space);
    assert Printable(s) <==> IsPlainASCII(s);
    LowerOfPlain(s);
    AddressParts(Strings.Lower(s), local, domain);
    if domain != "" { TidyDomain(Strings.Lower(s), local, domain, space); }
    FoldIs(local, domain);
  }

  /** Without exactly one '@', or with anything but printable ASCII inside, it is nothing. */
  lemma NoAddress(raw: string, space: Spaces)
    requires !Printable(TrimSpace(raw, space)) || !OneAt(Strings.Lower(TrimSpace(raw, space)))
    ensures NormalizeEmail(raw, space) == None
  {
    var s := TrimSpace(raw, space);
    assert Printable(s) <==> IsPlainASCII(s);
  }

  // ---- the start-up check ------------------------------------------------------

  /** The domain is judged first, then the list; an empty domain passes only where it is allowed. */
  lemma ValidateIs(domain: string, admins: seq<string>, allowEmptyDomain: bool, space: Spaces)
    ensures var d, n, list := TrimSpace(domain, space), NormalizeDomain(domain, space), Admins(admins, space);
            Validate(domain, admins, allowEmptyDomain, space) ==
            if d == "" && !allowEmptyDomain then Err(DomainEmpty)
            else if d != "" && n.Err? then Err(n.error)
            else if d != "" && !IsReserved(n.value) then Err(NotReserved)
            else if list.Err? then Err(list.error)
            else Ok(Config(if d == "" then "" else Strings.Lower(d), list.value))
  {
    DomainIs(domain, space);
  }

  // ---- the refused row ---------------------------------------------------------

  predicate SeatBefore(rows: seq<Row>, k: nat)
    requires k < |rows|
  {
    exists j :: 0 <= j < k && rows[j].seat == rows[k].seat
  }

  predicate AddressBefore(rows: seq<Row>, k: nat, n: string, space: Spaces)
    requires k < |rows|
  {
    exists j :: 0 <= j < k && Ext(rows[j], space) == Some(n)
  }

  /** What is wrong with row k, the rows before it being accepted: the first of ten faults that applies. */
  function Fault(domain: string, admins: set<string>, rows: seq<Row>, k: nat, space: Spaces): Option<RowError>
    requires k < |rows|
  {
    var seat := rows[k].seat;
    if !Printable(seat) then Some(SeatNotASCII)
    else if !ValidSeat(seat) then Some(SeatShape)
    else if SeatBefore(rows, k) then Some(DuplicateSeat)
    else if seat + "@" + domain in admins then Some(SeatIsAdmin)
    else if rows[k].external.None? then None
    else
      var n := Ext(rows[k], space);
      AddressFault(domain, admins, rows[k].external.value, n, n.Some? && AddressBefore(rows, k, n.value, space), space)
  }

  function AddressFault(domain: string, admins: set<string>, external: string, n: Option<string>, seen: bool,
                        space: Spaces)
    : Option<RowError>
  {
    var bare := TrimSpace(external, space);
    if bare == "" then Some(ExternalBlank)
    else if !Printable(bare) then Some(ExternalNotASCII)
    else if n.None? then Some(ExternalShape)
    else if Domain(n.value) == domain then Some(ExternalInDomain)
    else if n.value in admins then Some(ExternalIsAdmin)
    else if seen then Some(DuplicateExternal)
    else None
  }

  lemma AddressFaultIs(r: Roster, admins: set<string>, seat: string, external: string, seen: bool, space: Spaces)
    requires var n := NormalizeEmail(external, space); n.Some? ==> (seen <==> n.value in r.external)
    ensures var got, n := AddExternal(r, admins, seat, external, space), NormalizeEmail(external, space);
            AddressFault(r.domain, admins, external, n, seen, space) == if got.Rejected? then Some(got.why) else None
  {
    PrintableIs(TrimSpace(external, space));
    var n := NormalizeEmail(external, space);
    var got := AddExternal(r, admins, seat, external, space);
    if TrimSpace(external, space) == "" {
      assert got == Rejected(ExternalBlank);
    } else if !IsPlainASCII(TrimSpace(external, space)) {
      assert got == Rejected(ExternalNotASCII);
    } else if n.None? {
      assert got == Rejected(ExternalShape);
    } else {
      assert got.Added? <==> Domain(n.value) != r.domain && n.value !in admins && !seen;
    }
  }

  lemma PrintableIs(s: string)
    ensures Printable(s) <==> IsPlainASCII(s)
  {
  }

  lemma FaultIs(r: Roster, admins: set<string>, rows: seq<Row>, k: nat, space: Spaces)
    requires k < |rows|
    requires rows[k].seat in r.seats <==> SeatBefore(rows, k)
    requires forall n :: n in r.external <==> AddressBefore(rows, k, n, space)
    ensures AddRow(r, admins, rows[k], space).Rejected? <==> Fault(r.domain, admins, rows, k, space).Some?
    ensures AddRow(r, admins, rows[k], space).Rejected? ==>
              Fault(r.domain, admins, rows, k, space) == Some(AddRow(r, admins, rows[k], space).why)
  {
    var row := rows[k];
    assert Printable(row.seat) <==> IsPlainASCII(row.seat);
    if row.external.Some? {
      var n := Ext(row, space);
      AddressFaultIs(r.(seats := r.seats + {row.seat}), admins, row.seat, row.external.value,
                     n.Some? && AddressBefore(rows, k, n.value, space), space);
    }
  }

  lemma {:induction false} RefusedAfterPrefix(r: Roster, admins: set<string>, rows: seq<Row>, i: nat, k: nat,
                                              why: RowError, space: Spaces)
    requires i <= k < |rows|
    ensures AddRows(r, admins, rows, i, space) == Refused(BadRow(k, why)) <==>
            && AddRows(r, admins, rows[..k], i, space).Accepted?
            && AddRow(AddRows(r, admins, rows[..k], i, space).roster, admins, rows[k], space) == Rejected(why)
    decreases k - i
  {
    if i < k {
      if AddRow(r, admins, rows[i], space).Added? {
        RefusedAfterPrefix(AddRow(r, admins, rows[i], space).roster, admins, rows, i + 1, k, why, space);
      }
    } else if AddRow(r, admins, rows[i], space).Added? {
      RefusedLater(AddRow(r, admins, rows[i], space).roster, admins, rows, i + 1, space);
    }
  }

  lemma {:induction false} RefusedLater(r: Roster, admins: set<string>, rows: seq<Row>, i: nat, space: Spaces)
    requires i <= |rows|
    ensures var p := AddRows(r, admins, rows, i, space); p.Refused? ==> p.error.BadRow? && i <= p.error.index < |rows|
    decreases |rows| - i
  {
    if i < |rows| && AddRow(r, admins, rows[i], space).Added? {
      RefusedLater(AddRow(r, admins, rows[i], space).roster, admins, rows, i + 1, space);
    }
  }

  lemma RowRefusedAt(empty: Roster, admins: set<string>, rows: seq<Row>, k: nat, why: RowError, space: Spaces)
    requires empty.seats == {} && empty.external == map[] && k < |rows|
    ensures AddRows(empty, admins, rows, 0, space) == Refused(BadRow(k, why)) <==>
            && AddRows(empty, admins, rows[..k], 0, space).Accepted?
            && Fault(empty.domain, admins, rows, k, space) == Some(why)
  {
    RefusedAfterPrefix(empty, admins, rows, 0, k, why, space);
    AddRowsIff(empty, admins, rows[..k], 0, space);
    BeforeRow(empty, rows, k, space);
    FaultIs(WithAll(empty, rows[..k], 0, space), admins, rows, k, space);
  }

  lemma SeatsBefore(empty: Roster, rows: seq<Row>, k: nat, space: Spaces)
    requires empty.seats == {} && k < |rows|
    ensures var before := WithAll(empty, rows[..k], 0, space);
            before.domain == empty.domain && (rows[k].seat in before.seats <==> SeatBefore(rows, k))
  {
    WithAllSeats(empty, rows[..k], 0, space, rows[k].seat);
    assert forall j | 0 <= j < k :: rows[..k][j] == rows[j];
  }

  lemma AddressesBefore(empty: Roster, rows: seq<Row>, k: nat, n: string, space: Spaces)
    requires empty.external == map[] && k < |rows|
    ensures n in WithAll(empty, rows[..k], 0, space).external <==> AddressBefore(rows, k, n, space)
  {
    WithAllExternals(empty, rows[..k], 0, space, n);
    assert forall j | 0 <= j < k :: rows[..k][j] == rows[j];
  }

  lemma BeforeRow(empty: Roster, rows: seq<Row>, k: nat, space: Spaces)
    requires empty.seats == {} && empty.external == map[] && k < |rows|
    ensures var before := WithAll(empty, rows[..k], 0, space);
            && before.domain == empty.domain && (rows[k].seat in before.seats <==> SeatBefore(rows, k))
            && forall n :: n in before.external <==> AddressBefore(rows, k, n, space)
  {
    SeatsBefore(empty, rows, k, space);
    forall n ensures n in WithAll(empty, rows[..k], 0, space).external <==> AddressBefore(rows, k, n, space) {
      AddressesBefore(empty, rows, k, n, space);
    }
  }

  /** A table is refused at row k iff the rows before it would be accepted and k has that fault. */
  lemma RefusedAtRow(domain: string, admins: seq<string>, rows: seq<Row>, k: nat, why: RowError, space: Spaces)
    requires IsSpaceTest(space) && Validate(domain, admins, false, space).Ok? && k < |rows|
    ensures var cfg := Validate(domain, admins, false, space).value;
            Parse(domain, admins, rows, space) == Refused(BadRow(k, why)) <==>
            && (k == 0 || Parse(domain, admins, rows[..k], space).Accepted?)
            && Fault(cfg.domain, AdminSet(cfg.admins, space), rows, k, space) == Some(why)
  {
    var cfg := Validate(domain, admins, false, space).value;
    AdminsNormalise(domain, admins, space);
    RowRefusedAt(Roster(cfg.domain, {}, map[]), AdminSet(cfg.admins, space), rows, k, why, space);
  }

  /** Before any row is looked at, the configuration is. */
  lemma RefusedBeforeRows(domain: string, admins: seq<string>, rows: seq<Row>, space: Spaces)
    requires IsSpaceTest(space)
    ensures var p, cfg := Parse(domain, admins, rows, space), Validate(domain, admins, false, space);
            && (forall e :: p == Refused(BadConfig(e)) <==> cfg == Err(e))
            && (p == Refused(NoSeats) <==> cfg.Ok? && rows == [])
            && p != Refused(AdminNotNormal)
  {
    if Validate(domain, admins, false, space).Ok? {
      AdminsNormalise(domain, admins, space);
      var cfg := Validate(domain, admins, false, space).value;
      RefusedLater(Roster(cfg.domain, {}, map[]), AdminSet(cfg.admins, space), rows, 0, space);
    }
  }

  // ---- rows and resolution -----------------------------------------------------

  /** Each accepted row's address leads to that row's seat. */
  lemma {:induction false} RowsLead(r: Roster, rows: seq<Row>, i: nat, j: nat, space: Spaces)
    requires i <= j < |rows| && Ext(rows[j], space).Some?
    requires forall a, b | i <= a < b < |rows| :: !Clash(rows[a], rows[b], space)
    ensures Ext(rows[j], space).value in WithAll(r, rows, i, space).external
    ensures WithAll(r, rows, i, space).external[Ext(rows[j], space).value] == rows[j].seat
    decreases |rows| - i
  {
    var n := Ext(rows[j], space).value;
    if i < j {
      RowsLead(With(r, rows[i], space), rows, i + 1, j, space);
    } else {
      EntryStays(With(r, rows[i], space), rows, i + 1, n, space);
    }
  }

  lemma {:induction false} EntryStays(r: Roster, rows: seq<Row>, i: nat, n: string, space: Spaces)
    requires i <= |rows| && n in r.external && forall a | i <= a < |rows| :: Ext(rows[a], space) != Some(n)
    ensures n in WithAll(r, rows, i, space).external && WithAll(r, rows, i, space).external[n] == r.external[n]
    decreases |rows| - i
  {
    if i < |rows| { EntryStays(With(r, rows[i], space), rows, i + 1, n, space); }
  }

  lemma AcceptedRowsLead(domain: string, admins: seq<string>, rows: seq<Row>, j: nat, space: Spaces)
    requires IsSpaceTest(space) && Parse(domain, admins, rows, space).Accepted?
    requires j < |rows| && Ext(rows[j], space).Some?
    ensures var r := Parse(domain, admins, rows, space).roster;
            Ext(rows[j], space).value in r.external && r.external[Ext(rows[j], space).value] == rows[j].seat
  {
    ParseAcceptedIff(domain, admins, rows, space);
    var cfg := Validate(domain, admins, false, space).value;
    var empty := Roster(cfg.domain, {}, map[]);
    AddRowsIff(empty, AdminSet(cfg.admins, space), rows, 0, space);
    RowsLead(empty, rows, 0, j, space);
  }

  /** Who resolves: the seats' own spelling in the roster's domain, and the addresses of the table. */
  lemma ResolvesIff(r: Roster, admins: set<string>, raw: string, seat: string, space: Spaces)
    requires GoodRoster(r, admins)
    ensures Resolve(r, raw, space) == Some(seat) <==>
            exists n :: NormalizeEmail(raw, space) == Some(n)
                        && ((seat in r.seats && n == seat + "@" + r.domain)
                            || (n in r.external && r.external[n] == seat))
  {
    if NormalizeEmail(raw, space).Some? {
      var n := NormalizeEmail(raw, space).value;
      NormalizedIsEmail(raw, space);
      EmailParts(n);
      if seat in r.seats && n == seat + "@" + r.domain {
        SeatIsTidy(seat);
        PartsOf(seat, r.domain);
      }
    }
  }

  /** Who is an admin: exactly the spellings that normalise to a listed address. */
  lemma AdminIff(emails: seq<string>, raw: string, space: Spaces)
    requires IsSpaceTest(space) && forall e | e in emails :: IsAdminEmail(e)
    ensures IsAdmin(AdminSet(emails, space), raw, space) <==>
            exists e :: e in emails && NormalizeEmail(raw, space) == Some(e)
  {
    forall i | 0 <= i < |emails| ensures Normals(emails, space)[i] == Some(emails[i]) {
      AdminIsNormal(emails[i], space);
    }
    forall e ensures e in AdminSet(emails, space) <==> e in emails {
      if e in emails {
        var i :| 0 <= i < |emails| && emails[i] == e;
        assert Normals(emails, space)[i] == Some(e);
      }
    }
  }
}
