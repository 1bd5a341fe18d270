/** The identity contract: seats, reserved domains, the canonical form, and the start-up check of
    ADMIN_EMAILS. `space` is unicode.IsSpace, of which only this is used: no printable ASCII
    character is a space. */
module Identity {
  import Strings
  import opened Wrappers


  datatype Error =
    | DomainEmpty
    | NotASCII
    | HasAt
    | EmptyLabel
    | NotReserved
    | AdminEntry(index: nat, defect: Defect)

  datatype Defect = AdminNotASCII | AdminShape | AdminDomain | AdminNotReserved

  type Spaces = char -> bool

  predicate Plain(c: char) { '!' <= c <= '~' }

  ghost predicate IsSpaceTest(space: Spaces) { forall c | Plain(c) :: !space(c) }

  predicate IsPlainASCII(s: string) { forall i | 0 <= i < |s| :: Plain(s[i]) }

  function TrimLeft(s: string, space: Spaces): (r: string)
    ensures r == "" || !space(r[0])
    ensures s != "" && !space(s[0]) ==> r == s
  {
    if s != "" && space(s[0]) then TrimLeft(s[1..], space) else s
  }

  function TrimRight(s: string, space: Spaces): (r: string)
    ensures r == "" || !space(r[|r| - 1])
    ensures s != "" && !space(s[|s| - 1]) ==> r == s
    ensures |r| <= |s| && s[..|r|] == r
    decreases |s|
  {
    if s != "" && space(s[|s| - 1]) then TrimRight(s[..|s| - 1], space) else s
  }

  function TrimSpace(s: string, space: Spaces): string { TrimRight(TrimLeft(s, space), space) }

  lemma TrimOfPlain(s: string, space: Spaces)
    requires IsSpaceTest(space) && IsPlainASCII(s)
    ensures TrimSpace(s, space) == s
  {
    if s != "" { assert Plain(s[0]) && Plain(s[|s| - 1]); }
  }

  // ---- lower case ------------------------------------------------------------

  /** Printable ASCII with no capital. */
  predicate Tidy(s: string) { forall i | 0 <= i < |s| :: Plain(s[i]) && !('A' <= s[i] <= 'Z') }

  lemma {:induction false} LowerOfPlain(s: string)
    requires IsPlainASCII(s)
    ensures Tidy(Strings.Lower(s)) && |Strings.Lower(s)| == |s|
    ensures forall i | 0 <= i < |s| && !('A' <= s[i] <= 'Z') :: Strings.Lower(s)[i] == s[i]
  {
    if s != "" {
      assert forall i | 0 <= i < |s| - 1 :: s[1..][i] == s[i + 1];
      LowerOfPlain(s[1..]);
      assert forall i | 0 < i < |s| :: Strings.Lower(s)[i] == Strings.Lower(s[1..])[i - 1];
      assert Plain(s[0]);
    }
  }

  lemma {:induction false} LowerOfTidy(s: string)
    requires Tidy(s)
    ensures Strings.Lower(s) == s
  {
    if s != "" {
      assert forall i | 0 <= i < |s| - 1 :: s[1..][i] == s[i + 1];
      LowerOfTidy(s[1..]);
      assert Plain(s[0]);
    }
  }

  // ---- domains ---------------------------------------------------------------

  const RESERVED := ["local", "test", "invalid", "example", "localhost"]

  function NormalizeDomain(raw: string, space: Spaces): Result<string, Error> {
    var d := TrimSpace(raw, space);
    if d == "" then Err(DomainEmpty)
    else if !IsPlainASCII(d) then Err(NotASCII)
    else
      var low := Strings.Lower(d);
      if '@' in low then Err(HasAt)
      else if "" in Strings.Split(low, '.') then Err(EmptyLabel)
      else Ok(low)
  }

  /** What NormalizeDomain answers with. */
  predicate IsDomain(d: string) { d != "" && Tidy(d) && '@' !in d && "" !in Strings.Split(d, '.') }

  lemma NormalizedDomain(raw: string, space: Spaces)
    requires NormalizeDomain(raw, space).Ok?
    ensures IsDomain(NormalizeDomain(raw, space).value)
  {
    LowerOfPlain(TrimSpace(raw, space));
  }

  lemma NormalizeOfDomain(d: string, space: Spaces)
    requires IsSpaceTest(space) && IsDomain(d)
    ensures NormalizeDomain(d, space) == Ok(d)
  {
    TrimOfPlain(d, space);
    LowerOfTidy(d);
  }

  function LastIndex(s: string, c: char): (i: int)
    ensures -1 <= i < |s| && (i >= 0 ==> s[i] == c) && forall j | i < j < |s| :: s[j] != c
  {
    if s == "" then -1 else if s[|s| - 1] == c then |s| - 1 else LastIndex(s[..|s| - 1], c)
  }

  function LastLabel(domain: string): string { domain[LastIndex(domain, '.') + 1..] }

  predicate IsReserved(domain: string) { LastLabel(domain) in RESERVED }

  lemma LastAfterDot(a: string, b: string)
    requires '.' !in b
    ensures var labels := Strings.Split(a + ['.'] + b, '.'); labels[|labels| - 1] == b
  {
    Strings.SplitOfAppend(a, b, '.');
    Strings.SplitOfOne(b, '.');
  }

  lemma CutAt(s: string, i: nat, c: char)
    requires i < |s| && s[i] == c && forall j | i < j < |s| :: s[j] != c
    ensures s == s[..i] + [c] + s[i + 1..] && c !in s[i + 1..]
  {
    var after := s[i + 1..];
    assert forall k | 0 <= k < |after| :: after[k] == s[i + 1 + k];
  }

  /** The last label is the last element of the split. */
  lemma LastLabelIsLastElement(domain: string)
    ensures var labels := Strings.Split(domain, '.'); LastLabel(domain) == labels[|labels| - 1]
  {
    var i := LastIndex(domain, '.');
    if i >= 0 {
      CutAt(domain, i, '.');
      LastAfterDot(domain[..i], domain[i + 1..]);
    } else {
      Strings.SplitOfOne(domain, '.');
      assert domain[0..] == domain;
    }
  }

  function CheckReservedDomain(domain: string): Result<(), Error> {
    if IsReserved(domain) then Ok(()) else Err(NotReserved)
  }

  function Canonical(seat: string, domain: string): string { seat + "@" + domain }

  // ---- seats -----------------------------------------------------------------

  predicate Alphanumeric(c: char) { 'a' <= c <= 'z' || '0' <= c <= '9' }

  /** `^[a-z0-9]([a-z0-9-]{0,51}[a-z0-9])?$` */
  predicate ValidSeat(s: string) {
    && 1 <= |s| <= 53 && Alphanumeric(s[0]) && Alphanumeric(s[|s| - 1])
    && forall i | 0 <= i < |s| :: Alphanumeric(s[i]) || s[i] == '-'
  }

  lemma SeatIsTidy(s: string)
    requires ValidSeat(s)
    ensures Tidy(s) && '@' !in s && '.' !in s && '+' !in s
  {
  }

  // ---- ADMIN_EMAILS ----------------------------------------------------------

  function IndexOf(s: string, c: char): (i: int)
    ensures -1 <= i < |s| && (i >= 0 ==> s[i] == c)
    ensures forall j | 0 <= j < |s| && (i < 0 || j < i) :: s[j] != c
  {
    if s == "" then -1
    else if s[0] == c then 0
    else
      var r := IndexOf(s[1..], c);
      assert forall j | 0 < j < |s| :: s[j] == s[1..][j - 1];
      if r < 0 then -1 else r + 1
  }

  /** Exactly one '@', with something on either side. */
  predicate OneAt(s: string) {
    var at := IndexOf(s, '@');
    at > 0 && at == LastIndex(s, '@') && at != |s| - 1
  }

  lemma OneAtIff(local: string, domain: string)
    requires '@' !in local && '@' !in domain
    ensures OneAt(local + "@" + domain) <==> local != "" && domain != ""
    ensures IndexOf(local + "@" + domain, '@') == |local|
  {
    var s := local + "@" + domain;
    forall j | 0 <= j < |s| && j != |local| ensures s[j] != '@' {
      AtIsNowhereElse(local, domain, j);
    }
    OneAtOf(s, |local|);
  }

  lemma AtIsNowhereElse(local: string, domain: string, j: nat)
    requires '@' !in local && '@' !in domain && j < |local| + 1 + |domain| && j != |local|
    ensures (local + "@" + domain)[j] != '@'
  {
    if j < |local| {
      assert local[j] in local;
    } else {
      assert domain[j - |local| - 1] in domain;
    }
  }

  lemma OneAtOf(s: string, k: nat)
    requires k < |s| && s[k] == '@' && forall j | 0 <= j < |s| && j != k :: s[j] != '@'
    ensures (OneAt(s) <==> 0 < k < |s| - 1) && IndexOf(s, '@') == k
  {
    IndexIs(s, '@', k);
  }

  lemma IndexIs(s: string, c: char, k: nat)
    requires k < |s| && s[k] == c
    ensures (forall j | 0 <= j < k :: s[j] != c) ==> IndexOf(s, c) == k
    ensures (forall j | k < j < |s| :: s[j] != c) ==> LastIndex(s, c) == k
  {
    var i, l := IndexOf(s, c), LastIndex(s, c);
    assert i >= 0 && l >= 0;
    assert i < k ==> s[i] == c;
    assert l > k ==> s[l] == c;
  }

  lemma OneAtSplits(s: string)
    requires OneAt(s)
    ensures var at := IndexOf(s, '@');
            && s == s[..at] + "@" + s[at + 1..] && s[..at] != "" && s[at + 1..] != ""
            && '@' !in s[..at] && '@' !in s[at + 1..]
  {
    var at := IndexOf(s, '@');
    assert forall j | 0 <= j < at :: s[..at][j] == s[j];
    assert forall j | at < j < |s| :: s[at + 1..][j - at - 1] == s[j];
  }

  /** One entry: None where it is blank. */
  datatype Entry = Blank | Bad(defect: Defect) | Good(email: string)

  function AdminEmail(raw: string, space: Spaces): Entry {
    var e := TrimSpace(raw, space);
    if e == "" then Blank
    else if !IsPlainASCII(e) then Bad(AdminNotASCII)
    else
      var low := Strings.Lower(e);
      if !OneAt(low) then Bad(AdminShape)
      else
        var domain := NormalizeDomain(low[IndexOf(low, '@') + 1..], space);
        if domain.Err? then Bad(AdminDomain)
        else if CheckReservedDomain(domain.value).Err? then Bad(AdminNotReserved)
        else Good(low)
  }

  function Entries(raw: seq<string>, space: Spaces): (es: seq<Entry>)
    ensures |es| == |raw| && forall i | 0 <= i < |raw| :: es[i] == AdminEmail(raw[i], space)
  {
    seq(|raw|, i requires 0 <= i < |raw| => AdminEmail(raw[i], space))
  }

  /** The loop over the entries, from entry `i` on. */
  function Collect(es: seq<Entry>, i: nat): Result<seq<string>, Error>
    requires i <= |es|
    decreases |es| - i
  {
    if i == |es| then Ok([])
    else match es[i]
      case Bad(defect) => Err(AdminEntry(i, defect))
      case Blank => Collect(es, i + 1)
      case Good(email) => var rest := Collect(es, i + 1); if rest.Err? then rest else Ok([email] + rest.value)
  }

  function Admins(raw: seq<string>, space: Spaces): Result<seq<string>, Error> { Collect(Entries(raw, space), 0) }

  function Put(out: seq<string>, r: Result<seq<string>, Error>): Result<seq<string>, Error> {
    if r.Err? then r else Ok(out + r.value)
  }

  lemma CollectNext(es: seq<Entry>, i: nat, out: seq<string>)
    requires i < |es|
    ensures Put(out, Collect(es, i)) ==
            match es[i]
            case Bad(defect) => Err(AdminEntry(i, defect))
            case Blank => Put(out, Collect(es, i + 1))
            case Good(email) => Put(out + [email], Collect(es, i + 1))
  {
    var rest := Collect(es, i + 1);
    if es[i].Good? && rest.Ok? { assert out + ([es[i].email] + rest.value) == out + [es[i].email] + rest.value; }
  }

  /** The loop of NormalizeAdminEmails, over the judged entries. */
  method CollectAdmins(es: seq<Entry>) returns (r: Result<seq<string>, Error>)
    ensures r == Collect(es, 0)
  {
    var out: seq<string> := [];
    if Collect(es, 0).Ok? { assert [] + Collect(es, 0).value == Collect(es, 0).value; }
    for i := 0 to |es|
      invariant Put(out, Collect(es, i)) == Collect(es, 0)
    {
      CollectNext(es, i, out);
      match es[i] {
        case Blank =>
        case Bad(defect) => return Err(AdminEntry(i, defect));
        case Good(email) => out := out + [email];
      }
    }
    assert out + [] == out;
    return Ok(out);
  }

  method NormalizeAdminEmails(raw: seq<string>, space: Spaces) returns (r: Result<seq<string>, Error>)
    ensures r == Admins(raw, space)
  {
    r := CollectAdmins(Entries(raw, space));
  }

  /** An accepted entry: printable lower-case ASCII, one '@', a reserved domain. */
  predicate IsAdminEmail(e: string) {
    && Tidy(e) && OneAt(e)
    && var domain := e[IndexOf(e, '@') + 1..]; IsDomain(domain) && IsReserved(domain)
  }

  lemma AdminDomainIff(low: string, space: Spaces)
    requires IsSpaceTest(space) && Tidy(low) && OneAt(low)
    ensures var domain := low[IndexOf(low, '@') + 1..];
            && (NormalizeDomain(domain, space).Ok? <==> IsDomain(domain))
            && (NormalizeDomain(domain, space).Ok? ==> NormalizeDomain(domain, space).value == domain)
  {
    OneAtSplits(low);
    var domain := low[IndexOf(low, '@') + 1..];
    assert Tidy(domain);
    TrimOfPlain(domain, space);
    LowerOfTidy(domain);
  }

  lemma AdminEmailIff(raw: string, space: Spaces)
    requires IsSpaceTest(space)
    ensures var e := TrimSpace(raw, space);
            (AdminEmail(raw, space).Good? <==> e != "" && IsPlainASCII(e) && IsAdminEmail(Strings.Lower(e)))
            && (AdminEmail(raw, space).Good? ==> AdminEmail(raw, space).email == Strings.Lower(e))
            && (AdminEmail(raw, space).Blank? <==> e == "")
  {
    var e := TrimSpace(raw, space);
    if e != "" && IsPlainASCII(e) {
      LowerOfPlain(e);
      if OneAt(Strings.Lower(e)) { AdminDomainIff(Strings.Lower(e), space); }
    }
  }

  lemma AdminEmailTwice(e: string, space: Spaces)
    requires IsSpaceTest(space) && IsAdminEmail(e)
    ensures AdminEmail(e, space) == Good(e)
  {
    TrimOfPlain(e, space);
    LowerOfTidy(e);
    AdminEmailIff(e, space);
  }

  lemma {:induction false} CollectHolds(es: seq<Entry>, i: nat)
    requires i <= |es|
    ensures Collect(es, i).Ok? <==> forall j | i <= j < |es| :: !es[j].Bad?
    ensures Collect(es, i).Ok? ==>
              forall e :: e in Collect(es, i).value <==> exists j | i <= j < |es| :: es[j] == Good(e)
    decreases |es| - i
  {
    if i < |es| { CollectHolds(es, i + 1); }
  }

  lemma {:induction false} CollectOfGood(es: seq<Entry>, emails: seq<string>, i: nat)
    requires |es| == |emails| && i <= |es| && forall j | 0 <= j < |es| :: es[j] == Good(emails[j])
    ensures Collect(es, i) == Ok(emails[i..])
    decreases |es| - i
  {
    if i < |es| {
      CollectOfGood(es, emails, i + 1);
      assert [emails[i]] + emails[i + 1..] == emails[i..];
    }
  }

  lemma AdminsAreGood(raw: seq<string>, space: Spaces)
    requires IsSpaceTest(space) && Admins(raw, space).Ok?
    ensures forall e | e in Admins(raw, space).value :: IsAdminEmail(e)
  {
    CollectHolds(Entries(raw, space), 0);
    forall e | e in Admins(raw, space).value ensures IsAdminEmail(e) {
      var j :| 0 <= j < |raw| && Entries(raw, space)[j] == Good(e);
      AdminEmailIff(raw[j], space);
    }
  }

  lemma AdminsTwice(es: seq<string>, space: Spaces)
    requires IsSpaceTest(space) && forall e | e in es :: IsAdminEmail(e)
    ensures Admins(es, space) == Ok(es)
  {
    forall j | 0 <= j < |es| ensures Entries(es, space)[j] == Good(es[j]) { AdminEmailTwice(es[j], space); }
    CollectOfGood(Entries(es, space), es, 0);
    assert es[0..] == es;
  }

  predicate AcceptedEntry(raw: string, space: Spaces) {
    var e := TrimSpace(raw, space); e == "" || (IsPlainASCII(e) && IsAdminEmail(Strings.Lower(e)))
  }

  /** The list is accepted iff each entry is blank or becomes an admin email. */
  lemma AdminsAcceptedIff(raw: seq<string>, space: Spaces)
    requires IsSpaceTest(space)
    ensures Admins(raw, space).Ok? <==> forall j | 0 <= j < |raw| :: AcceptedEntry(raw[j], space)
  {
    CollectHolds(Entries(raw, space), 0);
    forall j | 0 <= j < |raw| ensures AcceptedEntry(raw[j], space) <==> !Entries(raw, space)[j].Bad? {
      AdminEmailIff(raw[j], space);
    }
  }

  // ---- the start-up check ----------------------------------------------------

  datatype Config = Config(domain: string, admins: seq<string>)

  function Validate(domain: string, admins: seq<string>, allowEmptyDomain: bool, space: Spaces): Result<Config, Error> {
    var d: Result<string, Error> :=
      if TrimSpace(domain, space) == "" then (if allowEmptyDomain then Ok("") else Err(DomainEmpty))
      else
        var n := NormalizeDomain(domain, space);
        if n.Err? then n else if CheckReservedDomain(n.value).Err? then Err(NotReserved) else n;
    if d.Err? then Err(d.error)
    else match Admins(admins, space)
      case Err(e) => Err(e)
      case Ok(a) => Ok(Config(d.value, a))
  }

  /** A validated configuration names only reserved domains, and validating it again changes nothing. */
  lemma ValidatedConfig(domain: string, admins: seq<string>, space: Spaces)
    requires IsSpaceTest(space) && Validate(domain, admins, false, space).Ok?
    ensures var cfg := Validate(domain, admins, false, space).value;
            && IsDomain(cfg.domain) && IsReserved(cfg.domain)
            && (forall e | e in cfg.admins :: IsAdminEmail(e))
            && Validate(cfg.domain, cfg.admins, false, space) == Ok(cfg)
  {
    var cfg := Validate(domain, admins, false, space).value;
    NormalizedDomain(domain, space);
    NormalizeOfDomain(cfg.domain, space);
    TrimOfPlain(cfg.domain, space);
    AdminsAreGood(admins, space);
    AdminsTwice(cfg.admins, space);
  }
}
