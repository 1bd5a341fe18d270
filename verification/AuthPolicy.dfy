/** The three doors of auth-policy: what oauth2-proxy answered, who that is, and the response with
    the identity headers it carries downstream. */
module AuthPolicy {
  import opened Identity
  import opened Roster
  import opened Wrappers

  type Headers = map<string, string>

  const EMAIL := "X-Auth-Request-Email"
  const USER := "X-Auth-Request-User"
  const PREFERRED := "X-Auth-Request-Preferred-Username"

  function Header(h: Headers, name: string): string { if name in h then h[name] else "" }

  /** What the subrequest to oauth2-proxy came to. */
  datatype Outcome = NotBuilt | Unreachable | Answered(status: int, headers: Headers)

  datatype Upstream = Known(headers: Headers) | Failed(status: int)

  function CallUpstream(o: Outcome): Upstream {
    match o
    case NotBuilt => Failed(500)
    case Unreachable => Failed(502)
    case Answered(status, headers) =>
      if status == 401 then Failed(401) else if status == 202 then Known(headers) else Failed(502)
  }

  datatype Response = Response(status: int, headers: Headers)

  function Deny(status: int): Response { Response(status, map[]) }

  function Stamp(seat: string, domain: string): Headers {
    map[EMAIL := Canonical(seat, domain), USER := seat, PREFERRED := seat]
  }

  function Propagate(src: Headers): Headers {
    var h: Headers := map[EMAIL := Header(src, EMAIL)];
    var h := if Header(src, USER) != "" then h[USER := Header(src, USER)] else h;
    if Header(src, PREFERRED) != "" then h[PREFERRED := Header(src, PREFERRED)] else h
  }

  /** The roster may be missing: it then resolves nobody. */
  function ResolveIn(r: Option<Roster>, raw: string, space: Spaces): Option<string> {
    if r.None? then None else Resolve(r.value, raw, space)
  }

  function DomainOf(r: Option<Roster>): string { if r.None? then "" else r.value.domain }

  datatype Policy = Policy(admins: set<string>, roster: Option<Roster>)

  function Workspace(p: Policy, host: string, o: Outcome, space: Spaces): Response {
    if host == "" || !ValidSeat(host) then Deny(400)
    else match CallUpstream(o)
      case Failed(status) => Deny(status)
      case Known(headers) =>
        var email := Header(headers, EMAIL);
        if IsAdmin(p.admins, email, space) then Deny(403)
        else match ResolveIn(p.roster, email, space)
          case None => Deny(403)
          case Some(seat) => if seat != host then Deny(403) else Response(200, Stamp(seat, DomainOf(p.roster)))
  }

  function Participant(p: Policy, o: Outcome, space: Spaces): Response {
    match CallUpstream(o)
    case Failed(status) => Deny(status)
    case Known(headers) =>
      var email := Header(headers, EMAIL);
      if IsAdmin(p.admins, email, space) then Response(200, Propagate(headers))
      else match ResolveIn(p.roster, email, space)
        case None => Deny(403)
        case Some(seat) => Response(200, Stamp(seat, DomainOf(p.roster)))
  }

  function Admin(p: Policy, o: Outcome, space: Spaces): Response {
    match CallUpstream(o)
    case Failed(status) => Deny(status)
    case Known(headers) =>
      if IsAdmin(p.admins, Header(headers, EMAIL), space) then Response(200, Propagate(headers)) else Deny(403)
  }

  /** The response under construction. */
  class Writer {
    var status: int
    var headers: Headers

    constructor ()
      ensures status == 0 && headers == map[]
    {
      status, headers := 0, map[];
    }

    method Set(name: string, value: string)
      modifies this
      ensures headers == old(headers)[name := value] && status == old(status)
    {
      headers := headers[name := value];
    }

    method Write(code: int)
      modifies this
      ensures status == code && headers == old(headers)
    {
      status := code;
    }
  }

  class Handler {
    var adminSet: set<string>
    const roster: Option<Roster>
    const space: Spaces

    ghost function Abs(): Policy
      reads this
    {
      Policy(adminSet, roster)
    }

    /** NewHandler: an address that does not normalise can match nobody. */
    constructor (admins: seq<string>, roster: Option<Roster>, space: Spaces)
      ensures Abs() == Policy(AdminSet(admins, space), roster) && this.space == space
    {
      this.roster, this.space := roster, space;
      new;
      var all, filled := FillAdminSet(Normals(admins, space));
      adminSet := filled;
    }

    method StampCanonical(w: Writer, seat: string)
      requires w.headers == map[]
      modifies w
      ensures w.headers == Stamp(seat, DomainOf(roster)) && w.status == old(w.status)
    {
      w.Set(EMAIL, Canonical(seat, DomainOf(roster)));
      w.Set(USER, seat);
      w.Set(PREFERRED, seat);
    }

    method PropagateIdentity(w: Writer, src: Headers)
      requires w.headers == map[]
      modifies w
      ensures w.headers == Propagate(src) && w.status == old(w.status)
    {
      w.Set(EMAIL, Header(src, EMAIL));
      if Header(src, USER) != "" {
        w.Set(USER, Header(src, USER));
      }
      if Header(src, PREFERRED) != "" {
        w.Set(PREFERRED, Header(src, PREFERRED));
      }
    }

    method CheckWorkspace(w: Writer, host: string, o: Outcome)
      requires w.headers == map[]
      modifies w
      ensures Response(w.status, w.headers) == Workspace(Abs(), host, o, space)
    {
      if host == "" || !ValidSeat(host) {
        w.Write(400);
        return;
      }
      var up := CallUpstream(o);
      if up.Failed? {
        w.Write(up.status);
        return;
      }
      var email := Header(up.headers, EMAIL);
      if IsAdmin(adminSet, email, space) {
        w.Write(403);
        return;
      }
      var seat := ResolveIn(roster, email, space);
      if seat.None? || seat.value != host {
        w.Write(403);
        return;
      }
      StampCanonical(w, seat.value);
      w.Write(200);
    }

    method CheckParticipant(w: Writer, o: Outcome)
      requires w.headers == map[]
      modifies w
      ensures Response(w.status, w.headers) == Participant(Abs(), o, space)
    {
      var up := CallUpstream(o);
      if up.Failed? {
        w.Write(up.status);
        return;
      }
      var email := Header(up.headers, EMAIL);
      if IsAdmin(adminSet, email, space) {
        PropagateIdentity(w, up.headers);
        w.Write(200);
        return;
      }
      var seat := ResolveIn(roster, email, space);
      if seat.None? {
        w.Write(403);
        return;
      }
      StampCanonical(w, seat.value);
      w.Write(200);
    }

    method CheckAdmin(w: Writer, o: Outcome)
      requires w.headers == map[]
      modifies w
      ensures Response(w.status, w.headers) == Admin(Abs(), o, space)
    {
      var up := CallUpstream(o);
      if up.Failed? {
        w.Write(up.status);
        return;
      }
      if !IsAdmin(adminSet, Header(up.headers, EMAIL), space) {
        w.Write(403);
        return;
      }
      PropagateIdentity(w, up.headers);
      w.Write(200);
    }
  }

  // ---- who passes which door -------------------------------------------------

  predicate SignedIn(o: Outcome) { o.Answered? && o.status == 202 }

  ghost predicate GoodPolicy(p: Policy) { p.roster.Some? ==> GoodRoster(p.roster.value, p.admins) }

  function Email(o: Outcome): string { if o.Answered? then Header(o.headers, EMAIL) else "" }

  /** A workspace opens to the identity that resolves to exactly that seat, and no other. */
  lemma WorkspaceOpensIff(p: Policy, host: string, o: Outcome, space: Spaces)
    requires GoodPolicy(p)
    ensures Workspace(p, host, o, space).status == 200
            <==> SignedIn(o) && ResolveIn(p.roster, Email(o), space) == Some(host)
    ensures Workspace(p, host, o, space).headers
            == if Workspace(p, host, o, space).status == 200 then Stamp(host, p.roster.value.domain) else map[]
  {
    if SignedIn(o) && ResolveIn(p.roster, Email(o), space) == Some(host) {
      AdminsHaveNoSeat(p.roster.value, p.admins, Email(o), space);
      SeatedIsValid(p.roster.value, p.admins, Email(o), host, space);
    }
  }

  lemma SeatedIsValid(r: Roster, admins: set<string>, raw: string, seat: string, space: Spaces)
    requires GoodRoster(r, admins) && Resolve(r, raw, space) == Some(seat)
    ensures ValidSeat(seat) && seat in r.seats
  {
    var n := NormalizeEmail(raw, space).value;
    assert Seat(r, n) == Some(seat);
  }

  /** The portal opens to admins and seated identities; only an admin's headers are the upstream's. */
  lemma ParticipantOpensIff(p: Policy, o: Outcome, space: Spaces)
    requires GoodPolicy(p)
    ensures Participant(p, o, space).status == 200 <==>
            SignedIn(o) && (IsAdmin(p.admins, Email(o), space) || ResolveIn(p.roster, Email(o), space).Some?)
    ensures forall host | Workspace(p, host, o, space).status == 200 ::
              Participant(p, o, space) == Workspace(p, host, o, space)
  {
  }

  /** Nobody passes both the operator's door and some seat's. */
  lemma OperatorsReachNoSeat(p: Policy, host: string, o: Outcome, space: Spaces)
    ensures !(Admin(p, o, space).status == 200 && Workspace(p, host, o, space).status == 200)
    ensures Admin(p, o, space).status == 200 <==> SignedIn(o) && IsAdmin(p.admins, Email(o), space)
  {
  }

  lemma Opened(p: Policy, host: string, o: Outcome, space: Spaces)
    requires GoodPolicy(p) && SignedIn(o) && ResolveIn(p.roster, Email(o), space) == Some(host)
    ensures Workspace(p, host, o, space) == Response(200, Stamp(host, DomainOf(p.roster)))
    ensures Participant(p, o, space) == Workspace(p, host, o, space)
  {
    WorkspaceOpensIff(p, host, o, space);
    ParticipantOpensIff(p, o, space);
  }

  lemma StampResolves(p: Policy, host: string, raw: string, space: Spaces)
    requires IsSpaceTest(space) && GoodPolicy(p) && ResolveIn(p.roster, raw, space) == Some(host)
    ensures ResolveIn(p.roster, Header(Stamp(host, DomainOf(p.roster)), EMAIL), space) == Some(host)
  {
    SeatedIsValid(p.roster.value, p.admins, raw, host, space);
    CanonicalResolves(p.roster.value, p.admins, host, space);
  }

  /** The stamped headers, sent in again, get the same answer. */
  lemma StampedAgain(p: Policy, host: string, o: Outcome, space: Spaces)
    requires IsSpaceTest(space) && GoodPolicy(p) && Workspace(p, host, o, space).status == 200
    ensures var again := Answered(202, Workspace(p, host, o, space).headers);
            && Workspace(p, host, again, space) == Workspace(p, host, o, space)
            && Participant(p, again, space) == Participant(p, o, space)
  {
    WorkspaceOpensIff(p, host, o, space);
    Opened(p, host, o, space);
    StampResolves(p, host, Email(o), space);
    Opened(p, host, Answered(202, Stamp(host, DomainOf(p.roster))), space);
  }

  // ---- the answers, by status and header ---------------------------------------

  /** What a door answers when the subrequest did not sign anybody in. */
  predicate Refused(o: Outcome, status: int) {
    match o
    case NotBuilt => status == 500
    case Unreachable => status == 502
    case Answered(code, _) => code != 202 && status == if code == 401 then 401 else 502
  }

  /** The status of each door: a bad seat name before anything else, then the upstream's refusal, then who
      it is. Only an opened door sends headers. */
  lemma StatusesAre(p: Policy, host: string, o: Outcome, space: Spaces)
    requires GoodPolicy(p)
    ensures var r := Workspace(p, host, o, space);
            && (!ValidSeat(host) ==> r.status == 400)
            && (ValidSeat(host) && !SignedIn(o) ==> Refused(o, r.status))
            && (ValidSeat(host) && SignedIn(o) ==>
                  r.status == if ResolveIn(p.roster, Email(o), space) == Some(host) then 200 else 403)
            && (r.status != 200 ==> r.headers == map[])
    ensures var r := Participant(p, o, space);
            && (!SignedIn(o) ==> Refused(o, r.status))
            && (SignedIn(o) ==>
                  r.status == if IsAdmin(p.admins, Email(o), space) || ResolveIn(p.roster, Email(o), space).Some?
                              then 200 else 403)
            && (r.status != 200 ==> r.headers == map[])
    ensures var r := Admin(p, o, space);
            && (!SignedIn(o) ==> Refused(o, r.status))
            && (SignedIn(o) ==> r.status == if IsAdmin(p.admins, Email(o), space) then 200 else 403)
            && (r.status != 200 ==> r.headers == map[])
  {
    if SignedIn(o) && ResolveIn(p.roster, Email(o), space) == Some(host) {
      WorkspaceOpensIff(p, host, o, space);
      SeatedIsValid(p.roster.value, p.admins, Email(o), host, space);
    }
    assert !ValidSeat("");
  }

  /** A seat's headers are its canonical address and, twice, its name; nothing of the upstream's. */
  predicate SeatHeaders(h: Headers, seat: string, domain: string) {
    && h.Keys == {"X-Auth-Request-Email", "X-Auth-Request-User", "X-Auth-Request-Preferred-Username"}
    && h["X-Auth-Request-Email"] == seat + "@" + domain
    && h["X-Auth-Request-User"] == seat && h["X-Auth-Request-Preferred-Username"] == seat
  }

  /** An admin's are the upstream's: the address always, the two names where they are not empty. */
  predicate UpstreamHeaders(h: Headers, up: Headers) {
    && h.Keys <= {"X-Auth-Request-Email", "X-Auth-Request-User", "X-Auth-Request-Preferred-Username"}
    && "X-Auth-Request-Email" in h
    && (forall name | name in h :: h[name] == if name in up then up[name] else "")
    && ("X-Auth-Request-User" in h <==> "X-Auth-Request-User" in up && up["X-Auth-Request-User"] != "")
    && ("X-Auth-Request-Preferred-Username" in h <==>
          "X-Auth-Request-Preferred-Username" in up && up["X-Auth-Request-Preferred-Username"] != "")
  }

  lemma NamesDiffer()
    ensures EMAIL != USER && USER != PREFERRED && EMAIL != PREFERRED
  {
    assert |EMAIL| == 20 && |USER| == 19 && |PREFERRED| == 33;
  }

  lemma StampIs(seat: string, domain: string)
    ensures SeatHeaders(Stamp(seat, domain), seat, domain)
  {
    NamesDiffer();
  }

  lemma PropagatedIs(up: Headers)
    ensures UpstreamHeaders(Propagate(up), up)
  {
    NamesDiffer();
  }

  lemma WorkspaceSends(p: Policy, host: string, o: Outcome, space: Spaces)
    requires GoodPolicy(p) && SignedIn(o) && Workspace(p, host, o, space).status == 200
    ensures p.roster.Some? && SeatHeaders(Workspace(p, host, o, space).headers, host, p.roster.value.domain)
  {
    WorkspaceOpensIff(p, host, o, space);
    StampIs(host, DomainOf(p.roster));
  }

  lemma AdminSends(p: Policy, o: Outcome, space: Spaces)
    requires SignedIn(o) && Admin(p, o, space).status == 200
    ensures UpstreamHeaders(Admin(p, o, space).headers, o.headers)
    ensures Participant(p, o, space).headers == Admin(p, o, space).headers
  {
    PropagatedIs(o.headers);
  }

  lemma SeatedSends(p: Policy, o: Outcome, space: Spaces)
    requires GoodPolicy(p) && SignedIn(o)
    requires Participant(p, o, space).status == 200 && Admin(p, o, space).status != 200
    ensures var seat := ResolveIn(p.roster, Email(o), space);
            seat.Some? && p.roster.Some?
            && SeatHeaders(Participant(p, o, space).headers, seat.value, p.roster.value.domain)
  {
    OperatorsReachNoSeat(p, "", o, space);
    ParticipantOpensIff(p, o, space);
    var seat := ResolveIn(p.roster, Email(o), space).value;
    Opened(p, seat, o, space);
    StampIs(seat, DomainOf(p.roster));
  }

  /** What an opened door sends. */
  lemma HeadersAre(p: Policy, host: string, o: Outcome, space: Spaces)
    requires GoodPolicy(p) && SignedIn(o)
    ensures Workspace(p, host, o, space).status == 200 ==>
              p.roster.Some? && SeatHeaders(Workspace(p, host, o, space).headers, host, p.roster.value.domain)
    ensures Admin(p, o, space).status == 200 ==>
              && UpstreamHeaders(Admin(p, o, space).headers, o.headers)
              && Participant(p, o, space).headers == Admin(p, o, space).headers
    ensures Participant(p, o, space).status == 200 && Admin(p, o, space).status != 200 ==>
              var seat := ResolveIn(p.roster, Email(o), space);
              && seat.Some? && p.roster.Some?
              && SeatHeaders(Participant(p, o, space).headers, seat.value, p.roster.value.domain)
  {
    if Workspace(p, host, o, space).status == 200 { WorkspaceSends(p, host, o, space); }
    if Admin(p, o, space).status == 200 {
      AdminSends(p, o, space);
    } else if Participant(p, o, space).status == 200 {
      SeatedSends(p, o, space);
    }
  }
}
