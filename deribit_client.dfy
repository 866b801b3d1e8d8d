/**
 * DeribitAPI: authentication by an ordered list of strategies, the token's
 * validity window, request gating on a valid token, and the two account queries.
 * Each method of the class is specified by a function over the session fields and
 * the transport log; the properties of the protocol are lemmas about those functions.
 */
module DeribitClient {
  import opened Wrappers
  import opened Records
  import opened Network

  const DefaultExpiresIn := 900
  const ExpiryMargin := 60

  function BaseUrl(testnet: bool): string
  {
    if testnet then "https://test.deribit.com/api/v2" else "https://www.deribit.com/api/v2"
  }

  /** What an API object knows about its account. */
  datatype Credentials = Credentials(clientId: string, clientSecret: string, baseUrl: string)

  /** The mutable fields `access_token`, `refresh_token`, `token_expires_at`. */
  datatype Session = Session(accessToken: Option<string>, refreshToken: Option<string>, expiresAt: Option<int>)

  const NoSession := Session(None, None, None)

  /** The three strategies `authenticate` tries, in this order. */
  function AuthRequests(c: Credentials): seq<Request>
  {
    var url := c.baseUrl + "/public/auth";
    [ Get(url, [], [("client_id", c.clientId), ("client_secret", c.clientSecret),
                    ("grant_type", "client_credentials"), ("scope", "session:rest")]),
      PostJson(url, [("Content-Type", "application/json")], "2.0", "public/auth",
               [("grant_type", "client_credentials"), ("client_id", c.clientId),
                ("client_secret", c.clientSecret)]),
      Get(url, [], [("client_id", c.clientId), ("client_secret", c.clientSecret),
                    ("grant_type", "client_credentials")]) ]
  }

  /**
   * The token an auth reply grants: a reply that raises (connection failure, HTTP
   * error status, a body that is not JSON) or has no `result` grants nothing.
   */
  function Granted(reply: Reply<Token>): Option<Token>
  {
    match reply
    case ConnectionFailed => None
    case Response(status, body) =>
      if IsHttpError(status) then None
      else match body
        case NotJson => None
        case JsonObject(result) => result
  }

  /** The session a granted token establishes at time `now`. */
  function Establish(t: Token, now: int): Session
  {
    Session(Some(t.accessToken), Some(t.refreshToken), Some(now + t.expiresIn.GetOr(DefaultExpiresIn) - ExpiryMargin))
  }

  /**
   * `_is_token_valid`: both fields truthy and `now` strictly before the expiry. A
   * missing or empty access token, and a missing or zero expiry, make it false.
   */
  predicate SessionValid(s: Session, now: int)
    ensures s.accessToken.None? || s.accessToken == Some("") ==> !SessionValid(s, now)
    ensures s.expiresAt.None? || s.expiresAt == Some(0) ==> !SessionValid(s, now)
    ensures SessionValid(s, now) ==> now < s.expiresAt.value
  {
    s.accessToken.Some? && s.accessToken.value != "" &&
    s.expiresAt.Some? && s.expiresAt.value != 0 && now < s.expiresAt.value
  }

  /** The reply the j-th strategy receives when the strategies are sent in order after `log`. */
  function ReplyAt(server: Server<Token>, log: seq<Request>, reqs: seq<Request>, j: nat): Reply<Token>
    requires j < |reqs|
  {
    server(log + reqs[..j], reqs[j])
  }

  /** Once a session has stopped being valid it stays invalid at every later time. */
  lemma ExpiryIsFinal(s: Session, now: int, later: int)
    requires now <= later
    ensures !SessionValid(s, now) ==> !SessionValid(s, later)
    ensures SessionValid(s, later) ==> SessionValid(s, now)
  {
  }

  datatype AuthOutcome = AuthOutcome(attempts: nat, token: Option<Token>)

  lemma ReplyAtShift(server: Server<Token>, log: seq<Request>, reqs: seq<Request>)
    requires reqs != []
    ensures forall j :: 0 <= j < |reqs| - 1 ==>
      ReplyAt(server, log + [reqs[0]], reqs[1..], j) == ReplyAt(server, log, reqs, j + 1)
  {
    forall j | 0 <= j < |reqs| - 1
      ensures ReplyAt(server, log + [reqs[0]], reqs[1..], j) == ReplyAt(server, log, reqs, j + 1)
    {
      assert (log + [reqs[0]]) + reqs[1..][..j] == log + reqs[..j + 1];
    }
  }

  /**
   * The strategies tried one after another: the outcome is the first grant, after
   * exactly as many attempts as it took; with no grant every strategy was tried.
   */
  function AuthAttempts(server: Server<Token>, log: seq<Request>, reqs: seq<Request>): (o: AuthOutcome)
    ensures o.attempts <= |reqs|
    ensures o.token.Some? ==> 1 <= o.attempts && o.token == Granted(ReplyAt(server, log, reqs, o.attempts - 1))
    ensures o.token.None? ==> o.attempts == |reqs|
    ensures forall j :: 0 <= j < o.attempts && (j < o.attempts - 1 || o.token.None?) ==>
      Granted(ReplyAt(server, log, reqs, j)).None?
    decreases |reqs|
  {
    if reqs == [] then AuthOutcome(0, None)
    else
      assert log + reqs[..0] == log;
      match Granted(server(log, reqs[0]))
      case Some(t) => AuthOutcome(1, Some(t))
      case None =>
        var o := AuthAttempts(server, log + [reqs[0]], reqs[1..]);
        ReplyAtShift(server, log, reqs);
        assert forall j :: 1 <= j < o.attempts + 1 && (j < o.attempts || o.token.None?) ==>
            Granted(ReplyAt(server, log, reqs, j)).None? by {
          forall j | 1 <= j < o.attempts + 1 && (j < o.attempts || o.token.None?)
            ensures Granted(ReplyAt(server, log, reqs, j)).None?
          {
            assert ReplyAt(server, log + [reqs[0]], reqs[1..], j - 1) == ReplyAt(server, log, reqs, j);
          }
        }
        AuthOutcome(o.attempts + 1, o.token)
  }

  /** A step of the client: the new session, the new transport log, and the value returned. */
  datatype Step<T> = Step(session: Session, log: seq<Request>, value: T)

  /** `authenticate`: the session changes only when a strategy grants a token. */
  function AuthenticateRun(server: Server<Token>, c: Credentials, s: Session, log: seq<Request>, now: int): (r: Step<bool>)
  {
    var reqs := AuthRequests(c);
    var o := AuthAttempts(server, log, reqs);
    Step(if o.token.Some? then Establish(o.token.value, now) else s, log + reqs[..o.attempts], o.token.Some?)
  }

  /** `_ensure_authenticated`: authenticate only when the session is not valid at `now`. */
  function EnsureRun(server: Server<Token>, c: Credentials, s: Session, log: seq<Request>, now: int): (r: Step<bool>)
    ensures r.value ==> r.session.accessToken.Some?
  {
    if SessionValid(s, now) then Step(s, log, true) else AuthenticateRun(server, c, s, log, now)
  }

  function BearerHeader(s: Session): seq<Param>
    requires s.accessToken.Some?
  {
    [("Authorization", "Bearer " + s.accessToken.value)]
  }

  /** `data.get("result")` of a response to an authenticated GET, when the status is 200. */
  function Payload<T>(reply: Reply<T>): Option<T>
  {
    match reply
    case ConnectionFailed => None
    case Response(status, body) =>
      if status != 200 then None
      else match body
        case NotJson => None
        case JsonObject(result) => result
  }

  function ApiRequest(c: Credentials, s: Session, endpoint: string, params: seq<Param>): Request
    requires s.accessToken.Some?
  {
    Get(c.baseUrl + "/" + endpoint, BearerHeader(s), params)
  }

  /** `_make_request`: the endpoint is called only once a valid or fresh token is in hand. */
  function RequestRun<T>(auth: Server<Token>, c: Credentials, s: Session, log: seq<Request>, now: int,
                         endpoint: string, params: seq<Param>, server: Server<T>): Step<Option<T>>
  {
    var e := EnsureRun(auth, c, s, log, now);
    if !e.value then Step(e.session, e.log, None)
    else
      var req := ApiRequest(c, e.session, endpoint, params);
      Step(e.session, e.log + [req], Payload(server(e.log, req)))
  }

  const SummaryEndpoint := "private/get_account_summary"
  const PositionsEndpoint := "private/get_positions"

  function SummaryParams(currency: string): seq<Param> { [("currency", currency), ("extended", "true")] }

  function PositionsParams(currency: string): seq<Param> { [("currency", currency), ("kind", "future")] }

  /**
   * `get_account_email` on the summary `_make_request` produced: nothing for a
   * missing or empty summary or a null email, "Unknown" when the member is absent.
   */
  function EmailOf(data: Option<Summary>): (r: Option<string>)
    ensures r.Some? <==> data.Some? && data.value.email != Null &&
                         (data.value.email.Absent? ==> data.value.otherMembers > 0)
    ensures data.Some? && data.value.email.Text? ==> r == Some(data.value.email.s)
    ensures data.Some? && data.value.email.Absent? && data.value.otherMembers > 0 ==> r == Some("Unknown")
  {
    match data
    case None => None
    case Some(summary) =>
      if summary.email == Absent && summary.otherMembers == 0 then None
      else match summary.email
        case Absent => Some("Unknown")
        case Null => None
        case Text(email) => Some(email)
  }

  /** `b` contains `a` in order, possibly with gaps. */
  predicate IsSubsequence<T(==)>(a: seq<T>, b: seq<T>)
    decreases |b|
  {
    if a == [] then true
    else if b == [] then false
    else if a[0] == b[0] then IsSubsequence(a[1..], b[1..])
    else IsSubsequence(a, b[1..])
  }

  /**
   * `[pos for pos in ps if pos.get("size", 0) != 0]`: the non-zero records, every one
   * of them as often as in `ps`, in their original order.
   */
  function NonZero(ps: seq<Position>): (r: seq<Position>)
    ensures forall i :: 0 <= i < |r| ==> SizeOf(r[i]) != 0
    ensures forall p :: multiset(r)[p] == if SizeOf(p) != 0 then multiset(ps)[p] else 0
    ensures IsSubsequence(r, ps)
  {
    if ps == [] then []
    else
      var rest := NonZero(ps[1..]);
      assert ps == [ps[0]] + ps[1..];
      if SizeOf(ps[0]) != 0 then [ps[0]] + rest
      else
        assert rest != [] ==> rest[0] != ps[0];
        rest
  }

  /**
   * `get_positions` on what `_make_request` produced: a missing result yields [],
   * a present one exactly its non-zero records (an empty list is falsy, and
   * filtering it gives [] as well).
   */
  function PositionsOf(data: Option<seq<Position>>): (r: seq<Position>)
    ensures forall i :: 0 <= i < |r| ==> SizeOf(r[i]) != 0
    ensures data.None? ==> r == []
    ensures data.Some? ==> r == NonZero(data.value)
  {
    match data
    case None => []
    case Some(ps) => if ps == [] then [] else NonZero(ps)
  }

  /**
   * Conversely, when strategy k is the first to be granted a token, authentication
   * stops there: k + 1 requests were sent and k's token is the one kept.
   */
  lemma AuthStopsAtFirstGrant(server: Server<Token>, log: seq<Request>, reqs: seq<Request>, k: nat)
    requires k < |reqs| && Granted(ReplyAt(server, log, reqs, k)).Some?
    requires forall j :: 0 <= j < k ==> Granted(ReplyAt(server, log, reqs, j)).None?
    ensures AuthAttempts(server, log, reqs) == AuthOutcome(k + 1, Granted(ReplyAt(server, log, reqs, k)))
  {
  }

  /** Authentication fails exactly when no strategy is granted a token. */
  lemma AuthFailsIffNoGrant(server: Server<Token>, log: seq<Request>, reqs: seq<Request>)
    ensures AuthAttempts(server, log, reqs).token.None? <==>
      forall j :: 0 <= j < |reqs| ==> Granted(ReplyAt(server, log, reqs, j)).None?
  {
    var o := AuthAttempts(server, log, reqs);
    if o.token.Some? {
      assert Granted(ReplyAt(server, log, reqs, o.attempts - 1)).Some?;
    }
  }

  /**
   * `authenticate` sends a non-empty prefix of the three strategies, in order; on
   * success the expiry is now + expires_in (default 900) - 60, and on failure the
   * fields keep whatever they held before.
   */
  lemma AuthenticateEffect(server: Server<Token>, c: Credentials, s: Session, log: seq<Request>, now: int)
    ensures var r := AuthenticateRun(server, c, s, log, now);
      var sent := r.log[|log|..];
      |log| < |r.log| && r.log[..|log|] == log &&
      1 <= |sent| <= 3 && sent == AuthRequests(c)[..|sent|] &&
      var o := AuthAttempts(server, log, AuthRequests(c));
      (r.value <==> o.token.Some?) &&
      (r.value ==> var t := o.token.value;
                   r.session == Session(Some(t.accessToken), Some(t.refreshToken),
                       Some(now + (if t.expiresIn.Some? then t.expiresIn.value else 900) - 60))) &&
      (!r.value ==> r.session == s && sent == AuthRequests(c))
  {
    var r := AuthenticateRun(server, c, s, log, now);
    var o := AuthAttempts(server, log, AuthRequests(c));
    assert o.attempts >= 1 by {
      if o.token.None? {
        assert o.attempts == 3;
      }
    }
    assert r.log[|log|..] == AuthRequests(c)[..o.attempts];
    if r.value {
      var t := o.token.value;
      assert r.session == Session(Some(t.accessToken), Some(t.refreshToken),
                                  Some(now + (if t.expiresIn.Some? then t.expiresIn.value else 900) - 60));
    }
  }

  /** The request carries a bearer token. */
  predicate IsAuthorized(q: Request)
  {
    exists h :: h in q.headers && h.0 == "Authorization"
  }

  /**
   * Request gating. With a valid session exactly one request, the endpoint call, is
   * sent and nothing else changes. Otherwise the client re-authenticates first; if
   * that fails the result is None, the session is untouched and only the three auth
   * strategies were sent, never the endpoint call.
   */
  lemma RequestGating<T>(auth: Server<Token>, c: Credentials, s: Session, log: seq<Request>, now: int,
                         endpoint: string, params: seq<Param>, server: Server<T>)
    ensures var r := RequestRun(auth, c, s, log, now, endpoint, params, server);
      |log| <= |r.log| && r.log[..|log|] == log &&
      (SessionValid(s, now) ==> r.session == s && r.log == log + [ApiRequest(c, s, endpoint, params)]) &&
      (!SessionValid(s, now) && AuthAttempts(auth, log, AuthRequests(c)).token.None? ==>
         r.value.None? && r.session == s && r.log == log + AuthRequests(c) &&
         forall q :: q in r.log[|log|..] ==> q in AuthRequests(c) && !IsAuthorized(q)) &&
      (!SessionValid(s, now) && AuthAttempts(auth, log, AuthRequests(c)).token.Some? ==>
         var e := AuthenticateRun(auth, c, s, log, now);
         r.session == e.session && r.log == e.log + [ApiRequest(c, e.session, endpoint, params)])
  {
    var r := RequestRun(auth, c, s, log, now, endpoint, params, server);
    var e := EnsureRun(auth, c, s, log, now);
    AuthenticateEffect(auth, c, s, log, now);
    assert r.log[..|log|] == log by {
      assert e.log[..|log|] == log;
      if e.value {
        assert r.log == e.log + [ApiRequest(c, e.session, endpoint, params)];
      }
    }
    if !SessionValid(s, now) && AuthAttempts(auth, log, AuthRequests(c)).token.None? {
      assert AuthRequests(c)[..3] == AuthRequests(c);
      assert r.log[|log|..] == AuthRequests(c);
    }
  }

  /**
   * A token granted at `now` with a non-empty access token and a lifetime over the
   * 60-second margin is reused by every request made before now + lifetime - 60,
   * and from that instant on the client authenticates again before calling.
   */
  lemma TokenReusedUntilExpiry<T>(auth: Server<Token>, c: Credentials, t: Token, now: int, later: int,
                                  log: seq<Request>, endpoint: string, params: seq<Param>, server: Server<T>)
    requires t.accessToken != "" && t.expiresIn.GetOr(DefaultExpiresIn) > ExpiryMargin
    requires now + t.expiresIn.GetOr(DefaultExpiresIn) - ExpiryMargin != 0
    ensures var s := Establish(t, now);
      var expiry := now + t.expiresIn.GetOr(DefaultExpiresIn) - ExpiryMargin;
      var r := RequestRun(auth, c, s, log, later, endpoint, params, server);
      SessionValid(s, now) &&
      (later < expiry ==> r.log == log + [ApiRequest(c, s, endpoint, params)] && r.session == s) &&
      (later >= expiry ==> |r.log| > |log| && r.log[|log|] == AuthRequests(c)[0])
  {
    var s := Establish(t, now);
    RequestGating(auth, c, s, log, later, endpoint, params, server);
    AuthenticateEffect(auth, c, s, log, later);
  }

  class DeribitApi {
    const clientId: string
    const clientSecret: string
    const baseUrl: string
    const net: Transport
    var accessToken: Option<string>
    var refreshToken: Option<string>
    var tokenExpiresAt: Option<int>

    function Creds(): Credentials { Credentials(clientId, clientSecret, baseUrl) }

    function State(): Session
      reads this
    {
      Session(accessToken, refreshToken, tokenExpiresAt)
    }

    constructor (clientId: string, clientSecret: string, testnet: bool, net: Transport)
      ensures Creds() == Credentials(clientId, clientSecret, BaseUrl(testnet))
      ensures this.net == net && State() == NoSession
    {
      this.clientId := clientId;
      this.clientSecret := clientSecret;
      this.baseUrl := BaseUrl(testnet);
      this.net := net;
      accessToken := None;
      refreshToken := None;
      tokenExpiresAt := None;
    }

    method Authenticate(now: int) returns (ok: bool)
      modifies this, net
      ensures var r := AuthenticateRun(net.venue.auth, Creds(), old(State()), old(net.log), now);
        State() == r.session && net.log == r.log && ok == r.value
    {
      var reqs := AuthRequests(Creds());
      ghost var o := AuthAttempts(net.venue.auth, old(net.log), reqs);
      var i := 0;
      while i < |reqs|
        invariant 0 <= i <= |reqs|
        invariant net.log == old(net.log) + reqs[..i]
        invariant forall j :: 0 <= j < i ==> Granted(ReplyAt(net.venue.auth, old(net.log), reqs, j)).None?
        invariant State() == old(State())
      {
        var reply := net.Exchange(reqs[i], net.venue.auth);
        assert reply == ReplyAt(net.venue.auth, old(net.log), reqs, i);
        if reply.Response? && !IsHttpError(reply.status) && reply.body.JsonObject? && reply.body.result.Some? {
          var result := reply.body.result.value;
          accessToken := Some(result.accessToken);
          refreshToken := Some(result.refreshToken);
          tokenExpiresAt := Some(now + result.expiresIn.GetOr(DefaultExpiresIn) - ExpiryMargin);
          assert o.attempts == i + 1;
          assert reqs[..i] + [reqs[i]] == reqs[..i + 1];
          return true;
        }
        i := i + 1;
      }
      assert reqs[..i] == reqs;
      return false;
    }

    /** `_is_token_valid` on the client's own fields. */
    predicate IsTokenValid(now: int)
      reads this
      ensures accessToken.None? || accessToken == Some("") ==> !IsTokenValid(now)
      ensures tokenExpiresAt.None? || tokenExpiresAt == Some(0) ==> !IsTokenValid(now)
      ensures IsTokenValid(now) ==> now < tokenExpiresAt.value
    {
      SessionValid(State(), now)
    }

    method EnsureAuthenticated(now: int) returns (ok: bool)
      modifies this, net
      ensures var r := EnsureRun(net.venue.auth, Creds(), old(State()), old(net.log), now);
        State() == r.session && net.log == r.log && ok == r.value
    {
      if !IsTokenValid(now) {
        ok := Authenticate(now);
      } else {
        ok := true;
      }
    }

    method MakeRequest<T>(endpoint: string, params: seq<Param>, now: int, server: Server<T>) returns (data: Option<T>)
      modifies this, net
      ensures var r := RequestRun(net.venue.auth, Creds(), old(State()), old(net.log), now, endpoint, params, server);
        State() == r.session && net.log == r.log && data == r.value
    {
      var ok := EnsureAuthenticated(now);
      if !ok {
        return None;
      }
      var req := Get(baseUrl + "/" + endpoint, [("Authorization", "Bearer " + accessToken.value)], params);
      var reply := net.Exchange(req, server);
      data := None;
      if reply.Response? && reply.status == 200 && reply.body.JsonObject? {
        data := reply.body.result;
      }
    }

    method GetAccountEmail(currency: string, now: int) returns (email: Option<string>)
      modifies this, net
      ensures var r := RequestRun(net.venue.auth, Creds(), old(State()), old(net.log), now,
                                  SummaryEndpoint, SummaryParams(currency), net.venue.summary);
        State() == r.session && net.log == r.log && email == EmailOf(r.value)
    {
      var accountData := MakeRequest(SummaryEndpoint, SummaryParams(currency), now, net.venue.summary);
      email := EmailOf(accountData);
    }

    method GetPositions(currency: string, now: int) returns (positions: seq<Position>)
      modifies this, net
      ensures var r := RequestRun(net.venue.auth, Creds(), old(State()), old(net.log), now,
                                  PositionsEndpoint, PositionsParams(currency), net.venue.positions);
        State() == r.session && net.log == r.log && positions == PositionsOf(r.value)
    {
      var positionsData := MakeRequest(PositionsEndpoint, PositionsParams(currency), now, net.venue.positions);
      positions := PositionsOf(positionsData);
    }
  }
}
