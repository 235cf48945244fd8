/** The client-side session: the login page (mount check and submit), the
    route guard and logout, all over `localStorage` and a clock value `now`
    in milliseconds. */
module Session {
  import opened Wrappers
  import opened JsString
  import opened BrowserStorage

  /** One hour, the client-side session length. */
  const SessionLength: nat := 60 * 60 * 1000

  /** The token stored when the login reply carries none. */
  const DefaultToken := "dummyToken"

  /** `localStorage.getItem(key)` is truthy. */
  predicate Present(items: map<string, string>, key: string) {
    key in items && items[key] != ""
  }

  /** `now > Number(x)`; a comparison with NaN is false. */
  predicate After(now: int, x: Option<int>) {
    x.Some? && now > x.value
  }

  /** `now < Number(x)`; a comparison with NaN is false. */
  predicate Before(now: int, x: Option<int>) {
    x.Some? && now < x.value
  }

  /** The session states of the guard: no token; a token whose stored expiry
      has passed; a token with no expiry, an unreadable one, or one not yet
      passed. */
  datatype Phase = Unauthenticated | Authenticated | Expired

  function PhaseOf(items: map<string, string>, now: int): Phase {
    if !Present(items, "token") then Unauthenticated
    else if Present(items, "expiry") && After(now, JsNumber(items["expiry"])) then Expired
    else Authenticated
  }

  datatype Route = Render | RedirectHome

  /** `ProtectedRoute`: renders the page only in the Authenticated phase;
      clears the whole store only in the Expired phase. The role and the
      allowed roles are read but never consulted. */
  method ProtectedRoute(storage: LocalStorage, allowedRoles: seq<string>, now: int) returns (r: Route)
    modifies storage
    ensures r == Render <==> PhaseOf(old(storage.items), now) == Authenticated
    ensures storage.items == if PhaseOf(old(storage.items), now) == Expired then map[] else old(storage.items)
  {
    var token := storage.GetItem("token");
    var userRole := storage.GetItem("role");
    var expiry := storage.GetItem("expiry");
    if !Truthy(token) {
      return RedirectHome;
    }
    if Truthy(expiry) && After(now, JsNumber(expiry.value)) {
      storage.Clear();
      return RedirectHome;
    }
    r := Render;
  }

  /** The login page's test for a live session: strictly before the expiry. */
  predicate Fresh(items: map<string, string>, now: int) {
    Present(items, "token") && Present(items, "expiry") && Before(now, JsNumber(items["expiry"]))
  }

  datatype MountResult = GoToUsers | StayOnLogin

  /** The login page's mount effect: a live session goes on to the customer
      list untouched; anything else is cleared. */
  method LoginMount(storage: LocalStorage, now: int) returns (r: MountResult)
    modifies storage
    ensures r == GoToUsers <==> Fresh(old(storage.items), now)
    ensures storage.items == if r == GoToUsers then old(storage.items) else map[]
  {
    var token := storage.GetItem("token");
    var expiry := storage.GetItem("expiry");
    if Truthy(token) && Truthy(expiry) && Before(now, JsNumber(expiry.value)) {
      return GoToUsers;
    }
    storage.Clear();
    r := StayOnLogin;
  }

  /** The fields the login page reads from the reply body. */
  datatype LoginReply = LoginReply(token: Option<string>, userId: Option<string>, role: Option<string>)

  datatype SubmitResult = MissingFields | LoginFailed | LoggedIn

  /** The store after a successful submit: five keys written in order, the
      expiry one session length after `now`. */
  function SessionWrites(items: map<string, string>, reply: LoginReply, phoneNo: string, now: nat): map<string, string> {
    items["token" := if reply.token.Some? then reply.token.value else DefaultToken]
         ["userId" := Stringify(reply.userId)]
         ["phoneNo" := phoneNo]
         ["role" := Stringify(reply.role)]
         ["expiry" := NatToString(now + SessionLength)]
  }

  /** `handleSubmit`: no request without both fields; `reply` is the outcome
      of the request, None when it failed. */
  method HandleSubmit(storage: LocalStorage, phoneNo: string, password: string, reply: Option<LoginReply>, now: nat)
    returns (r: SubmitResult)
    modifies storage
    ensures phoneNo == "" || password == "" ==> r == MissingFields && storage.items == old(storage.items)
    ensures phoneNo != "" && password != "" && reply.None? ==> r == LoginFailed && storage.items == old(storage.items)
    ensures phoneNo != "" && password != "" && reply.Some? ==>
      r == LoggedIn && storage.items == SessionWrites(old(storage.items), reply.value, phoneNo, now)
  {
    if phoneNo == "" || password == "" {
      return MissingFields;
    }
    if reply.None? {
      return LoginFailed;
    }
    var data := reply.value;
    var token := if data.token.Some? then data.token.value else DefaultToken;
    var expiry := now + SessionLength;
    storage.SetItem("token", token);
    storage.SetItem("userId", Stringify(data.userId));
    storage.SetItem("phoneNo", phoneNo);
    storage.SetItem("role", Stringify(data.role));
    storage.SetItem("expiry", NatToString(expiry));
    r := LoggedIn;
  }

  /** The navbar's logout. */
  method Logout(storage: LocalStorage)
    modifies storage
    ensures storage.items == map[]
    ensures forall now :: PhaseOf(storage.items, now) == Unauthenticated
  {
    storage.Clear();
  }

  /** After a successful submit at `now` (with a non-empty token), the guard
      grants access from `now` up to and including `now + SessionLength`, and
      the session is Expired from then on. */
  lemma {:induction false} LoginOpensSession(items: map<string, string>, reply: LoginReply, phoneNo: string, now: nat, t: int)
    requires reply.token != Some("")
    ensures t <= now + SessionLength ==> PhaseOf(SessionWrites(items, reply, phoneNo, now), t) == Authenticated
    ensures t > now + SessionLength ==> PhaseOf(SessionWrites(items, reply, phoneNo, now), t) == Expired
  {
    var m := SessionWrites(items, reply, phoneNo, now);
    SessionKeys(items, reply, phoneNo, now);
    NumberOfString(now + SessionLength);
    assert Present(m, "token") && Present(m, "expiry");
    assert JsNumber(m["expiry"]) == Some(now + SessionLength);
    assert After(t, JsNumber(m["expiry"])) <==> t > now + SessionLength;
  }

  /** What a successful submit leaves under the token and expiry keys. */
  lemma SessionKeys(items: map<string, string>, reply: LoginReply, phoneNo: string, now: nat)
    ensures var m := SessionWrites(items, reply, phoneNo, now);
      && "token" in m && m["token"] == (if reply.token.Some? then reply.token.value else DefaultToken)
      && "expiry" in m && m["expiry"] == NatToString(now + SessionLength)
  {
    assert "token" != "userId" && "token" != "phoneNo" && "token" != "role" && "token" != "expiry";
  }

  /** Right after a successful submit, the login page would also see a live session. */
  lemma {:induction false} LoginIsFreshAtOnce(items: map<string, string>, reply: LoginReply, phoneNo: string, now: nat)
    requires reply.token != Some("")
    ensures Fresh(SessionWrites(items, reply, phoneNo, now), now)
  {
    SessionKeys(items, reply, phoneNo, now);
    NumberOfString(now + SessionLength);
  }

  /** Whatever the login page treats as live, the guard grants. */
  lemma FreshIsAuthenticated(items: map<string, string>, now: int)
    requires Fresh(items, now)
    ensures PhaseOf(items, now) == Authenticated
  {
  }

  /** The two pages disagree at the boundary: when `now` equals the stored
      expiry the guard grants, but the login page clears the store. */
  lemma BoundaryDisagreement(items: map<string, string>, now: nat)
    requires Present(items, "token") && "expiry" in items && items["expiry"] == NatToString(now)
    ensures PhaseOf(items, now) == Authenticated
    ensures !Fresh(items, now)
  {
    NumberOfString(now);
  }

  /** The stored role plays no part in the guard's decision. */
  lemma RoleIgnored(items: map<string, string>, role: string, now: int)
    ensures PhaseOf(items["role" := role], now) == PhaseOf(items, now)
  {
    var m := items["role" := role];
    assert "role" != "token" && "role" != "expiry";
    assert ("token" in m <==> "token" in items) && ("expiry" in m <==> "expiry" in items);
    if "token" in items {
      assert m["token"] == items["token"];
    }
    if "expiry" in items {
      assert m["expiry"] == items["expiry"];
    }
  }

  /** Expiry is permanent as the clock advances, and without a token no
      amount of time leads to Expired. */
  lemma PhaseOverTime(items: map<string, string>, t: int, t': int)
    requires t <= t'
    ensures PhaseOf(items, t) == Expired ==> PhaseOf(items, t') == Expired
    ensures PhaseOf(items, t) == Unauthenticated ==> PhaseOf(items, t') == Unauthenticated
  {
  }
}
