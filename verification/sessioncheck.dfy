/** The client's periodic session check: on load and on window focus it
    asks the server whether the stored token is still live. */
module SessionCheck {
  import opened Common
  import opened Models
  import opened Auth

  const DefaultLogoutMessage := "Your session has expired. Please login again."

  /** What the browser has stored for the signed-in user. */
  datatype StoredUser = StoredUser(id: Id, token: Token)

  /** The body the server answers with: `valid` and, when invalid, a
      message. */
  datatype CheckResponse = CheckResponse(valid: bool, message: string)

  /** What the check does: nothing at all, clear the stored user and go to
      the login page with an alert, or keep everything. */
  datatype Outcome = NoRequest | Logout(alert: string) | Keep

  /** One run of the check. `response` is None when the request or its JSON
      body fails. */
  function CheckSession(stored: Option<StoredUser>, response: Option<CheckResponse>): (o: Outcome)
    ensures stored.None? ==> o == NoRequest
    ensures stored.Some? && !Truthy(stored.value.token) ==> o == NoRequest
    ensures o.Logout? <==> stored.Some? && Truthy(stored.value.token) && response.Some? && !response.value.valid
    ensures o.Logout? ==> Truthy(o.alert)
    ensures o.Logout? && Truthy(response.value.message) ==> o.alert == response.value.message
    ensures stored.Some? && Truthy(stored.value.token) && response.None? ==> o == Keep
  {
    if stored.None? then NoRequest
    else if !Truthy(stored.value.token) then NoRequest
    else match response
      case None => Keep
      case Some(body) =>
        if !body.valid then Logout(OrElse(body.message, DefaultLogoutMessage)) else Keep
  }

  /** The JSON body the server's session validation sends. */
  function ResponseOf(r: Reply<SessionUser>): (b: CheckResponse)
    ensures b.valid <==> r.Ok?
    ensures r.Error? ==> b.message == r.message
  {
    match r
    case Ok(_, _) => CheckResponse(true, "")
    case Error(_, msg) => CheckResponse(false, msg)
  }

  /** The check against the server: the stored token is sent as a bearer
      header; `reachable` is false when the network fails. */
  function CheckAgainst(stored: Option<StoredUser>, users: seq<User>, decode: TokenDecoder, reachable: bool): Outcome {
    var response :=
      if stored.None? || !reachable then None
      else Some(ResponseOf(ValidateSession(users, Some(BearerHeader(stored.value.token)), decode)));
    CheckSession(stored, response)
  }

  /** With a server that can be reached, a client holding a well-formed
      token is logged out exactly when the server rejects that token, and
      the alert is the server's reason. */
  lemma CheckAgreesWithServer(u: StoredUser, users: seq<User>, decode: TokenDecoder)
    requires WellFormedToken(u.token)
    ensures var o := CheckAgainst(Some(u), users, decode, true);
      var r := ValidateSession(users, Some(BearerHeader(u.token)), decode);
      && (o.Logout? <==> r.Error?)
      && (o.Logout? ==> o.alert == r.message)
      && (o == Keep <==> r.Ok?)
  {
    BearerRoundTrip(u.token);
    var r := ValidateSession(users, Some(BearerHeader(u.token)), decode);
    if r.Error? {
      assert r.message in {MsgNoToken, MsgInvalidToken, MsgUserNotFound, MsgSuperseded};
    }
  }

  /** The check fails open: when the server cannot be reached nobody is
      logged out, whatever the stored token. */
  lemma CheckFailsOpen(stored: Option<StoredUser>, users: seq<User>, decode: TokenDecoder)
    ensures !CheckAgainst(stored, users, decode, false).Logout?
  {
  }

  /** A device whose token was superseded by a later login on the same
      device class is logged out with the server's reason. */
  lemma SupersededClientLoggedOut(users: seq<User>, email: string, password: string, deviceType: string,
                                  passwordMatches: PasswordCheck, decode: TokenDecoder,
                                  t1: Token, t2: Token, now1: Time, now2: Time, id: Id)
    requires UniqueUserIds(users)
    requires Login(users, email, password, deviceType, passwordMatches, t1, now1).reply.Ok?
    requires WellFormedToken(t1) && WellFormedToken(t2) && t1 != t2
    requires var i := FindByEmail(users, email).value;
      && decode(t1) == Some(users[i].id) && decode(t2) == Some(users[i].id)
      && forall k :: 0 <= k < |users[i].sessions| ==> users[i].sessions[k].token != t1
    ensures var s1 := Login(users, email, password, deviceType, passwordMatches, t1, now1).state;
      var s2 := Login(s1, email, password, deviceType, passwordMatches, t2, now2).state;
      CheckAgainst(Some(StoredUser(id, t1)), s2, decode, true) == Logout(MsgSuperseded)
  {
    var s1 := Login(users, email, password, deviceType, passwordMatches, t1, now1).state;
    var s2 := Login(s1, email, password, deviceType, passwordMatches, t2, now2).state;
    ReloginSupersedes(users, email, password, deviceType, passwordMatches, decode, t1, t2, now1, now2);
    CheckAgreesWithServer(StoredUser(id, t1), s2, decode);
  }
}
