/** The authentication controller: registration, login with its per-device
    session registry, and session validation. Password hashing and token
    signing are not re-implemented: the bcrypt comparison and the JWT
    verification are parameters, and a freshly signed token is an input. */
module Auth {
  import opened Common
  import opened Seqs
  import opened Text
  import opened Models

  const MsgMissingLoginFields := "Please provide email, password and device type"
  const MsgInvalidDevice := "Invalid device type. Must be phone or laptop."
  const MsgInvalidCredentials := "Invalid credentials"
  const MsgUserExists := "User already exists"
  /** The start of the schema error's message; the failing paths and
      reasons that follow it are not modelled. */
  const MsgValidationFailed := "User validation failed"
  const MsgNoToken := "No token provided"
  const MsgInvalidToken := "Invalid token"
  const MsgUserNotFound := "User not found"
  const MsgSuperseded := "Session expired. You have been logged in from another device."

  /** `bcrypt.compare(plain, hash)`. */
  type PasswordCheck = (string, string) -> bool

  /** `jwt.verify(token, secret).id`: `None` when the signature does not
      verify, the token has expired, or the id is not a document id. */
  type TokenDecoder = Token -> Option<Id>

  /** `JSON.parse` of a string that yields an array of strings; `None` when
      it throws. */
  type JsonListParser = string -> Option<seq<string>>

  // ---------------------------------------------------------------------
  // Session registry

  /** At most one session per device class. */
  predicate OneSessionPerDevice(ss: seq<Session>) {
    forall i, j :: 0 <= i < j < |ss| ==> ss[i].deviceType != ss[j].deviceType
  }

  /** Some session of the list carries exactly this token. */
  predicate IsLive(ss: seq<Session>, t: Token) {
    exists k :: 0 <= k < |ss| && ss[k].token == t
  }

  /** Sessions of device class `d`. */
  function OnDevice(d: DeviceType): Session -> bool {
    (s: Session) => s.deviceType == d
  }

  /** Sessions of any other device class than `d`. */
  function OffDevice(d: DeviceType): Session -> bool {
    (s: Session) => s.deviceType != d
  }

  /** The first session of the given device class. */
  function SessionFor(ss: seq<Session>, d: DeviceType): Option<Session> {
    First(ss, OnDevice(d))
  }

  /** Every session is either a phone or a laptop session. */
  lemma {:induction false} CountByDevice(ss: seq<Session>)
    ensures |ss| == Count(ss, OnDevice(Phone)) + Count(ss, OnDevice(Laptop))
  {
    if |ss| > 0 {
      CountByDevice(ss[..|ss| - 1]);
    }
  }

  /** With one session per device class, each class counts at most once. */
  lemma {:induction false} CountOnDeviceAtMostOne(ss: seq<Session>, d: DeviceType)
    requires OneSessionPerDevice(ss)
    ensures Count(ss, OnDevice(d)) <= 1
  {
    if |ss| > 0 {
      var n := |ss| - 1;
      var init := ss[..n];
      assert OneSessionPerDevice(init);
      if ss[n].deviceType == d {
        assert forall k :: 0 <= k < n ==> init[k] == ss[k] && ss[k].deviceType != ss[n].deviceType;
        CountNone(init, OnDevice(d));
      } else {
        CountOnDeviceAtMostOne(init, d);
      }
    }
  }

  /** With one session per device class there are at most two sessions. */
  lemma AtMostTwoSessions(ss: seq<Session>)
    requires OneSessionPerDevice(ss)
    ensures |ss| <= 2
  {
    CountByDevice(ss);
    CountOnDeviceAtMostOne(ss, Phone);
    CountOnDeviceAtMostOne(ss, Laptop);
  }

  /** Drop every session of the new session's device class, then append it. */
  function UpsertSession(ss: seq<Session>, s: Session): (r: seq<Session>)
    ensures |r| >= 1 && r[|r| - 1] == s
    ensures forall k :: 0 <= k < |r| - 1 ==> r[k].deviceType != s.deviceType
    ensures forall x :: x in r[..|r| - 1] <==> x in ss && x.deviceType != s.deviceType
    ensures IsSubsequence(r[..|r| - 1], ss)
    ensures OneSessionPerDevice(ss) ==> OneSessionPerDevice(r)
  {
    var kept := Filter(ss, OffDevice(s.deviceType));
    FilterIsSubsequence(ss, OffDevice(s.deviceType));
    var r := kept + [s];
    assert r[..|r| - 1] == kept;
    assert OneSessionPerDevice(ss) ==> OneSessionPerDevice(kept) by {
      if OneSessionPerDevice(ss) {
        SubsequenceKeepsOnePerDevice(kept, ss);
      }
    }
    r
  }

  /** A subsequence of a list with one session per device class has the
      same property. */
  lemma {:induction false} SubsequenceKeepsOnePerDevice(a: seq<Session>, b: seq<Session>)
    requires IsSubsequence(a, b) && OneSessionPerDevice(b)
    ensures OneSessionPerDevice(a)
    decreases |b|
  {
    if |a| > 0 {
      if IsSubsequence(a, b[1..]) {
        SubsequenceKeepsOnePerDevice(a, b[1..]);
      } else {
        assert a[0] == b[0] && IsSubsequence(a[1..], b[1..]);
        SubsequenceKeepsOnePerDevice(a[1..], b[1..]);
        forall j | 0 < j < |a| ensures a[0].deviceType != a[j].deviceType {
          assert a[j] == a[1..][j - 1];
          SubsequenceMember(a[1..], b[1..], j - 1);
        }
        assert forall i, j :: 0 < i < j < |a| ==> a[i] == a[1..][i - 1] && a[j] == a[1..][j - 1];
      }
    }
  }

  /** Every element of a subsequence occurs in the longer list. */
  lemma {:induction false} SubsequenceMember(a: seq<Session>, b: seq<Session>, j: nat)
    requires IsSubsequence(a, b) && j < |a|
    ensures exists k :: 0 <= k < |b| && b[k] == a[j]
    decreases |b|
  {
    if IsSubsequence(a, b[1..]) {
      SubsequenceMember(a, b[1..], j);
      var k :| 0 <= k < |b[1..]| && b[1..][k] == a[j];
      assert b[k + 1] == a[j];
    } else if j == 0 {
      assert b[0] == a[0];
    } else {
      SubsequenceMember(a[1..], b[1..], j - 1);
      var k :| 0 <= k < |b[1..]| && b[1..][k] == a[1..][j - 1];
      assert b[k + 1] == a[j];
    }
  }

  /** A login on one device class leaves the session of the other class as
      it was. */
  lemma UpsertKeepsOtherDevice(ss: seq<Session>, s: Session, d: DeviceType)
    requires d != s.deviceType
    ensures SessionFor(UpsertSession(ss, s), d) == SessionFor(ss, d)
  {
    var kept := Filter(ss, OffDevice(s.deviceType));
    FirstAppendMiss(kept, s, OnDevice(d));
    FirstOfFilter(ss, OnDevice(d), OffDevice(s.deviceType));
  }

  /** After an upsert the new token is live and is the only session of its
      device class. */
  lemma UpsertMakesTokenCurrent(ss: seq<Session>, s: Session)
    ensures IsLive(UpsertSession(ss, s), s.token)
    ensures SessionFor(UpsertSession(ss, s), s.deviceType) == Some(s)
    ensures Count(UpsertSession(ss, s), OnDevice(s.deviceType)) == 1
  {
    var kept := Filter(ss, OffDevice(s.deviceType));
    var r := kept + [s];
    var p := OnDevice(s.deviceType);
    assert r[|kept|].token == s.token;
    assert forall k :: 0 <= k < |kept| ==> !p(kept[k]);
    FirstAppendHit(kept, s, p);
    assert r[..|kept|] == kept;
    CountNone(kept, p);
  }

  /** If only the appended element satisfies `p`, it is the first such. */
  lemma {:induction false} FirstAppendHit(s: seq<Session>, x: Session, p: Session -> bool)
    requires p(x) && forall k :: 0 <= k < |s| ==> !p(s[k])
    ensures First(s + [x], p) == Some(x)
  {
    if |s| > 0 {
      assert (s + [x])[1..] == s[1..] + [x];
      FirstAppendHit(s[1..], x, p);
    }
  }

  // ---------------------------------------------------------------------
  // Login

  /** What a successful login returns: the user summary, the token and the
      updated session list. */
  datatype LoginReply = LoginReply(
    id: Id, fullName: string, email: string, mobile: string,
    gender: Option<Gender>, role: Role, avatar: string,
    token: Token, sessions: seq<Session>)

  /** The input checks that precede any lookup. */
  predicate LoginInputOk(email: string, password: string, deviceType: string) {
    Truthy(email) && Truthy(password) && Truthy(deviceType) && ParseDeviceType(deviceType).Some?
  }

  /** `POST /api/auth/login`. `token` is the token `generateToken` signs for
      the user and `now` the login time. */
  function Login(users: seq<User>, email: string, password: string, deviceType: string,
                 passwordMatches: PasswordCheck, token: Token, now: Time): (r: Step<LoginReply, seq<User>>)
    ensures !LoginInputOk(email, password, deviceType) ==> r.reply.Error? && r.reply.status == 400
    ensures r.reply.Error? ==> r.state == users
    ensures r.reply.Ok? <==>
      && LoginInputOk(email, password, deviceType)
      && FindByEmail(users, email).Some?
      && passwordMatches(password, users[FindByEmail(users, email).value].password)
    ensures LoginInputOk(email, password, deviceType) && r.reply.Error? ==>
      r.reply == Error(401, MsgInvalidCredentials)
    ensures |r.state| == |users|
    ensures r.reply.Ok? ==>
      var i := FindByEmail(users, email).value;
      var u := users[i];
      var after := UpsertSession(u.sessions, Session(ParseDeviceType(deviceType).value, token, now));
      && r.state == users[i := u.(sessions := after)]
      && r.reply == Ok(200, LoginReply(u.id, u.fullName, u.email, u.mobile, u.gender, u.role,
                                       u.avatar, token, after))
  {
    if !(Truthy(email) && Truthy(password) && Truthy(deviceType)) then
      Step(Error(400, MsgMissingLoginFields), users)
    else if ParseDeviceType(deviceType).None? then
      Step(Error(400, MsgInvalidDevice), users)
    else
      var d := ParseDeviceType(deviceType).value;
      match FindByEmail(users, email)
      case None => Step(Error(401, MsgInvalidCredentials), users)
      case Some(i) =>
        var u := users[i];
        if !passwordMatches(password, u.password) then
          Step(Error(401, MsgInvalidCredentials), users)
        else
          var s := Session(d, token, now);
          var after := UpsertSession(u.sessions, s);
          var u' := u.(sessions := after);
          Step(Ok(200, LoginReply(u.id, u.fullName, u.email, u.mobile, u.gender, u.role,
                                  u.avatar, token, after)),
               users[i := u'])
  }

  /** Rejected input is answered before the store is consulted: the reply is
      the same whatever the users collection holds. */
  lemma LoginRejectsBeforeLookup(users1: seq<User>, users2: seq<User>, email: string, password: string,
                                 deviceType: string, passwordMatches: PasswordCheck, token: Token, now: Time)
    requires !LoginInputOk(email, password, deviceType)
    ensures Login(users1, email, password, deviceType, passwordMatches, token, now).reply
         == Login(users2, email, password, deviceType, passwordMatches, token, now).reply
  {
  }

  /** An unknown email and a wrong password get the same reply, so the reply
      does not reveal which accounts exist. */
  lemma LoginFailuresIndistinguishable(
    users1: seq<User>, email1: string, users2: seq<User>, email2: string,
    password: string, deviceType: string, passwordMatches: PasswordCheck, token: Token, now: Time)
    requires LoginInputOk(email1, password, deviceType) && LoginInputOk(email2, password, deviceType)
    requires FindByEmail(users1, email1).None?
    requires FindByEmail(users2, email2).Some?
    requires !passwordMatches(password, users2[FindByEmail(users2, email2).value].password)
    ensures Login(users1, email1, password, deviceType, passwordMatches, token, now)
         == Step(Error(401, MsgInvalidCredentials), users1)
    ensures Login(users2, email2, password, deviceType, passwordMatches, token, now)
         == Step(Error(401, MsgInvalidCredentials), users2)
  {
  }

  /** What a successful login does to the user's session registry: the new
      session is the last one and the only one of its device class, its
      token is live, the other device class keeps its session, and at most
      one session per device class (so at most two) is preserved. */
  lemma LoginSessionRegistry(users: seq<User>, email: string, password: string, deviceType: string,
                             passwordMatches: PasswordCheck, token: Token, now: Time)
    requires Login(users, email, password, deviceType, passwordMatches, token, now).reply.Ok?
    ensures var r := Login(users, email, password, deviceType, passwordMatches, token, now);
      var i := FindByEmail(users, email).value;
      var d := ParseDeviceType(deviceType).value;
      var before := users[i].sessions;
      var after := r.state[i].sessions;
      && r.reply.value.token == token && r.reply.value.sessions == after
      && after[|after| - 1] == Session(d, token, now)
      && Count(after, OnDevice(d)) == 1
      && SessionFor(after, d) == Some(Session(d, token, now))
      && IsLive(after, token)
      && (forall e :: e != d ==> SessionFor(after, e) == SessionFor(before, e))
      && IsSubsequence(after[..|after| - 1], before)
      && (OneSessionPerDevice(before) ==> OneSessionPerDevice(after) && |after| <= 2)
  {
    var i := FindByEmail(users, email).value;
    var d := ParseDeviceType(deviceType).value;
    var s := Session(d, token, now);
    var before := users[i].sessions;
    var after := UpsertSession(before, s);
    UpsertMakesTokenCurrent(before, s);
    forall e | e != d ensures SessionFor(after, e) == SessionFor(before, e) {
      UpsertKeepsOtherDevice(before, s, e);
    }
    if OneSessionPerDevice(before) {
      AtMostTwoSessions(after);
    }
  }

  /** A login leaves every other user's sessions alone and keeps one session
      per device class for every user that had it. */
  lemma LoginKeepsRegistryInvariant(users: seq<User>, email: string, password: string, deviceType: string,
                                    passwordMatches: PasswordCheck, token: Token, now: Time)
    requires forall k :: 0 <= k < |users| ==> OneSessionPerDevice(users[k].sessions)
    ensures var s := Login(users, email, password, deviceType, passwordMatches, token, now).state;
      forall k :: 0 <= k < |s| ==> OneSessionPerDevice(s[k].sessions) && |s[k].sessions| <= 2
  {
    var s := Login(users, email, password, deviceType, passwordMatches, token, now).state;
    forall k | 0 <= k < |s| ensures OneSessionPerDevice(s[k].sessions) && |s[k].sessions| <= 2 {
      AtMostTwoSessions(s[k].sessions);
    }
  }

  // ---------------------------------------------------------------------
  // Session validation

  /** The header value a client sends with its token. */
  function BearerHeader(t: Token): string {
    "Bearer " + t
  }

  /** `authorization?.split(' ')[1]`, treating an empty piece as missing. */
  function BearerToken(authorization: Option<string>): Option<Token> {
    match authorization
    case None => None
    case Some(h) =>
      var parts := Split(h, ' ');
      if |parts| >= 2 && Truthy(parts[1]) then Some(parts[1]) else None
  }

  /** Tokens as the signer produces them: non-empty, without spaces. */
  predicate WellFormedToken(t: Token) {
    Truthy(t) && ' ' !in t
  }

  /** The server reads back exactly the token the client put in the header. */
  lemma BearerRoundTrip(t: Token)
    requires WellFormedToken(t)
    ensures BearerToken(Some(BearerHeader(t))) == Some(t)
  {
    assert BearerHeader(t) == "Bearer" + [' '] + t;
    SplitAtFirst("Bearer", ' ', t);
    SplitNoSeparator(t, ' ');
  }

  /** The part of the user a valid session reports. */
  datatype SessionUser = SessionUser(id: Id, fullName: string, role: Role)

  /** `POST /api/auth/validate-session`. `Ok` is `valid: true`; every
      rejection is a 401 with `valid: false`. */
  function ValidateSession(users: seq<User>, authorization: Option<string>, decode: TokenDecoder): (r: Reply<SessionUser>)
    ensures r.Ok? ==> r.status == 200
    ensures r.Error? ==> r.status == 401
    ensures BearerToken(authorization).None? ==> r == Error(401, MsgNoToken)
    ensures BearerToken(authorization).Some? && decode(BearerToken(authorization).value).None? ==>
      r == Error(401, MsgInvalidToken)
    ensures r.Ok? <==>
      && BearerToken(authorization).Some?
      && decode(BearerToken(authorization).value).Some?
      && FindUser(users, decode(BearerToken(authorization).value).value).Some?
      && IsLive(users[FindUser(users, decode(BearerToken(authorization).value).value).value].sessions,
                BearerToken(authorization).value)
    ensures r.Ok? ==> r.value.id == decode(BearerToken(authorization).value).value
  {
    match BearerToken(authorization)
    case None => Error(401, MsgNoToken)
    case Some(t) =>
      match decode(t)
      case None => Error(401, MsgInvalidToken)
      case Some(uid) =>
        match FindUser(users, uid)
        case None => Error(401, MsgUserNotFound)
        case Some(i) =>
          var u := users[i];
          if IsLive(u.sessions, t) then Ok(200, SessionUser(u.id, u.fullName, u.role))
          else Error(401, MsgSuperseded)
  }

  /** The rejection reasons, in the order the validator checks them. */
  lemma ValidateRejectionReasons(users: seq<User>, t: Token, decode: TokenDecoder)
    requires WellFormedToken(t)
    ensures var r := ValidateSession(users, Some(BearerHeader(t)), decode);
      && (decode(t).None? ==> r == Error(401, MsgInvalidToken))
      && (decode(t).Some? && FindUser(users, decode(t).value).None? ==> r == Error(401, MsgUserNotFound))
      && (decode(t).Some? && FindUser(users, decode(t).value).Some? ==>
            (r.Ok? <==> IsLive(users[FindUser(users, decode(t).value).value].sessions, t)))
      && (decode(t).Some? && FindUser(users, decode(t).value).Some?
          && !IsLive(users[FindUser(users, decode(t).value).value].sessions, t) ==>
            r == Error(401, MsgSuperseded))
  {
    BearerRoundTrip(t);
  }

  // ---------------------------------------------------------------------
  // Re-login supersedes the earlier token

  /** A login changes nothing but one user's sessions. */
  lemma LoginKeepsIdentities(users: seq<User>, email: string, password: string, deviceType: string,
                             passwordMatches: PasswordCheck, token: Token, now: Time)
    ensures var s := Login(users, email, password, deviceType, passwordMatches, token, now).state;
      forall k :: 0 <= k < |users| ==> s[k] == users[k].(sessions := s[k].sessions)
  {
  }

  /** Collections that agree on every user's identity and credentials
      answer `findOne` and `findById` the same way. */
  lemma SameLookups(a: seq<User>, b: seq<User>, email: string, id: Id)
    requires |a| == |b|
    requires forall k :: 0 <= k < |a| ==> a[k] == b[k].(sessions := a[k].sessions)
    ensures FindByEmail(a, email) == FindByEmail(b, email)
    ensures FindUser(a, id) == FindUser(b, id)
    ensures UniqueUserIds(a) <==> UniqueUserIds(b)
  {
    assert forall k :: 0 <= k < |a| ==> a[k].email == b[k].email && a[k].id == b[k].id;
    SameEmails(a, b, email);
    SameIds(a, b, id);
  }

  /** With unique ids, `findById` of a user's id finds that user. */
  lemma FindUserOfFound(users: seq<User>, i: nat)
    requires UniqueUserIds(users) && i < |users|
    ensures FindUser(users, users[i].id) == Some(i)
  {
  }

  /** Which tokens survive an upsert: the new one, and the tokens of the
      other device classes. */
  lemma UpsertSessionTokens(ss: seq<Session>, s: Session, t: Token)
    ensures IsLive(UpsertSession(ss, s), t) <==>
      (t == s.token || exists k :: 0 <= k < |ss| && ss[k].token == t && ss[k].deviceType != s.deviceType)
  {
    var r := UpsertSession(ss, s);
    if exists k :: 0 <= k < |ss| && ss[k].token == t && ss[k].deviceType != s.deviceType {
      var k :| 0 <= k < |ss| && ss[k].token == t && ss[k].deviceType != s.deviceType;
      assert ss[k] in r[..|r| - 1];
      var j :| 0 <= j < |r| - 1 && r[..|r| - 1][j] == ss[k];
      assert r[j].token == t;
    }
    if IsLive(r, t) && t != s.token {
      var j :| 0 <= j < |r| && r[j].token == t;
      assert r[j] in r[..|r| - 1];
      var k :| 0 <= k < |ss| && ss[k] == r[j];
    }
  }

  /** The effect of a successful login on the collection: only the found
      user's session list changes, by an upsert of the new session. */
  lemma LoginEffect(users: seq<User>, email: string, password: string, deviceType: string,
                    passwordMatches: PasswordCheck, token: Token, now: Time)
    requires Login(users, email, password, deviceType, passwordMatches, token, now).reply.Ok?
    ensures var s := Login(users, email, password, deviceType, passwordMatches, token, now).state;
      var i := FindByEmail(users, email).value;
      && |s| == |users|
      && s[i].sessions == UpsertSession(users[i].sessions, Session(ParseDeviceType(deviceType).value, token, now))
      && (forall k :: 0 <= k < |users| ==> s[k] == users[k].(sessions := s[k].sessions))
      && FindByEmail(s, email) == Some(i)
      && (UniqueUserIds(users) ==> UniqueUserIds(s) && FindUser(s, users[i].id) == Some(i))
  {
    var s := Login(users, email, password, deviceType, passwordMatches, token, now).state;
    var i := FindByEmail(users, email).value;
    LoginKeepsIdentities(users, email, password, deviceType, passwordMatches, token, now);
    SameLookups(s, users, email, users[i].id);
    if UniqueUserIds(users) {
      FindUserOfFound(users, i);
    }
    UpsertMakesTokenCurrent(users[i].sessions, Session(ParseDeviceType(deviceType).value, token, now));
  }

  /** Every session carrying token `t` is of device class `d`. */
  predicate HeldOnlyOn(ss: seq<Session>, t: Token, d: DeviceType) {
    forall k :: 0 <= k < |ss| && ss[k].token == t ==> ss[k].deviceType == d
  }

  /** Upserting a session with another token keeps where `t` is held. */
  lemma UpsertKeepsHeldOnlyOn(ss: seq<Session>, s: Session, t: Token, d: DeviceType)
    requires HeldOnlyOn(ss, t, d) && s.token != t
    ensures HeldOnlyOn(UpsertSession(ss, s), t, d)
  {
    var r := UpsertSession(ss, s);
    forall k | 0 <= k < |r| && r[k].token == t ensures r[k].deviceType == d {
      assert r[k] in r[..|r| - 1];
    }
  }

  /** Upserting a session with a token not held before makes the token held
      only on the session's device class. */
  lemma UpsertNewTokenHeldOnlyOn(ss: seq<Session>, s: Session)
    requires forall k :: 0 <= k < |ss| ==> ss[k].token != s.token
    ensures HeldOnlyOn(UpsertSession(ss, s), s.token, s.deviceType)
  {
    var r := UpsertSession(ss, s);
    forall k | 0 <= k < |r| - 1 ensures r[k].token != s.token {
      assert r[k] in r[..|r| - 1];
    }
  }

  /** A login on device class `d` supersedes every token the user held only
      on `d`: such a token fails validation afterwards, while the new token
      passes. */
  lemma LoginSupersedesDevice(users: seq<User>, email: string, password: string, deviceType: string,
                              passwordMatches: PasswordCheck, decode: TokenDecoder,
                              stale: Token, current: Token, now: Time)
    requires UniqueUserIds(users)
    requires Login(users, email, password, deviceType, passwordMatches, current, now).reply.Ok?
    requires WellFormedToken(stale) && WellFormedToken(current) && stale != current
    requires var i := FindByEmail(users, email).value;
      && decode(stale) == Some(users[i].id) && decode(current) == Some(users[i].id)
      && HeldOnlyOn(users[i].sessions, stale, ParseDeviceType(deviceType).value)
    ensures var s := Login(users, email, password, deviceType, passwordMatches, current, now).state;
      && ValidateSession(s, Some(BearerHeader(stale)), decode) == Error(401, MsgSuperseded)
      && ValidateSession(s, Some(BearerHeader(current)), decode).Ok?
  {
    var s := Login(users, email, password, deviceType, passwordMatches, current, now).state;
    var i := FindByEmail(users, email).value;
    var d := ParseDeviceType(deviceType).value;
    LoginEffect(users, email, password, deviceType, passwordMatches, current, now);
    UpsertSessionTokens(users[i].sessions, Session(d, current, now), stale);
    UpsertMakesTokenCurrent(users[i].sessions, Session(d, current, now));
    ValidateRejectionReasons(s, stale, decode);
    ValidateRejectionReasons(s, current, decode);
  }

  /** A successful login makes its token pass validation. */
  lemma LoginTokenValidates(users: seq<User>, email: string, password: string, deviceType: string,
                            passwordMatches: PasswordCheck, decode: TokenDecoder, token: Token, now: Time)
    requires UniqueUserIds(users)
    requires Login(users, email, password, deviceType, passwordMatches, token, now).reply.Ok?
    requires WellFormedToken(token)
    requires decode(token) == Some(users[FindByEmail(users, email).value].id)
    ensures ValidateSession(Login(users, email, password, deviceType, passwordMatches, token, now).state,
                            Some(BearerHeader(token)), decode).Ok?
  {
    var s := Login(users, email, password, deviceType, passwordMatches, token, now).state;
    var i := FindByEmail(users, email).value;
    LoginEffect(users, email, password, deviceType, passwordMatches, token, now);
    UpsertMakesTokenCurrent(users[i].sessions, Session(ParseDeviceType(deviceType).value, token, now));
    ValidateRejectionReasons(s, token, decode);
  }

  /** A login on one device class does not change whether a token held on
      another device class validates. */
  lemma LoginKeepsOtherDeviceToken(users: seq<User>, email: string, password: string, deviceType: string,
                                   passwordMatches: PasswordCheck, decode: TokenDecoder,
                                   token: Token, now: Time, other: Token)
    requires UniqueUserIds(users)
    requires Login(users, email, password, deviceType, passwordMatches, token, now).reply.Ok?
    requires WellFormedToken(other)
    requires var i := FindByEmail(users, email).value;
      && decode(other) == Some(users[i].id)
      && exists k :: 0 <= k < |users[i].sessions| && users[i].sessions[k].token == other
           && users[i].sessions[k].deviceType != ParseDeviceType(deviceType).value
    ensures ValidateSession(users, Some(BearerHeader(other)), decode).Ok?
    ensures ValidateSession(Login(users, email, password, deviceType, passwordMatches, token, now).state,
                            Some(BearerHeader(other)), decode).Ok?
  {
    var s := Login(users, email, password, deviceType, passwordMatches, token, now).state;
    var i := FindByEmail(users, email).value;
    LoginEffect(users, email, password, deviceType, passwordMatches, token, now);
    FindUserOfFound(users, i);
    UpsertSessionTokens(users[i].sessions, Session(ParseDeviceType(deviceType).value, token, now), other);
    ValidateRejectionReasons(users, other, decode);
    ValidateRejectionReasons(s, other, decode);
  }

  /** Logging in twice on the same device class with a fresh second token
      makes the first token fail validation as superseded, while the second
      one passes. */
  lemma ReloginSupersedes(users: seq<User>, email: string, password: string, deviceType: string,
                          passwordMatches: PasswordCheck, decode: TokenDecoder,
                          t1: Token, t2: Token, now1: Time, now2: Time)
    requires UniqueUserIds(users)
    requires Login(users, email, password, deviceType, passwordMatches, t1, now1).reply.Ok?
    requires WellFormedToken(t1) && WellFormedToken(t2) && t1 != t2
    requires var i := FindByEmail(users, email).value;
      && decode(t1) == Some(users[i].id) && decode(t2) == Some(users[i].id)
      && forall k :: 0 <= k < |users[i].sessions| ==> users[i].sessions[k].token != t1
    ensures var s1 := Login(users, email, password, deviceType, passwordMatches, t1, now1).state;
      && ValidateSession(s1, Some(BearerHeader(t1)), decode).Ok?
      && var s2 := Login(s1, email, password, deviceType, passwordMatches, t2, now2).state;
      && ValidateSession(s2, Some(BearerHeader(t1)), decode) == Error(401, MsgSuperseded)
      && ValidateSession(s2, Some(BearerHeader(t2)), decode).Ok?
  {
    var i := FindByEmail(users, email).value;
    var d := ParseDeviceType(deviceType).value;
    var s1 := Login(users, email, password, deviceType, passwordMatches, t1, now1).state;
    LoginEffect(users, email, password, deviceType, passwordMatches, t1, now1);
    LoginTokenValidates(users, email, password, deviceType, passwordMatches, decode, t1, now1);
    UpsertNewTokenHeldOnlyOn(users[i].sessions, Session(d, t1, now1));
    assert s1[i].id == users[i].id;
    LoginAgain(users, email, password, deviceType, passwordMatches, t1, now1, deviceType, t2, now2);
    LoginSupersedesDevice(s1, email, password, deviceType, passwordMatches, decode, t1, t2, now2);
  }

  /** Two logins on the same account succeed alike: a successful login
      leaves the account findable with the same password hash. */
  lemma LoginAgain(users: seq<User>, email: string, password: string, deviceType: string,
                   passwordMatches: PasswordCheck, token: Token, now: Time,
                   deviceType2: string, token2: Token, now2: Time)
    requires Login(users, email, password, deviceType, passwordMatches, token, now).reply.Ok?
    requires ParseDeviceType(deviceType2).Some?
    ensures var s := Login(users, email, password, deviceType, passwordMatches, token, now).state;
      Login(s, email, password, deviceType2, passwordMatches, token2, now2).reply.Ok?
  {
    LoginEffect(users, email, password, deviceType, passwordMatches, token, now);
  }

  /** The first two steps of `PhoneLaptopPhone`. */
  lemma PhoneThenLaptop(users: seq<User>, email: string, password: string,
                        passwordMatches: PasswordCheck, decode: TokenDecoder,
                        t1: Token, t2: Token, n1: Time, n2: Time)
    requires UniqueUserIds(users)
    requires Login(users, email, password, "phone", passwordMatches, t1, n1).reply.Ok?
    requires WellFormedToken(t1) && WellFormedToken(t2) && t1 != t2
    requires var i := FindByEmail(users, email).value;
      && decode(t1) == Some(users[i].id) && decode(t2) == Some(users[i].id)
      && forall k :: 0 <= k < |users[i].sessions| ==> users[i].sessions[k].token != t1
    ensures var s1 := Login(users, email, password, "phone", passwordMatches, t1, n1).state;
      var r2 := Login(s1, email, password, "laptop", passwordMatches, t2, n2);
      var i := FindByEmail(users, email).value;
      && r2.reply.Ok?
      && FindByEmail(s1, email) == Some(i)
      && UniqueUserIds(s1) && s1[i].id == users[i].id
      && ValidateSession(r2.state, Some(BearerHeader(t1)), decode).Ok?
      && ValidateSession(r2.state, Some(BearerHeader(t2)), decode).Ok?
  {
    var i := FindByEmail(users, email).value;
    var s1 := Login(users, email, password, "phone", passwordMatches, t1, n1).state;
    LoginEffect(users, email, password, "phone", passwordMatches, t1, n1);
    LoginAgain(users, email, password, "phone", passwordMatches, t1, n1, "laptop", t2, n2);
    LoginEffect(s1, email, password, "laptop", passwordMatches, t2, n2);
    var ss1 := s1[i].sessions;
    assert ss1[|ss1| - 1] == Session(Phone, t1, n1);
    LoginKeepsOtherDeviceToken(s1, email, password, "laptop", passwordMatches, decode, t2, n2, t1);
    LoginTokenValidates(s1, email, password, "laptop", passwordMatches, decode, t2, n2);
  }

  /** After a phone login with a new token and a laptop login, the phone
      token is held on the phone only. */
  lemma PhoneThenLaptopHeld(users: seq<User>, email: string, password: string,
                        passwordMatches: PasswordCheck, decode: TokenDecoder,
                        t1: Token, t2: Token, n1: Time, n2: Time)
    requires UniqueUserIds(users)
    requires Login(users, email, password, "phone", passwordMatches, t1, n1).reply.Ok?
    requires WellFormedToken(t1) && WellFormedToken(t2) && t1 != t2
    requires var i := FindByEmail(users, email).value;
      && decode(t1) == Some(users[i].id) && decode(t2) == Some(users[i].id)
      && forall k :: 0 <= k < |users[i].sessions| ==> users[i].sessions[k].token != t1
    ensures var s1 := Login(users, email, password, "phone", passwordMatches, t1, n1).state;
      var r2 := Login(s1, email, password, "laptop", passwordMatches, t2, n2);
      var i := FindByEmail(users, email).value;
      && r2.reply.Ok?
      && FindByEmail(s1, email) == Some(i)
      && UniqueUserIds(s1) && s1[i].id == users[i].id
      && HeldOnlyOn(r2.state[i].sessions, t1, Phone)
  {
    var i := FindByEmail(users, email).value;
    var s1 := Login(users, email, password, "phone", passwordMatches, t1, n1).state;
    LoginEffect(users, email, password, "phone", passwordMatches, t1, n1);
    LoginAgain(users, email, password, "phone", passwordMatches, t1, n1, "laptop", t2, n2);
    LoginEffect(s1, email, password, "laptop", passwordMatches, t2, n2);
    var ss1 := s1[i].sessions;
    assert ss1[|ss1| - 1] == Session(Phone, t1, n1);
    UpsertNewTokenHeldOnlyOn(users[i].sessions, Session(Phone, t1, n1));
    UpsertKeepsHeldOnlyOn(ss1, Session(Laptop, t2, n2), t1, Phone);
  }

  /** The scenario of a phone login (token `t1`), a laptop login (`t2`) and
      a second phone login (`t3`): after the first two both tokens pass;
      after the third, `t1` is rejected as superseded while `t2` and `t3`
      pass. */
  lemma PhoneLaptopPhone(users: seq<User>, email: string, password: string,
                         passwordMatches: PasswordCheck, decode: TokenDecoder,
                         t1: Token, t2: Token, t3: Token, n1: Time, n2: Time, n3: Time)
    requires UniqueUserIds(users)
    requires Login(users, email, password, "phone", passwordMatches, t1, n1).reply.Ok?
    requires WellFormedToken(t1) && WellFormedToken(t2) && WellFormedToken(t3)
    requires t1 != t2 && t1 != t3 && t2 != t3
    requires var i := FindByEmail(users, email).value;
      && decode(t1) == Some(users[i].id) && decode(t2) == Some(users[i].id) && decode(t3) == Some(users[i].id)
      && forall k :: 0 <= k < |users[i].sessions| ==> users[i].sessions[k].token != t1
    ensures var s1 := Login(users, email, password, "phone", passwordMatches, t1, n1).state;
      var s2 := Login(s1, email, password, "laptop", passwordMatches, t2, n2).state;
      var s3 := Login(s2, email, password, "phone", passwordMatches, t3, n3).state;
      && ValidateSession(s2, Some(BearerHeader(t1)), decode).Ok?
      && ValidateSession(s2, Some(BearerHeader(t2)), decode).Ok?
      && ValidateSession(s3, Some(BearerHeader(t1)), decode) == Error(401, MsgSuperseded)
      && ValidateSession(s3, Some(BearerHeader(t2)), decode).Ok?
      && ValidateSession(s3, Some(BearerHeader(t3)), decode).Ok?
  {
    var i := FindByEmail(users, email).value;
    PhoneThenLaptop(users, email, password, passwordMatches, decode, t1, t2, n1, n2);
    PhoneThenLaptopHeld(users, email, password, passwordMatches, decode, t1, t2, n1, n2);
    var s1 := Login(users, email, password, "phone", passwordMatches, t1, n1).state;
    var s2 := Login(s1, email, password, "laptop", passwordMatches, t2, n2).state;
    LoginEffect(s1, email, password, "laptop", passwordMatches, t2, n2);
    LoginAgain(s1, email, password, "laptop", passwordMatches, t2, n2, "phone", t3, n3);
    var ss2 := s2[i].sessions;
    assert ss2[|ss2| - 1] == Session(Laptop, t2, n2);
    assert s2[i].id == users[i].id;
    LoginSupersedesDevice(s2, email, password, "phone", passwordMatches, decode, t1, t3, n3);
    LoginKeepsOtherDeviceToken(s2, email, password, "phone", passwordMatches, decode, t3, n3, t2);
  }

  // ---------------------------------------------------------------------
  // Registration

  /** The `interests` field as it arrives: absent, an array, or a string
      (multipart form data sends the array as JSON text). */
  datatype InterestsField = NoInterests | InterestList(items: seq<string>) | InterestText(raw: string)

  /** The interests stored for a new user: the array as sent, the parsed
      JSON when the text parses, and otherwise the text split on commas. */
  function ParseInterests(f: InterestsField, parseJson: JsonListParser): seq<string> {
    match f
    case NoInterests => []
    case InterestList(items) => items
    case InterestText(raw) =>
      match parseJson(raw)
      case Some(items) => items
      case None => Split(raw, ',')
  }

  /** The comma fallback loses nothing: its pieces contain no comma and join
      back to the text that was sent. */
  lemma InterestsFallbackRoundTrip(raw: string, parseJson: JsonListParser)
    requires parseJson(raw).None?
    ensures var xs := ParseInterests(InterestText(raw), parseJson);
      && |xs| >= 1
      && Join(xs, ',') == raw
      && forall k :: 0 <= k < |xs| ==> ',' !in xs[k]
  {
    JoinSplit(raw, ',');
  }

  /** The multipart fields of a registration. `password` is absent when the
      field was not sent; an empty string is a value. */
  datatype RegisterForm = RegisterForm(
    fullName: string, email: string, mobile: string, password: Option<string>,
    gender: Option<string>, role: string, interests: InterestsField)

  /** What a successful registration returns. There is no session list. */
  datatype RegisterReply = RegisterReply(
    id: Id, fullName: string, email: string, mobile: string,
    gender: Option<Gender>, role: Role, avatar: string, token: Token)

  const MsgHashFailed := "Illegal arguments: undefined, string"

  /** The gender field checked against its enum: absent is allowed. */
  function ParseOptionalGender(g: Option<string>): Option<Option<Gender>> {
    match g
    case None => Some(None)
    case Some(s) =>
      match ParseGender(s)
      case None => None
      case Some(v) => Some(Some(v))
  }

  /** `POST /api/auth/register`. `hashed` is the bcrypt hash of the password,
      `avatarPath` the uploaded file's path, `newId` the id the store assigns
      and `token` the token signed for it. */
  function Register(users: seq<User>, form: RegisterForm, hashed: string, avatarPath: Option<string>,
                    parseJson: JsonListParser, newId: Id, token: Token): (r: Step<RegisterReply, seq<User>>)
    ensures FindByEmail(users, form.email).Some? ==> r == Step(Error(400, MsgUserExists), users)
    ensures r.reply.Error? ==> r.state == users
    ensures r.reply.Ok? <==>
      && FindByEmail(users, form.email).None?
      && form.password.Some?
      && ParseRole(form.role).Some?
      && ParseOptionalGender(form.gender).Some?
      && Truthy(form.fullName) && Truthy(form.email) && Truthy(form.mobile) && Truthy(hashed)
    ensures FindByEmail(users, form.email).None? && r.reply.Error? ==> r.reply.status == 500
    ensures r.reply.Ok? ==>
      && FindByEmail(users, form.email).None?
      && |r.state| == |users| + 1
      && r.state[..|users|] == users
      && var u := r.state[|users|];
      && u.id == newId && u.email == form.email && u.password == hashed
      && u.sessions == []
      && ValidUser(u)
      && r.reply == Ok(201, RegisterReply(newId, u.fullName, u.email, u.mobile, u.gender, u.role, u.avatar, token))
    ensures r.reply.Ok? ==>
      && |r.state| == |users| + 1
      && var u := r.state[|users|];
      && u.fullName == form.fullName && u.mobile == form.mobile
      && RoleName(u.role) == form.role
      && (form.gender.None? ==> u.gender.None?)
      && (form.gender.Some? ==> u.gender.Some? && GenderName(u.gender.value) == form.gender.value)
      && u.interests == ParseInterests(form.interests, parseJson)
      && u.avatar == avatarPath.GetOr("")
    ensures r.reply.Ok? && UniqueEmails(users) ==> UniqueEmails(r.state)
  {
    if FindByEmail(users, form.email).Some? then
      Step(Error(400, MsgUserExists), users)
    else if form.password.None? then
      Step(Error(500, MsgHashFailed), users)
    else
      match (ParseRole(form.role), ParseOptionalGender(form.gender))
      case (Some(role), Some(gender)) =>
        var u := User(newId, form.fullName, form.email, form.mobile, hashed, gender, role,
                      ParseInterests(form.interests, parseJson), avatarPath.GetOr(""), []);
        if ValidUser(u) then
          var s := users + [u];
          assert s[..|users|] == users;
          Step(Ok(201, RegisterReply(newId, u.fullName, u.email, u.mobile, u.gender, u.role, u.avatar, token)), s)
        else Step(Error(500, MsgValidationFailed), users)
      case _ => Step(Error(500, MsgValidationFailed), users)
  }

  /** Registration issues a token but records no session, so that token
      does not pass validation until the user logs in. */
  lemma RegisterTokenNotLive(users: seq<User>, form: RegisterForm, hashed: string, avatarPath: Option<string>,
                             parseJson: JsonListParser, newId: Id, token: Token, decode: TokenDecoder)
    requires UniqueUserIds(users) && forall k :: 0 <= k < |users| ==> users[k].id != newId
    requires Register(users, form, hashed, avatarPath, parseJson, newId, token).reply.Ok?
    requires WellFormedToken(token) && decode(token) == Some(newId)
    ensures ValidateSession(Register(users, form, hashed, avatarPath, parseJson, newId, token).state,
                            Some(BearerHeader(token)), decode) == Error(401, MsgSuperseded)
  {
    var s := Register(users, form, hashed, avatarPath, parseJson, newId, token).state;
    assert forall k :: 0 <= k < |users| ==> s[k] == users[k];
    assert UniqueUserIds(s);
    FindUserOfFound(s, |users|);
    ValidateRejectionReasons(s, token, decode);
  }
}
