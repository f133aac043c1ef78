/** The user controller: profile updates. */
module Profile {
  import opened Common
  import opened Seqs
  import opened Models
  import opened Auth

  const MsgUserNotFound := "User not found"
  /** The start of the schema error's message; the failing paths and
      reasons that follow it are not modelled. */
  const MsgUserValidationFailed := "User validation failed"

  /** The body of `PUT /api/users/profile/:id`; empty strings stand for
      absent fields. A password in the body is read and ignored. */
  datatype ProfileBody = ProfileBody(
    fullName: string, mobile: string, gender: string, password: string, token: Option<string>)

  /** What the update answers: the profile and the token the client sent. */
  datatype ProfileReply = ProfileReply(
    id: Id, fullName: string, email: string, mobile: string, gender: Option<Gender>,
    role: Role, avatar: string, token: Option<string>)

  /** `PUT /api/users/profile/:id`; `file` is the uploaded avatar's path,
      if any. */
  function UpdateUserProfile(users: seq<User>, id: Id, b: ProfileBody, file: Option<string>): (r: Step<ProfileReply, seq<User>>)
    ensures FindUser(users, id).None? ==> r == Step(Error(404, MsgUserNotFound), users)
    ensures r.reply.Error? ==> r.state == users
    ensures r.reply.Ok? <==> FindUser(users, id).Some? && (Truthy(b.gender) ==> ParseGender(b.gender).Some?)
    ensures FindUser(users, id).Some? && Truthy(b.gender) && ParseGender(b.gender).None? ==>
      r == Step(Error(500, MsgUserValidationFailed), users)
    ensures r.reply.Ok? ==> |r.state| == |users|
    ensures r.reply.Ok? ==>
      var i := FindUser(users, id).value;
      var u := r.state[i];
      && r.state == users[i := u]
      && r.reply == Ok(200, ProfileReply(u.id, u.fullName, u.email, u.mobile, u.gender, u.role, u.avatar, b.token))
  {
    match FindUser(users, id)
    case None => Step(Error(404, MsgUserNotFound), users)
    case Some(i) =>
      var u := users[i];
      if Truthy(b.gender) && ParseGender(b.gender).None? then
        Step(Error(500, MsgUserValidationFailed), users)
      else
        var g := if Truthy(b.gender) then Some(ParseGender(b.gender).value) else u.gender;
        var u' := u.(fullName := OrElse(b.fullName, u.fullName),
                     mobile := OrElse(b.mobile, u.mobile),
                     gender := g,
                     avatar := if file.Some? then file.value else u.avatar);
        Step(Ok(200, ProfileReply(u'.id, u'.fullName, u'.email, u'.mobile, u'.gender, u'.role, u'.avatar, b.token)),
             users[i := u'])
  }

  /** How the update merges: a truthy name, mobile or gender replaces the
      stored one, a falsy one keeps it; the avatar changes only with an
      upload; the password hash, email, role, interests and sessions never
      change, whatever the body holds. */
  lemma UpdateProfileMerge(users: seq<User>, id: Id, b: ProfileBody, file: Option<string>)
    requires UpdateUserProfile(users, id, b, file).reply.Ok?
    ensures var i := FindUser(users, id).value;
      var u := users[i];
      var u' := UpdateUserProfile(users, id, b, file).state[i];
      && (Truthy(b.fullName) ==> u'.fullName == b.fullName) && (!Truthy(b.fullName) ==> u'.fullName == u.fullName)
      && (Truthy(b.mobile) ==> u'.mobile == b.mobile) && (!Truthy(b.mobile) ==> u'.mobile == u.mobile)
      && (Truthy(b.gender) ==> u'.gender.Some? && GenderName(u'.gender.value) == b.gender)
      && (!Truthy(b.gender) ==> u'.gender == u.gender)
      && (file.Some? ==> u'.avatar == file.value) && (file.None? ==> u'.avatar == u.avatar)
      && u'.password == u.password && u'.email == u.email && u'.role == u.role
      && u'.interests == u.interests && u'.sessions == u.sessions && u'.id == u.id
  {
  }

  /** A profile update keeps every stored user valid and the email and id
      indexes unique. */
  lemma UpdateProfileKeepsInvariants(users: seq<User>, id: Id, b: ProfileBody, file: Option<string>)
    requires forall k :: 0 <= k < |users| ==> ValidUser(users[k])
    requires UniqueEmails(users) && UniqueUserIds(users)
    ensures var s := UpdateUserProfile(users, id, b, file).state;
      && (forall k :: 0 <= k < |s| ==> ValidUser(s[k]))
      && UniqueEmails(s) && UniqueUserIds(s)
  {
  }

  /** Updating a profile does not log anyone out: every bearer token is
      accepted afterwards exactly when it was before. */
  lemma UpdateProfileKeepsSessions(users: seq<User>, id: Id, b: ProfileBody, file: Option<string>,
                                   authorization: Option<string>, decode: TokenDecoder)
    ensures var s := UpdateUserProfile(users, id, b, file).state;
      ValidateSession(s, authorization, decode).Ok? == ValidateSession(users, authorization, decode).Ok?
  {
    var s := UpdateUserProfile(users, id, b, file).state;
    assert |s| == |users|;
    assert forall k :: 0 <= k < |s| ==> s[k].id == users[k].id && s[k].sessions == users[k].sessions;
    forall uid: Id
      ensures FindUser(s, uid) == FindUser(users, uid)
    {
      SameIds(users, s, uid);
    }
  }
}
