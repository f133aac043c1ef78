/** The chat controller: the mentor directory, direct and broadcast
    messages, and conversation histories. */
module Chat {
  import opened Common
  import opened Seqs
  import opened Text
  import opened Models

  const MsgMissingFields := "Missing required fields"
  const MsgTechStackRequired := "Tech stack required for broadcast"
  const MsgReceiverRequired := "Receiver ID required for direct message"
  /** The start of the schema error's message; the failing paths and
      reasons that follow it are not modelled. */
  const MsgMessageValidationFailed := "Message validation failed"

  /** The 404 text of a broadcast nobody receives. */
  function NoMentorsFor(techStack: string): string {
    "No mentors found for " + techStack
  }

  // ---------------------------------------------------------------------
  // getMentors

  /** Some interest of `u` matches the pattern (a regular expression on an
      array field matches when any element does). */
  predicate HasInterestMatching(u: User, pattern: string, test: RegexTest) {
    exists k :: 0 <= k < |u.interests| && test(pattern, u.interests[k])
  }

  /** A user the mentor directory lists for the skill and name filters,
      each applied only when given. */
  predicate ListedMentor(u: User, skill: string, search: string, test: RegexTest) {
    && u.role == Tutor
    && (Truthy(skill) ==> HasInterestMatching(u, skill, test))
    && (Truthy(search) ==> test(search, u.fullName))
  }

  /** A user without the password hash and the sessions. */
  datatype MentorCard = MentorCard(
    id: Id, fullName: string, email: string, mobile: string, gender: Option<Gender>,
    role: Role, interests: seq<string>, avatar: string)

  function Card(u: User): MentorCard {
    MentorCard(u.id, u.fullName, u.email, u.mobile, u.gender, u.role, u.interests, u.avatar)
  }

  function Cards(us: seq<User>): (r: seq<MentorCard>)
    ensures |r| == |us|
    ensures forall k :: 0 <= k < |us| ==> r[k] == Card(us[k])
  {
    seq(|us|, k requires 0 <= k < |us| => Card(us[k]))
  }

  /** `GET /api/chat/mentors`: the listed tutors, in store order, without
      their secrets. */
  function GetMentors(users: seq<User>, skill: string, search: string, test: RegexTest): (r: seq<MentorCard>)
    ensures |r| <= |users|
    ensures forall k :: 0 <= k < |r| ==> r[k].role == Tutor
  {
    var listed := Filter(users, (u: User) => ListedMentor(u, skill, search, test));
    Cards(listed)
  }

  /** Every listed tutor appears, and every card belongs to a listed
      tutor. */
  lemma GetMentorsContents(users: seq<User>, skill: string, search: string, test: RegexTest)
    ensures var r := GetMentors(users, skill, search, test);
      && (forall j :: 0 <= j < |users| && ListedMentor(users[j], skill, search, test) ==> Card(users[j]) in r)
      && (forall k :: 0 <= k < |r| ==> exists j :: 0 <= j < |users| && ListedMentor(users[j], skill, search, test) && r[k] == Card(users[j]))
  {
    var listed := Filter(users, (u: User) => ListedMentor(u, skill, search, test));
    var r := GetMentors(users, skill, search, test);
    forall j | 0 <= j < |users| && ListedMentor(users[j], skill, search, test)
      ensures Card(users[j]) in r
    {
      assert users[j] in listed;
      var k :| 0 <= k < |listed| && listed[k] == users[j];
      assert r[k] == Card(users[j]);
    }
    forall k | 0 <= k < |r|
      ensures exists j :: 0 <= j < |users| && ListedMentor(users[j], skill, search, test) && r[k] == Card(users[j])
    {
      assert listed[k] in users;
      var j :| 0 <= j < |users| && users[j] == listed[k];
      assert r[k] == Card(users[j]);
    }
  }

  /** With no filters the directory lists every tutor and no student. */
  lemma GetMentorsUnfiltered(users: seq<User>, test: RegexTest)
    ensures |GetMentors(users, "", "", test)| == Count(users, (u: User) => u.role == Tutor)
  {
    FilterSame(users, (u: User) => ListedMentor(u, "", "", test), (u: User) => u.role == Tutor);
    FilterCount(users, (u: User) => u.role == Tutor);
  }

  // ---------------------------------------------------------------------
  // sendMessage

  /** The body of `POST /api/chat/send`. */
  datatype SendBody = SendBody(
    senderId: Option<Id>, receiverId: Option<Id>, content: string,
    kind: Option<string>, techStack: Option<string>)

  predicate GivenText(s: Option<string>) {
    s.Some? && Truthy(s.value)
  }

  /** A tutor with an interest matching the broadcast's tech stack. */
  predicate BroadcastTarget(u: User, techStack: string, test: RegexTest) {
    u.role == Tutor && HasInterestMatching(u, techStack, test)
  }

  function Ids(us: seq<User>): (r: seq<Id>)
    ensures |r| == |us|
    ensures forall k :: 0 <= k < |us| ==> r[k] == us[k].id
  {
    seq(|us|, k requires 0 <= k < |us| => us[k].id)
  }

  /** The receivers of a broadcast: the targeted tutors, in store order. */
  function BroadcastReceivers(users: seq<User>, techStack: string, test: RegexTest): (r: seq<Id>)
    ensures |r| <= |users|
  {
    Ids(Filter(users, (u: User) => BroadcastTarget(u, techStack, test)))
  }

  /** A user id receives a broadcast exactly when it belongs to a targeted
      tutor. */
  lemma BroadcastReceiversExact(users: seq<User>, techStack: string, test: RegexTest, id: Id)
    ensures id in BroadcastReceivers(users, techStack, test) <==>
      exists j :: 0 <= j < |users| && users[j].id == id && BroadcastTarget(users[j], techStack, test)
  {
    var targets := Filter(users, (u: User) => BroadcastTarget(u, techStack, test));
    var r := BroadcastReceivers(users, techStack, test);
    if id in r {
      var k :| 0 <= k < |r| && r[k] == id;
      assert targets[k] in users;
      var j :| 0 <= j < |users| && users[j] == targets[k];
      assert users[j].id == id;
    }
    if exists j :: 0 <= j < |users| && users[j].id == id && BroadcastTarget(users[j], techStack, test) {
      var j :| 0 <= j < |users| && users[j].id == id && BroadcastTarget(users[j], techStack, test);
      assert users[j] in targets;
      var k :| 0 <= k < |targets| && targets[k] == users[j];
      assert r[k] == id;
    }
  }

  /** `POST /api/chat/send`. Only the exact type "broadcast" broadcasts;
      every other type takes the direct path, and a type outside the enum
      then fails when the message is stored. */
  function SendMessage(messages: seq<Message>, users: seq<User>, b: SendBody, test: RegexTest, newId: Id, now: Time): (r: Step<Message, seq<Message>>)
    ensures !Truthy(b.content) || b.senderId.None? ==> r == Step(Error(400, MsgMissingFields), messages)
    ensures Truthy(b.content) && b.senderId.Some? && b.kind == Some("broadcast") && !GivenText(b.techStack) ==>
      r == Step(Error(400, MsgTechStackRequired), messages)
    ensures Truthy(b.content) && b.senderId.Some? && b.kind != Some("broadcast") && b.receiverId.None? ==>
      r == Step(Error(400, MsgReceiverRequired), messages)
    ensures r.reply.Error? ==> r.state == messages
    ensures (&& Truthy(b.content) && b.senderId.Some? && b.kind == Some("broadcast") && GivenText(b.techStack)
             && |BroadcastReceivers(users, b.techStack.value, test)| == 0) ==>
      r == Step(Error(404, NoMentorsFor(b.techStack.value)), messages)
    ensures r.reply.Ok? <==>
      && Truthy(b.content) && b.senderId.Some?
      && (if b.kind == Some("broadcast") then
            GivenText(b.techStack) && |BroadcastReceivers(users, b.techStack.value, test)| > 0
          else
            b.receiverId.Some? && (b.kind.None? || ParseMessageType(b.kind.value).Some?))
    ensures r.reply.Ok? ==>
      var m := r.reply.value;
      && r.reply.status == 201
      && r.state == messages + [m]
      && ValidMessage(m)
      && m.sender == b.senderId.value && m.content == b.content && m.techStack == b.techStack
      && m.readBy == [] && m.id == newId && m.createdAt == now
      && (b.kind.None? ==> m.kind == DefaultMessageType)
      && (b.kind.Some? ==> MessageTypeName(m.kind) == b.kind.value)
      && (m.kind == Broadcast ==> m.receivers == BroadcastReceivers(users, b.techStack.value, test) && |m.receivers| > 0)
      && (m.kind == Direct ==> m.receivers == [b.receiverId.value])
  {
    if !Truthy(b.content) || b.senderId.None? then
      Step(Error(400, MsgMissingFields), messages)
    else
      var receivers: Reply<seq<Id>> :=
        if b.kind == Some("broadcast") then
          if !GivenText(b.techStack) then Error(400, MsgTechStackRequired)
          else
            var ids := BroadcastReceivers(users, b.techStack.value, test);
            if |ids| == 0 then Error(404, NoMentorsFor(b.techStack.value)) else Ok(200, ids)
        else if b.receiverId.None? then Error(400, MsgReceiverRequired)
        else Ok(200, [b.receiverId.value]);
      match receivers
      case Error(status, msg) => Step(Error(status, msg), messages)
      case Ok(_, ids) =>
        var kind := if b.kind.None? then Some(DefaultMessageType) else ParseMessageType(b.kind.value);
        if kind.None? then Step(Error(500, MsgMessageValidationFailed), messages)
        else
          var m := Message(newId, b.senderId.value, ids, b.content, kind.value, b.techStack, [], now);
          Step(Ok(201, m), messages + [m])
  }

  /** A broadcast with a tech stack no tutor matches is refused with 404
      and stores nothing. */
  lemma BroadcastWithoutTargets(messages: seq<Message>, users: seq<User>, b: SendBody, test: RegexTest, newId: Id, now: Time)
    requires Truthy(b.content) && b.senderId.Some? && b.kind == Some("broadcast") && GivenText(b.techStack)
    requires forall j :: 0 <= j < |users| ==> !BroadcastTarget(users[j], b.techStack.value, test)
    ensures SendMessage(messages, users, b, test, newId, now) == Step(Error(404, NoMentorsFor(b.techStack.value)), messages)
  {
    var ids := BroadcastReceivers(users, b.techStack.value, test);
    if |ids| > 0 {
      BroadcastReceiversExact(users, b.techStack.value, test, ids[0]);
    }
  }

  /** A direct message with an unknown type string passes every check and is
      then refused by the type enum. */
  lemma UnknownTypeRefused(messages: seq<Message>, users: seq<User>, b: SendBody, test: RegexTest, newId: Id, now: Time)
    requires Truthy(b.content) && b.senderId.Some? && b.receiverId.Some?
    requires b.kind.Some? && ParseMessageType(b.kind.value).None?
    ensures SendMessage(messages, users, b, test, newId, now) == Step(Error(500, MsgMessageValidationFailed), messages)
  {
  }

  // ---------------------------------------------------------------------
  // getChatHistory

  /** `m` was sent by `a` to `b`. */
  predicate SentTo(m: Message, a: Id, b: Id) {
    m.sender == a && b in m.receivers
  }

  /** The history filter: the conversation between `user` and `other` when
      `other` is given, otherwise every message `user` sent or received. */
  predicate InHistory(m: Message, user: Id, other: Option<Id>) {
    match other
    case Some(o) => SentTo(m, user, o) || SentTo(m, o, user)
    case None => m.sender == user || user in m.receivers
  }

  function HistoryFilter(user: Id, other: Option<Id>): Message -> bool {
    (m: Message) => InHistory(m, user, other)
  }

  function OldestFirstKey(m: Message): int {
    m.createdAt
  }

  /** `GET /api/chat/history/:userId`: oldest first. */
  function GetChatHistory(messages: seq<Message>, user: Id, other: Option<Id>): (r: seq<Message>)
    ensures forall i, j :: 0 <= i < j < |r| ==> r[i].createdAt <= r[j].createdAt
    ensures multiset(r) == multiset(Filter(messages, HistoryFilter(user, other)))
  {
    var r := SortBy(Filter(messages, HistoryFilter(user, other)), OldestFirstKey);
    assert forall i, j :: 0 <= i < j < |r| ==> OldestFirstKey(r[i]) <= OldestFirstKey(r[j]);
    r
  }

  /** The history holds exactly the messages the filter selects. */
  lemma GetChatHistoryMembers(messages: seq<Message>, user: Id, other: Option<Id>, m: Message)
    ensures m in GetChatHistory(messages, user, other) <==> m in messages && InHistory(m, user, other)
  {
    SortByMembers(Filter(messages, HistoryFilter(user, other)), OldestFirstKey, m);
  }

  /** Both sides of a conversation see the same history. */
  lemma ConversationSymmetric(messages: seq<Message>, a: Id, b: Id)
    ensures GetChatHistory(messages, a, Some(b)) == GetChatHistory(messages, b, Some(a))
  {
    FilterSame(messages, HistoryFilter(a, Some(b)), HistoryFilter(b, Some(a)));
  }

  /** A conversation is part of the inbox of either side. */
  lemma ConversationInInbox(messages: seq<Message>, a: Id, b: Id, m: Message)
    requires m in GetChatHistory(messages, a, Some(b))
    ensures m in GetChatHistory(messages, a, None)
  {
    GetChatHistoryMembers(messages, a, Some(b), m);
    GetChatHistoryMembers(messages, a, None, m);
  }

  /** A message just sent shows up in the sender's conversation with each
      of its receivers, and in each receiver's inbox. */
  lemma SentMessageInHistory(messages: seq<Message>, users: seq<User>, b: SendBody, test: RegexTest, newId: Id, now: Time, receiver: Id)
    requires SendMessage(messages, users, b, test, newId, now).reply.Ok?
    requires receiver in SendMessage(messages, users, b, test, newId, now).reply.value.receivers
    ensures var r := SendMessage(messages, users, b, test, newId, now);
      && r.reply.value in GetChatHistory(r.state, b.senderId.value, Some(receiver))
      && r.reply.value in GetChatHistory(r.state, receiver, None)
  {
    var r := SendMessage(messages, users, b, test, newId, now);
    var m := r.reply.value;
    assert m in r.state;
    GetChatHistoryMembers(r.state, b.senderId.value, Some(receiver), m);
    GetChatHistoryMembers(r.state, receiver, None, m);
  }

  /** A direct message with content, sender and receiver is sent, and the
      receiver finds it both in the conversation with the sender and in
      their inbox. */
  lemma DirectMessageDelivered(messages: seq<Message>, users: seq<User>, b: SendBody, test: RegexTest, newId: Id, now: Time)
    requires Truthy(b.content) && b.senderId.Some? && b.receiverId.Some?
    requires b.kind.None? || b.kind == Some("direct")
    ensures var r := SendMessage(messages, users, b, test, newId, now);
      && r.reply.Ok? && r.reply.value.receivers == [b.receiverId.value]
      && r.reply.value in GetChatHistory(r.state, b.senderId.value, b.receiverId)
      && r.reply.value in GetChatHistory(r.state, b.receiverId.value, None)
  {
    var r := SendMessage(messages, users, b, test, newId, now);
    assert b.kind.Some? ==> ParseMessageType(b.kind.value) == Some(Direct);
    assert r.reply.Ok?;
    SentMessageInHistory(messages, users, b, test, newId, now, b.receiverId.value);
  }
}
