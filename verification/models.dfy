/** The documents of the store (users, courses, student requests and
    messages) with the enumerations, defaults and required fields their
    schemas declare. A schema's `required` rejects a missing or empty
    string; an `enum` rejects any other string. */
module Models {
  import opened Common
  import opened Seqs

  // ---------------------------------------------------------------------
  // Users and their sessions

  /** The device class a session is bound to. */
  datatype DeviceType = Phone | Laptop

  function DeviceTypeName(d: DeviceType): string {
    match d
    case Phone => "phone"
    case Laptop => "laptop"
  }

  /** Reads a device type sent by a client; only the two enum strings parse. */
  function ParseDeviceType(s: string): (r: Option<DeviceType>)
    ensures r.Some? <==> s == "phone" || s == "laptop"
    ensures r.Some? ==> DeviceTypeName(r.value) == s
  {
    if s == "phone" then Some(Phone)
    else if s == "laptop" then Some(Laptop)
    else None
  }

  lemma DeviceTypeRoundTrip(d: DeviceType)
    ensures ParseDeviceType(DeviceTypeName(d)) == Some(d)
  {
  }

  datatype Role = Student | Tutor

  function RoleName(r: Role): string {
    match r
    case Student => "student"
    case Tutor => "tutor"
  }

  function ParseRole(s: string): (r: Option<Role>)
    ensures r.Some? <==> s == "student" || s == "tutor"
    ensures r.Some? ==> RoleName(r.value) == s
  {
    if s == "student" then Some(Student)
    else if s == "tutor" then Some(Tutor)
    else None
  }

  lemma RoleRoundTrip(r: Role)
    ensures ParseRole(RoleName(r)) == Some(r)
  {
  }

  datatype Gender = Male | Female | OtherGender

  function GenderName(g: Gender): string {
    match g
    case Male => "male"
    case Female => "female"
    case OtherGender => "other"
  }

  function ParseGender(s: string): (r: Option<Gender>)
    ensures r.Some? <==> s == "male" || s == "female" || s == "other"
    ensures r.Some? ==> GenderName(r.value) == s
  {
    if s == "male" then Some(Male)
    else if s == "female" then Some(Female)
    else if s == "other" then Some(OtherGender)
    else None
  }

  lemma GenderRoundTrip(g: Gender)
    ensures ParseGender(GenderName(g)) == Some(g)
  {
  }

  /** One active login: the device class, the token issued, and when. */
  datatype Session = Session(deviceType: DeviceType, token: Token, lastLogin: Time)

  /** A session needs a token; the device type is an enum by construction. */
  predicate ValidSession(s: Session) {
    Truthy(s.token)
  }

  /** A user document. `password` holds the hash, never the plain text;
      `gender` is optional. */
  datatype User = User(
    id: Id,
    fullName: string,
    email: string,
    mobile: string,
    password: string,
    gender: Option<Gender>,
    role: Role,
    interests: seq<string>,
    avatar: string,
    sessions: seq<Session>)

  /** The user schema's required fields, and valid sessions. */
  predicate ValidUser(u: User) {
    && Truthy(u.fullName)
    && Truthy(u.email)
    && Truthy(u.mobile)
    && Truthy(u.password)
    && forall k :: 0 <= k < |u.sessions| ==> ValidSession(u.sessions[k])
  }

  /** The unique index on `email`. */
  predicate UniqueEmails(users: seq<User>) {
    forall i, j :: 0 <= i < j < |users| ==> users[i].email != users[j].email
  }

  /** Document ids are unique within the users collection. */
  predicate UniqueUserIds(users: seq<User>) {
    forall i, j :: 0 <= i < j < |users| ==> users[i].id != users[j].id
  }

  /** Index of the user with `email` (`User.findOne({ email })`). */
  function FindByEmail(users: seq<User>, email: string): Option<nat> {
    IndexWhere(users, (u: User) => u.email == email)
  }

  /** Index of the user with `id` (`User.findById(id)`). */
  function FindUser(users: seq<User>, id: Id): Option<nat> {
    IndexWhere(users, (u: User) => u.id == id)
  }

  /** Collections whose users have the same ids, position by position, find
      every id at the same place. */
  lemma {:induction false} SameIds(a: seq<User>, b: seq<User>, id: Id)
    requires |a| == |b|
    requires forall k :: 0 <= k < |a| ==> a[k].id == b[k].id
    ensures FindUser(a, id) == FindUser(b, id)
    decreases |a|
  {
    if |a| > 0 && a[0].id != id {
      SameIds(a[1..], b[1..], id);
    }
  }

  /** Collections whose users have the same emails, position by position,
      find every email at the same place. */
  lemma {:induction false} SameEmails(a: seq<User>, b: seq<User>, email: string)
    requires |a| == |b|
    requires forall k :: 0 <= k < |a| ==> a[k].email == b[k].email
    ensures FindByEmail(a, email) == FindByEmail(b, email)
    decreases |a|
  {
    if |a| > 0 && a[0].email != email {
      SameEmails(a[1..], b[1..], email);
    }
  }

  // ---------------------------------------------------------------------
  // Courses

  datatype Video = Video(title: string, url: string, duration: string)

  /** A video needs a title and a url; the duration is optional. */
  predicate ValidVideo(v: Video) {
    Truthy(v.title) && Truthy(v.url)
  }

  datatype Module = Module(title: string, videos: seq<Video>)

  /** A module needs a title, and each of its videos must be valid. */
  predicate ValidModule(m: Module) {
    Truthy(m.title) && forall k :: 0 <= k < |m.videos| ==> ValidVideo(m.videos[k])
  }

  predicate ValidModules(ms: seq<Module>) {
    forall k :: 0 <= k < |ms| ==> ValidModule(ms[k])
  }

  /** One student's review of a course. */
  datatype Rating = Rating(student: Id, rating: int, review: string)

  const MinRating := 1
  const MaxRating := 5

  /** The rating schema's `min: 1, max: 5`. */
  predicate ValidRating(r: Rating) {
    MinRating <= r.rating <= MaxRating
  }

  /** The price a course gets when none is given. */
  const DefaultPrice := 0

  datatype Course = Course(
    id: Id,
    title: string,
    description: string,
    thumbnail: string,
    category: string,
    price: int,
    mentor: Id,
    enrolledStudents: seq<Id>,
    modules: seq<Module>,
    ratings: seq<Rating>,
    createdAt: Time)

  /** The course schema's required fields, modules and ratings. */
  predicate ValidCourse(c: Course) {
    && Truthy(c.title)
    && Truthy(c.description)
    && Truthy(c.category)
    && ValidModules(c.modules)
    && forall k :: 0 <= k < |c.ratings| ==> ValidRating(c.ratings[k])
  }

  function FindCourse(courses: seq<Course>, id: Id): Option<nat> {
    IndexWhere(courses, (c: Course) => c.id == id)
  }

  // ---------------------------------------------------------------------
  // Student requests

  datatype RequestStatus = Pending | Accepted | Rejected

  function StatusName(s: RequestStatus): string {
    match s
    case Pending => "pending"
    case Accepted => "accepted"
    case Rejected => "rejected"
  }

  function ParseStatus(s: string): (r: Option<RequestStatus>)
    ensures r.Some? <==> s == "pending" || s == "accepted" || s == "rejected"
    ensures r.Some? ==> StatusName(r.value) == s
  {
    if s == "pending" then Some(Pending)
    else if s == "accepted" then Some(Accepted)
    else if s == "rejected" then Some(Rejected)
    else None
  }

  lemma StatusRoundTrip(s: RequestStatus)
    ensures ParseStatus(StatusName(s)) == Some(s)
  {
  }

  /** The message a request gets when none is given. */
  const DefaultRequestMessage := ""

  /** A student's request to a mentor; `course` is optional. The student and
      mentor are required, so they are always present. */
  datatype StudentRequest = StudentRequest(
    id: Id,
    student: Id,
    mentor: Id,
    course: Option<Id>,
    message: string,
    status: RequestStatus,
    createdAt: Time)

  function FindRequest(requests: seq<StudentRequest>, id: Id): Option<nat> {
    IndexWhere(requests, (r: StudentRequest) => r.id == id)
  }

  // ---------------------------------------------------------------------
  // Messages

  datatype MessageType = Direct | Broadcast

  function MessageTypeName(t: MessageType): string {
    match t
    case Direct => "direct"
    case Broadcast => "broadcast"
  }

  function ParseMessageType(s: string): (r: Option<MessageType>)
    ensures r.Some? <==> s == "direct" || s == "broadcast"
    ensures r.Some? ==> MessageTypeName(r.value) == s
  {
    if s == "direct" then Some(Direct)
    else if s == "broadcast" then Some(Broadcast)
    else None
  }

  lemma MessageTypeRoundTrip(t: MessageType)
    ensures ParseMessageType(MessageTypeName(t)) == Some(t)
  {
  }

  /** The type a message gets when none is given. */
  const DefaultMessageType := Direct

  /** A chat message: one sender, a list of receivers (many for a
      broadcast), and the users who have read it. */
  datatype Message = Message(
    id: Id,
    sender: Id,
    receivers: seq<Id>,
    content: string,
    kind: MessageType,
    techStack: Option<string>,
    readBy: seq<Id>,
    createdAt: Time)

  /** The sender is present by construction; the content is required. */
  predicate ValidMessage(m: Message) {
    Truthy(m.content)
  }
}
