/** The request controller: students ask mentors for guidance, mentors
    accept or reject. */
module Requests {
  import opened Common
  import opened Seqs
  import opened Models

  const MsgPendingExists := "You already have a pending request to this mentor"
  /** The start of the schema error's message; the failing paths and
      reasons that follow it are not modelled. */
  const MsgRequestValidationFailed := "StudentRequest validation failed"
  const MsgInvalidStatus := "Invalid status"
  const MsgRequestNotFound := "Request not found"

  /** The body of `POST /api/requests`; each field may be absent. */
  datatype RequestBody = RequestBody(studentId: Option<Id>, mentorId: Option<Id>, courseId: Option<Id>, message: Option<string>)

  /** `r` is a pending request from `student` to `mentor`. An absent id
      matches nothing, since stored requests always carry both. */
  predicate PendingBetween(r: StudentRequest, student: Option<Id>, mentor: Option<Id>) {
    Some(r.student) == student && Some(r.mentor) == mentor && r.status == Pending
  }

  predicate HasPending(requests: seq<StudentRequest>, student: Option<Id>, mentor: Option<Id>) {
    exists k :: 0 <= k < |requests| && PendingBetween(requests[k], student, mentor)
  }

  /** `POST /api/requests`: refused while the same student has a pending
      request to the same mentor; a new request starts pending. */
  function CreateRequest(requests: seq<StudentRequest>, b: RequestBody, newId: Id, now: Time): (r: Step<StudentRequest, seq<StudentRequest>>)
    ensures HasPending(requests, b.studentId, b.mentorId) ==> r == Step(Error(400, MsgPendingExists), requests)
    ensures r.reply.Error? ==> r.state == requests
    ensures r.reply.Ok? <==> !HasPending(requests, b.studentId, b.mentorId) && b.studentId.Some? && b.mentorId.Some?
    ensures r.reply.Ok? ==>
      var q := r.reply.value;
      && r.reply.status == 201
      && r.state == requests + [q]
      && q.status == Pending
      && q.student == b.studentId.value && q.mentor == b.mentorId.value && q.course == b.courseId
      && (b.message.None? ==> q.message == DefaultRequestMessage)
      && (b.message.Some? ==> q.message == b.message.value)
      && q.id == newId && q.createdAt == now
  {
    if HasPending(requests, b.studentId, b.mentorId) then
      Step(Error(400, MsgPendingExists), requests)
    else if b.studentId.None? || b.mentorId.None? then
      Step(Error(500, MsgRequestValidationFailed), requests)
    else
      var q := StudentRequest(newId, b.studentId.value, b.mentorId.value, b.courseId,
                              b.message.GetOr(DefaultRequestMessage), Pending, now);
      Step(Ok(201, q), requests + [q])
  }

  /** A student has at most one pending request to each mentor. */
  predicate AtMostOnePending(requests: seq<StudentRequest>) {
    forall i, j :: 0 <= i < j < |requests| && requests[i].status == Pending && requests[j].status == Pending ==>
      requests[i].student != requests[j].student || requests[i].mentor != requests[j].mentor
  }

  /** Creating a request keeps at most one pending request per pair. */
  lemma CreateRequestKeepsAtMostOnePending(requests: seq<StudentRequest>, b: RequestBody, newId: Id, now: Time)
    requires AtMostOnePending(requests)
    ensures AtMostOnePending(CreateRequest(requests, b, newId, now).state)
  {
    var r := CreateRequest(requests, b, newId, now);
    if r.reply.Ok? {
      var s := r.state;
      forall i, j | 0 <= i < j < |s| && s[i].status == Pending && s[j].status == Pending
        ensures s[i].student != s[j].student || s[i].mentor != s[j].mentor
      {
        if j == |requests| {
          assert !PendingBetween(requests[i], b.studentId, b.mentorId);
        } else {
          assert s[i] == requests[i] && s[j] == requests[j];
        }
      }
    }
  }

  /** The mentor's requests with the given status, or all of them when no
      status is given. */
  predicate ForMentor(q: StudentRequest, mentor: Id, status: string) {
    q.mentor == mentor && (Truthy(status) ==> StatusName(q.status) == status)
  }

  function MentorView(mentor: Id, status: string): StudentRequest -> bool {
    (q: StudentRequest) => ForMentor(q, mentor, status)
  }

  function NewestRequestKey(q: StudentRequest): int {
    -q.createdAt
  }

  /** `GET /api/requests/mentor/:mentorId`: the mentor's requests, filtered
      by status when one is given, newest first. */
  function GetRequestsForMentor(requests: seq<StudentRequest>, mentor: Id, status: string): (r: seq<StudentRequest>)
    ensures forall i, j :: 0 <= i < j < |r| ==> r[i].createdAt >= r[j].createdAt
    ensures multiset(r) == multiset(Filter(requests, MentorView(mentor, status)))
  {
    var r := SortBy(Filter(requests, MentorView(mentor, status)), NewestRequestKey);
    assert forall i, j :: 0 <= i < j < |r| ==> NewestRequestKey(r[i]) <= NewestRequestKey(r[j]);
    r
  }

  /** The list holds exactly the mentor's requests with the status asked
      for, and as many as there are. */
  lemma GetRequestsForMentorContents(requests: seq<StudentRequest>, mentor: Id, status: string)
    ensures var r := GetRequestsForMentor(requests, mentor, status);
      && (forall q :: q in r <==> q in requests && q.mentor == mentor && (Truthy(status) ==> StatusName(q.status) == status))
      && |r| == Count(requests, MentorView(mentor, status))
  {
    var matching := Filter(requests, MentorView(mentor, status));
    var r := GetRequestsForMentor(requests, mentor, status);
    assert r == SortBy(matching, NewestRequestKey);
    forall q
      ensures q in r <==> q in matching
    {
      SortByMembers(matching, NewestRequestKey, q);
    }
    SortByLength(matching, NewestRequestKey);
    FilterCount(requests, MentorView(mentor, status));
  }

  /** A status filter outside the three statuses lists nothing. */
  lemma UnknownStatusListsNothing(requests: seq<StudentRequest>, mentor: Id, status: string)
    requires Truthy(status) && ParseStatus(status).None?
    ensures GetRequestsForMentor(requests, mentor, status) == []
  {
    var r := GetRequestsForMentor(requests, mentor, status);
    GetRequestsForMentorContents(requests, mentor, status);
    forall q | q in requests
      ensures q !in r
    {
      StatusRoundTrip(q.status);
    }
  }

  /** `PUT /api/requests/:requestId`: only "accepted" or "rejected" may be
      set, whatever the request's current status. */
  function UpdateRequestStatus(requests: seq<StudentRequest>, requestId: Id, status: string): (r: Step<StudentRequest, seq<StudentRequest>>)
    ensures status != "accepted" && status != "rejected" ==> r == Step(Error(400, MsgInvalidStatus), requests)
    ensures (status == "accepted" || status == "rejected") && FindRequest(requests, requestId).None? ==>
      r == Step(Error(404, MsgRequestNotFound), requests)
    ensures r.reply.Error? ==> r.state == requests
    ensures r.reply.Ok? <==> (status == "accepted" || status == "rejected") && FindRequest(requests, requestId).Some?
    ensures r.reply.Ok? ==>
      var i := FindRequest(requests, requestId).value;
      && r.reply.status == 200
      && StatusName(r.reply.value.status) == status
      && r.reply.value == requests[i].(status := r.reply.value.status)
      && r.state == requests[i := r.reply.value]
  {
    if status != "accepted" && status != "rejected" then
      Step(Error(400, MsgInvalidStatus), requests)
    else match FindRequest(requests, requestId)
      case None => Step(Error(404, MsgRequestNotFound), requests)
      case Some(i) =>
        var q := requests[i].(status := ParseStatus(status).value);
        Step(Ok(200, q), requests[i := q])
  }

  /** A status update never creates a pending request, so it keeps at most
      one pending request per pair. */
  lemma UpdateRequestStatusKeepsAtMostOnePending(requests: seq<StudentRequest>, requestId: Id, status: string)
    requires AtMostOnePending(requests)
    ensures AtMostOnePending(UpdateRequestStatus(requests, requestId, status).state)
    ensures forall k :: 0 <= k < |requests| && requests[k].status != Pending ==>
      UpdateRequestStatus(requests, requestId, status).state[k].status != Pending
  {
  }

  /** A decided request can be decided again the other way: the update does
      not look at the current status. */
  lemma DecisionCanBeReversed(requests: seq<StudentRequest>, requestId: Id)
    requires FindRequest(requests, requestId).Some?
    ensures var s1 := UpdateRequestStatus(requests, requestId, "accepted").state;
      var r2 := UpdateRequestStatus(s1, requestId, "rejected");
      r2.reply.Ok? && r2.reply.value.status == Rejected
  {
    var s1 := UpdateRequestStatus(requests, requestId, "accepted").state;
    var i := FindRequest(requests, requestId).value;
    assert s1[i].id == requestId;
  }

  function PendingFor(mentor: Id): StudentRequest -> bool {
    (q: StudentRequest) => q.mentor == mentor && q.status == Pending
  }

  /** `GET /api/requests/mentor/:mentorId/pending-count`. */
  function GetPendingCount(requests: seq<StudentRequest>, mentor: Id): (n: nat)
    ensures n <= |requests|
    ensures n == 0 <==> forall k :: 0 <= k < |requests| ==> !(requests[k].mentor == mentor && requests[k].status == Pending)
  {
    CountZeroIff(requests, PendingFor(mentor));
    CountAtMostLength(requests, PendingFor(mentor));
    Count(requests, PendingFor(mentor))
  }

  /** The pending count is the length of the mentor's list filtered by
      "pending". */
  lemma PendingCountMatchesList(requests: seq<StudentRequest>, mentor: Id)
    ensures GetPendingCount(requests, mentor) == |GetRequestsForMentor(requests, mentor, "pending")|
  {
    GetRequestsForMentorContents(requests, mentor, "pending");
    forall k | 0 <= k < |requests|
      ensures PendingFor(mentor)(requests[k]) == MentorView(mentor, "pending")(requests[k])
    {
      StatusRoundTrip(requests[k].status);
    }
    CountSame(requests, PendingFor(mentor), MentorView(mentor, "pending"));
  }
}
