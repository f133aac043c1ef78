/** The analytics controller: dashboard figures for a student or a tutor. */
module Analytics {
  import opened Common
  import opened Seqs
  import opened Models
  import Text
  import Courses
  import Requests

  const MsgInvalidRole := "Invalid role"

  /** Figures not yet tracked, answered as constants. */
  const CompletedCoursesPlaceholder := 0
  const CertificatesPlaceholder := 0
  const ResumeCreditsPlaceholder := 3
  const TotalEarningsPlaceholder := 0

  datatype Stats =
    | StudentStats(enrolledCourses: nat, completedCourses: nat, certificates: nat, resumeCredits: nat)
    | TutorStats(totalStudents: nat, activeCourses: nat, pendingRequests: nat, totalEarnings: nat)

  function EnrolledIn(user: Id): Course -> bool {
    (c: Course) => user in c.enrolledStudents
  }

  function TaughtBy(user: Id): Course -> bool {
    (c: Course) => c.mentor == user
  }

  function StudentsOf(c: Course): nat {
    |c.enrolledStudents|
  }

  /** `GET /api/analytics/:userId?role=…`. */
  function GetAnalytics(courses: seq<Course>, requests: seq<StudentRequest>, user: Id, role: string): (r: Reply<Stats>)
    ensures role != "student" && role != "tutor" ==> r == Error(400, MsgInvalidRole)
    ensures role == "student" ==>
      && r.Ok? && r.value.StudentStats?
      && r.value.enrolledCourses <= |courses|
      && r.value.completedCourses == CompletedCoursesPlaceholder
      && r.value.certificates == CertificatesPlaceholder
      && r.value.resumeCredits == ResumeCreditsPlaceholder
    ensures role == "tutor" ==>
      && r.Ok? && r.value.TutorStats?
      && r.value.activeCourses <= |courses|
      && r.value.pendingRequests == Requests.GetPendingCount(requests, user)
      && r.value.totalEarnings == TotalEarningsPlaceholder
    ensures r.Ok? ==> r.status == 200
  {
    if role == "student" then
      CountAtMostLength(courses, EnrolledIn(user));
      Ok(200, StudentStats(Count(courses, EnrolledIn(user)), CompletedCoursesPlaceholder,
                           CertificatesPlaceholder, ResumeCreditsPlaceholder))
    else if role == "tutor" then
      var mine := Filter(courses, TaughtBy(user));
      Ok(200, TutorStats(SumOf(mine, StudentsOf), |mine|,
                         Requests.GetPendingCount(requests, user), TotalEarningsPlaceholder))
    else Error(400, MsgInvalidRole)
  }

  /** The students of a course, counted only when `user` teaches it. */
  function StudentsIfTaught(user: Id): Course -> nat {
    (c: Course) => if c.mentor == user then |c.enrolledStudents| else 0
  }

  /** Summing over the courses a tutor teaches is summing over all courses
      with the others counted as zero. */
  lemma {:induction false} TaughtSum(courses: seq<Course>, user: Id)
    ensures SumOf(Filter(courses, TaughtBy(user)), StudentsOf) == SumOf(courses, StudentsIfTaught(user))
    decreases |courses|
  {
    if |courses| > 0 {
      var c := courses[0];
      var rest := courses[1..];
      assert courses == [c] + rest;
      TaughtSum(rest, user);
      SumAppend([c], rest, StudentsIfTaught(user));
      assert SumOf([c], StudentsIfTaught(user)) == StudentsIfTaught(user)(c);
      if c.mentor == user {
        assert Filter(courses, TaughtBy(user)) == [c] + Filter(rest, TaughtBy(user));
        SumAppend([c], Filter(rest, TaughtBy(user)), StudentsOf);
        assert SumOf([c], StudentsOf) == StudentsOf(c);
      }
    }
  }

  /** A tutor's student total counts every enrolment in every course the
      tutor teaches, and nothing from other tutors' courses. */
  lemma TutorTotalCountsOwnStudents(courses: seq<Course>, requests: seq<StudentRequest>, user: Id)
    ensures GetAnalytics(courses, requests, user, "tutor").value.totalStudents ==
      SumOf(courses, StudentsIfTaught(user))
  {
    TaughtSum(courses, user);
  }

  /** A student's course count is the length of the course list filtered on
      that student. */
  lemma EnrolledCountMatchesList(courses: seq<Course>, requests: seq<StudentRequest>, user: Id, test: Text.RegexTest)
    ensures GetAnalytics(courses, requests, user, "student").value.enrolledCourses ==
      |Courses.GetCourses(courses, Courses.CourseQuery("", "", None, Some(user)), test)|
  {
    var q := Courses.CourseQuery("", "", None, Some(user));
    var p := Courses.Matching(q, test);
    FilterSame(courses, p, EnrolledIn(user));
    FilterCount(courses, EnrolledIn(user));
    assert |multiset(Courses.GetCourses(courses, q, test))| == |multiset(Filter(courses, p))|;
  }

  /** A tutor's active courses are the course list filtered on that
      mentor. */
  lemma ActiveCoursesMatchList(courses: seq<Course>, requests: seq<StudentRequest>, user: Id, test: Text.RegexTest)
    ensures GetAnalytics(courses, requests, user, "tutor").value.activeCourses ==
      |Courses.GetCourses(courses, Courses.CourseQuery("", "", Some(user), None), test)|
  {
    var q := Courses.CourseQuery("", "", Some(user), None);
    var p := Courses.Matching(q, test);
    FilterSame(courses, p, TaughtBy(user));
    assert |multiset(Courses.GetCourses(courses, q, test))| == |multiset(Filter(courses, p))|;
  }

  /** A successful enrolment raises the student's course count by one. */
  lemma EnrollRaisesStudentCount(courses: seq<Course>, requests: seq<StudentRequest>, courseId: Id, student: Id)
    requires Courses.Enroll(courses, courseId, student).reply.Ok?
    ensures GetAnalytics(Courses.Enroll(courses, courseId, student).state, requests, student, "student").value.enrolledCourses ==
      GetAnalytics(courses, requests, student, "student").value.enrolledCourses + 1
  {
    var i := FindCourse(courses, courseId).value;
    var c' := courses[i].(enrolledStudents := courses[i].enrolledStudents + [student]);
    CountUpdate(courses, i, c', EnrolledIn(student));
  }

  /** A successful enrolment raises the course mentor's student total by
      one. */
  lemma EnrollRaisesTutorTotal(courses: seq<Course>, requests: seq<StudentRequest>, courseId: Id, student: Id)
    requires Courses.Enroll(courses, courseId, student).reply.Ok?
    ensures var m := courses[FindCourse(courses, courseId).value].mentor;
      GetAnalytics(Courses.Enroll(courses, courseId, student).state, requests, m, "tutor").value.totalStudents ==
      GetAnalytics(courses, requests, m, "tutor").value.totalStudents + 1
  {
    var i := FindCourse(courses, courseId).value;
    var m := courses[i].mentor;
    var c' := courses[i].(enrolledStudents := courses[i].enrolledStudents + [student]);
    FilterUpdateSum(courses, i, c', TaughtBy(m));
  }

  /** Replacing a course the filter keeps, by one it also keeps, changes the
      students summed over the filtered list by the difference. */
  lemma {:induction false} FilterUpdateSum(s: seq<Course>, i: nat, x: Course, p: Course -> bool)
    requires i < |s| && p(s[i]) && p(x)
    ensures SumOf(Filter(s[i := x], p), StudentsOf) + StudentsOf(s[i]) == SumOf(Filter(s, p), StudentsOf) + StudentsOf(x)
    decreases |s|
  {
    if i == 0 {
      assert s[i := x] == [x] + s[1..];
      assert Filter(s[i := x], p) == [x] + Filter(s[1..], p);
      assert Filter(s, p) == [s[0]] + Filter(s[1..], p);
      SumAppend([x], Filter(s[1..], p), StudentsOf);
      SumAppend([s[0]], Filter(s[1..], p), StudentsOf);
      assert [x][..0] == [] && [s[0]][..0] == [];
    } else {
      assert s[i := x][1..] == s[1..][i - 1 := x];
      FilterUpdateSum(s[1..], i - 1, x, p);
      var head := if p(s[0]) then [s[0]] else [];
      assert Filter(s[i := x], p) == head + Filter(s[1..][i - 1 := x], p);
      assert Filter(s, p) == head + Filter(s[1..], p);
      SumAppend(head, Filter(s[1..][i - 1 := x], p), StudentsOf);
      SumAppend(head, Filter(s[1..], p), StudentsOf);
    }
  }

  /** A request created for a mentor raises that mentor's pending count by
      one. */
  lemma CreateRequestRaisesPending(courses: seq<Course>, requests: seq<StudentRequest>, b: Requests.RequestBody, newId: Id, now: Time)
    requires Requests.CreateRequest(requests, b, newId, now).reply.Ok?
    ensures var m := b.mentorId.value;
      GetAnalytics(courses, Requests.CreateRequest(requests, b, newId, now).state, m, "tutor").value.pendingRequests ==
      GetAnalytics(courses, requests, m, "tutor").value.pendingRequests + 1
  {
    var r := Requests.CreateRequest(requests, b, newId, now);
    CountAppend(requests, [r.reply.value], Requests.PendingFor(b.mentorId.value));
    assert [r.reply.value][..0] == [];
  }
}
