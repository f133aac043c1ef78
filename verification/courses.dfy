/** The course controller: creating, listing, enrolling, reviewing and
    updating courses. */
module Courses {
  import opened Common
  import opened Seqs
  import opened Text
  import opened Models

  const MsgMissingFields := "Missing required fields"
  const MsgCourseNotFound := "Course not found"
  const MsgAlreadyEnrolled := "Already enrolled"
  const MsgEnrolled := "Enrolled successfully"
  const MsgAlreadyReviewed := "Product already reviewed"
  const MsgReviewAdded := "Review added"
  /** The start of the schema error's message; the failing paths and
      reasons that follow it are not modelled. */
  const MsgCourseValidationFailed := "Course validation failed"

  // ---------------------------------------------------------------------
  // createCourse

  /** The body of `POST /api/courses`; empty strings stand for absent
      fields. */
  datatype CourseBody = CourseBody(
    title: string, description: string, category: string, price: Option<int>,
    thumbnail: string, modules: Option<seq<Module>>, mentorId: Option<Id>)

  predicate HasRequiredFields(b: CourseBody) {
    Truthy(b.title) && Truthy(b.description) && Truthy(b.category) && b.mentorId.Some?
  }

  /** `POST /api/courses`: `newId` and `now` are the id and creation time the
      store assigns. */
  function CreateCourse(courses: seq<Course>, b: CourseBody, newId: Id, now: Time): (r: Step<Course, seq<Course>>)
    ensures !HasRequiredFields(b) ==> r == Step(Error(400, MsgMissingFields), courses)
    ensures r.reply.Error? ==> r.state == courses
    ensures r.reply.Ok? <==> HasRequiredFields(b) && ValidModules(b.modules.GetOr([]))
    ensures r.reply.Ok? ==>
      var c := r.reply.value;
      && r.reply.status == 201
      && r.state == courses + [c]
      && ValidCourse(c)
      && c.id == newId && c.createdAt == now
      && c.title == b.title && c.description == b.description && c.category == b.category
      && c.mentor == b.mentorId.value
      && (b.price.None? ==> c.price == DefaultPrice)
      && (b.price.Some? ==> c.price == b.price.value)
      && c.enrolledStudents == [] && c.ratings == []
      && c.modules == b.modules.GetOr([]) && c.thumbnail == b.thumbnail
  {
    if !HasRequiredFields(b) then
      Step(Error(400, MsgMissingFields), courses)
    else
      var c := Course(newId, b.title, b.description, b.thumbnail, b.category,
                      b.price.GetOr(DefaultPrice), b.mentorId.value, [],
                      b.modules.GetOr([]), [], now);
      if ValidModules(c.modules) then Step(Ok(201, c), courses + [c])
      else Step(Error(500, MsgCourseValidationFailed), courses)
  }

  // ---------------------------------------------------------------------
  // getCourses

  /** The query string of `GET /api/courses`; each filter applies only when
      given (empty or absent otherwise). */
  datatype CourseQuery = CourseQuery(category: string, search: string, mentor: Option<Id>, enrolled: Option<Id>)

  const NoCourseFilters := CourseQuery("", "", None, None)

  /** A course satisfies every filter that was given. `search` is a
      case-insensitive regular expression on the title. */
  predicate CourseMatches(q: CourseQuery, test: RegexTest, c: Course) {
    && (Truthy(q.category) ==> c.category == q.category)
    && (Truthy(q.search) ==> test(q.search, c.title))
    && (q.mentor.Some? ==> c.mentor == q.mentor.value)
    && (q.enrolled.Some? ==> q.enrolled.value in c.enrolledStudents)
  }

  /** `CourseMatches` as a filter argument. */
  function Matching(q: CourseQuery, test: RegexTest): Course -> bool {
    (c: Course) => CourseMatches(q, test, c)
  }

  /** Newest first: sort on the negated creation time. */
  function NewestFirstKey(c: Course): int {
    -c.createdAt
  }

  /** `GET /api/courses`: the matching courses, newest first. */
  function GetCourses(courses: seq<Course>, q: CourseQuery, test: RegexTest): (r: seq<Course>)
    ensures forall c :: c in r <==> c in courses && CourseMatches(q, test, c)
    ensures forall i, j :: 0 <= i < j < |r| ==> r[i].createdAt >= r[j].createdAt
    ensures multiset(r) == multiset(Filter(courses, Matching(q, test)))
  {
    var matching := Filter(courses, Matching(q, test));
    var r := SortBy(matching, NewestFirstKey);
    assert forall c :: c in r <==> c in matching by {
      forall c ensures c in r <==> c in matching {
        SortByMembers(matching, NewestFirstKey, c);
      }
    }
    assert forall i, j :: 0 <= i < j < |r| ==> NewestFirstKey(r[i]) <= NewestFirstKey(r[j]);
    r
  }

  /** With no filters every course is listed, each as often as it is
      stored. */
  lemma GetCoursesUnfiltered(courses: seq<Course>, test: RegexTest)
    ensures multiset(GetCourses(courses, NoCourseFilters, test)) == multiset(courses)
  {
    FilterAll(courses, Matching(NoCourseFilters, test));
  }

  // ---------------------------------------------------------------------
  // enrollCourse

  /** `POST /api/courses/:id/enroll`. */
  function Enroll(courses: seq<Course>, courseId: Id, studentId: Id): (r: Step<Id, seq<Course>>)
    ensures FindCourse(courses, courseId).None? ==> r == Step(Error(404, MsgCourseNotFound), courses)
    ensures FindCourse(courses, courseId).Some? &&
            studentId in courses[FindCourse(courses, courseId).value].enrolledStudents ==>
              r == Step(Error(400, MsgAlreadyEnrolled), courses)
    ensures r.reply.Ok? <==>
      FindCourse(courses, courseId).Some? && studentId !in courses[FindCourse(courses, courseId).value].enrolledStudents
    ensures r.reply.Ok? ==>
      var i := FindCourse(courses, courseId).value;
      && studentId !in courses[i].enrolledStudents
      && r.reply == Ok(200, courseId)
      && |r.state| == |courses|
      && (forall k :: 0 <= k < |courses| && k != i ==> r.state[k] == courses[k])
      && r.state[i] == courses[i].(enrolledStudents := courses[i].enrolledStudents + [studentId])
  {
    match FindCourse(courses, courseId)
    case None => Step(Error(404, MsgCourseNotFound), courses)
    case Some(i) =>
      var c := courses[i];
      if studentId in c.enrolledStudents then Step(Error(400, MsgAlreadyEnrolled), courses)
      else
        Step(Ok(200, courseId), courses[i := c.(enrolledStudents := c.enrolledStudents + [studentId])])
  }

  /** Every course lists each student at most once. */
  predicate EnrolmentsDistinct(courses: seq<Course>) {
    forall k :: 0 <= k < |courses| ==> NoDuplicates(courses[k].enrolledStudents)
  }

  /** Enrolment keeps every course's student list free of duplicates. */
  lemma EnrollKeepsDistinct(courses: seq<Course>, courseId: Id, studentId: Id)
    requires EnrolmentsDistinct(courses)
    ensures EnrolmentsDistinct(Enroll(courses, courseId, studentId).state)
  {
    var r := Enroll(courses, courseId, studentId);
    if r.reply.Ok? {
      var i := FindCourse(courses, courseId).value;
      var e := r.state[i].enrolledStudents;
      assert forall j :: 0 <= j < |e| - 1 ==> e[j] == courses[i].enrolledStudents[j];
    }
  }

  /** One enrolment request: the course and the student. */
  datatype EnrollCall = EnrollCall(courseId: Id, studentId: Id)

  /** The collection after a series of enrolment requests, in order. */
  function EnrollAll(courses: seq<Course>, calls: seq<EnrollCall>): seq<Course>
    decreases |calls|
  {
    if |calls| == 0 then courses
    else EnrollAll(Enroll(courses, calls[0].courseId, calls[0].studentId).state, calls[1..])
  }

  /** Any series of enrolment requests leaves every student list free of
      duplicates. */
  lemma {:induction false} EnrollAllKeepsDistinct(courses: seq<Course>, calls: seq<EnrollCall>)
    requires EnrolmentsDistinct(courses)
    ensures EnrolmentsDistinct(EnrollAll(courses, calls))
    decreases |calls|
  {
    if |calls| > 0 {
      EnrollKeepsDistinct(courses, calls[0].courseId, calls[0].studentId);
      EnrollAllKeepsDistinct(Enroll(courses, calls[0].courseId, calls[0].studentId).state, calls[1..]);
    }
  }

  // ---------------------------------------------------------------------
  // addReview

  /** `s` has already reviewed course `c`. */
  predicate HasReviewed(c: Course, s: Id) {
    exists k :: 0 <= k < |c.ratings| && c.ratings[k].student == s
  }

  /** `POST /api/courses/:id/review`. A rating outside 1..5 fails the schema
      when the course is saved. */
  function AddReview(courses: seq<Course>, courseId: Id, studentId: Id, rating: int, review: string): (r: Step<string, seq<Course>>)
    ensures FindCourse(courses, courseId).None? ==> r == Step(Error(404, MsgCourseNotFound), courses)
    ensures FindCourse(courses, courseId).Some? && HasReviewed(courses[FindCourse(courses, courseId).value], studentId) ==>
      r == Step(Error(400, MsgAlreadyReviewed), courses)
    ensures r.reply.Error? ==> r.state == courses
    ensures r.reply.Ok? <==>
      && FindCourse(courses, courseId).Some?
      && !HasReviewed(courses[FindCourse(courses, courseId).value], studentId)
      && MinRating <= rating <= MaxRating
    ensures r.reply.Ok? ==>
      var i := FindCourse(courses, courseId).value;
      && r.reply == Ok(201, MsgReviewAdded)
      && |r.state| == |courses|
      && (forall k :: 0 <= k < |courses| && k != i ==> r.state[k] == courses[k])
      && r.state[i] == courses[i].(ratings := courses[i].ratings + [Rating(studentId, rating, review)])
  {
    match FindCourse(courses, courseId)
    case None => Step(Error(404, MsgCourseNotFound), courses)
    case Some(i) =>
      var c := courses[i];
      if HasReviewed(c, studentId) then Step(Error(400, MsgAlreadyReviewed), courses)
      else if !(MinRating <= rating <= MaxRating) then Step(Error(500, MsgCourseValidationFailed), courses)
      else Step(Ok(201, MsgReviewAdded), courses[i := c.(ratings := c.ratings + [Rating(studentId, rating, review)])])
  }

  /** Each student has at most one rating on a course. */
  predicate OneReviewPerStudent(c: Course) {
    forall i, j :: 0 <= i < j < |c.ratings| ==> c.ratings[i].student != c.ratings[j].student
  }

  /** Reviews keep one rating per student on every course, and every stored
      rating in 1..5. */
  lemma AddReviewKeepsOnePerStudent(courses: seq<Course>, courseId: Id, studentId: Id, rating: int, review: string)
    requires forall k :: 0 <= k < |courses| ==> OneReviewPerStudent(courses[k])
    requires forall k, j :: 0 <= k < |courses| && 0 <= j < |courses[k].ratings| ==> ValidRating(courses[k].ratings[j])
    ensures var s := AddReview(courses, courseId, studentId, rating, review).state;
      && (forall k :: 0 <= k < |s| ==> OneReviewPerStudent(s[k]))
      && (forall k, j :: 0 <= k < |s| && 0 <= j < |s[k].ratings| ==> ValidRating(s[k].ratings[j]))
  {
    var r := AddReview(courses, courseId, studentId, rating, review);
    if r.reply.Ok? {
      var i := FindCourse(courses, courseId).value;
      var rs := r.state[i].ratings;
      assert forall j :: 0 <= j < |rs| - 1 ==> rs[j] == courses[i].ratings[j];
      assert OneReviewPerStudent(r.state[i]);
    }
  }

  // ---------------------------------------------------------------------
  // updateCourse

  /** The body of `PUT /api/courses/:id`. Empty strings and an absent module
      list are falsy; an empty module list is truthy. */
  datatype CoursePatch = CoursePatch(
    title: string, description: string, category: string, price: Option<int>,
    thumbnail: string, modules: Option<seq<Module>>)

  /** `PUT /api/courses/:id`: a field-by-field merge of the patch into the
      stored course. */
  function UpdateCourse(courses: seq<Course>, courseId: Id, p: CoursePatch): (r: Step<Course, seq<Course>>)
    ensures FindCourse(courses, courseId).None? ==> r == Step(Error(404, MsgCourseNotFound), courses)
    ensures r.reply.Error? ==> r.state == courses
    ensures r.reply.Ok? <==>
      FindCourse(courses, courseId).Some? && ValidModules(p.modules.GetOr(courses[FindCourse(courses, courseId).value].modules))
    ensures FindCourse(courses, courseId).Some? && !r.reply.Ok? ==>
      r == Step(Error(500, MsgCourseValidationFailed), courses)
    ensures r.reply.Ok? ==>
      var i := FindCourse(courses, courseId).value;
      && r.reply.status == 200
      && r.state == courses[i := r.reply.value]
      && ValidModules(r.reply.value.modules)
  {
    match FindCourse(courses, courseId)
    case None => Step(Error(404, MsgCourseNotFound), courses)
    case Some(i) =>
      var c := courses[i];
      var c' := c.(title := OrElse(p.title, c.title),
                   description := OrElse(p.description, c.description),
                   category := OrElse(p.category, c.category),
                   price := p.price.GetOr(c.price),
                   thumbnail := OrElse(p.thumbnail, c.thumbnail),
                   modules := p.modules.GetOr(c.modules));
      if ValidModules(c'.modules) then Step(Ok(200, c'), courses[i := c'])
      else Step(Error(500, MsgCourseValidationFailed), courses)
  }

  /** How the update merges: a falsy field keeps the stored value, a truthy
      one replaces it; the price is replaced whenever it is given, even by
      0; the mentor, the enrolled students, the ratings, the id and the
      creation time never change. */
  lemma UpdateCourseMerge(courses: seq<Course>, courseId: Id, p: CoursePatch)
    requires UpdateCourse(courses, courseId, p).reply.Ok?
    ensures var c := courses[FindCourse(courses, courseId).value];
      var c' := UpdateCourse(courses, courseId, p).reply.value;
      && (Truthy(p.title) ==> c'.title == p.title) && (!Truthy(p.title) ==> c'.title == c.title)
      && (Truthy(p.description) ==> c'.description == p.description)
      && (!Truthy(p.description) ==> c'.description == c.description)
      && (Truthy(p.category) ==> c'.category == p.category) && (!Truthy(p.category) ==> c'.category == c.category)
      && (Truthy(p.thumbnail) ==> c'.thumbnail == p.thumbnail) && (!Truthy(p.thumbnail) ==> c'.thumbnail == c.thumbnail)
      && (p.price.Some? ==> c'.price == p.price.value) && (p.price.None? ==> c'.price == c.price)
      && (p.modules.Some? ==> c'.modules == p.modules.value) && (p.modules.None? ==> c'.modules == c.modules)
      && c'.mentor == c.mentor && c'.enrolledStudents == c.enrolledStudents && c'.ratings == c.ratings
      && c'.id == c.id && c'.createdAt == c.createdAt
  {
  }
}
