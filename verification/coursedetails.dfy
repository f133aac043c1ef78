/** The course page a student watches: enrolment check, the video shown
    first, the embeddable video address, the lesson count and the review
    stars. */
module CourseDetails {
  import opened Common
  import opened Seqs
  import opened Text
  import opened Models
  import Courses

  /** An entry of the fetched `enrolledStudents`: a populated user object or
      a bare id. */
  datatype EnrolledEntry = Populated(userId: Id) | Raw(rawId: Id)

  /** The entry stands for the user `u` (`s._id === u || s === u`). */
  predicate EntryIs(e: EnrolledEntry, u: Id) {
    match e
    case Populated(id) => id == u
    case Raw(id) => id == u
  }

  /** The signed-in user (if any) is among the course's students. */
  predicate IsEnrolled(user: Option<Id>, entries: seq<EnrolledEntry>) {
    user.Some? && exists k :: 0 <= k < |entries| && EntryIs(entries[k], user.value)
  }

  /** The enrolled list as the course page fetches it, populated. */
  function PopulatedEntries(ids: seq<Id>): (r: seq<EnrolledEntry>)
    ensures |r| == |ids|
    ensures forall k :: 0 <= k < |ids| ==> r[k] == Populated(ids[k])
  {
    seq(|ids|, k requires 0 <= k < |ids| => Populated(ids[k]))
  }

  /** The page shows a student as enrolled exactly when the stored course
      lists them. */
  lemma IsEnrolledMatchesStore(user: Option<Id>, ids: seq<Id>)
    ensures IsEnrolled(user, PopulatedEntries(ids)) <==> user.Some? && user.value in ids
  {
    if user.Some? && user.value in ids {
      var k :| 0 <= k < |ids| && ids[k] == user.value;
      assert EntryIs(PopulatedEntries(ids)[k], user.value);
    }
  }

  /** After a successful enrolment the page shows the student as enrolled. */
  lemma EnrolledAfterEnroll(courses: seq<Course>, courseId: Id, student: Id)
    requires Courses.Enroll(courses, courseId, student).reply.Ok?
    ensures var i := FindCourse(courses, courseId).value;
      IsEnrolled(Some(student), PopulatedEntries(Courses.Enroll(courses, courseId, student).state[i].enrolledStudents))
  {
    var i := FindCourse(courses, courseId).value;
    var ids := Courses.Enroll(courses, courseId, student).state[i].enrolledStudents;
    assert ids[|ids| - 1] == student;
    IsEnrolledMatchesStore(Some(student), ids);
  }

  /** The video selected when the page loads: the first video of the first
      module, when there is one. */
  function InitialVideo(modules: seq<Module>): (v: Option<Video>)
    ensures v.Some? <==> |modules| > 0 && |modules[0].videos| > 0
    ensures v.Some? ==> v.value == modules[0].videos[0]
  {
    if |modules| > 0 && |modules[0].videos| > 0 then Some(modules[0].videos[0]) else None
  }

  function VideoCount(m: Module): nat {
    |m.videos|
  }

  /** The "N Lessons" figure: the videos of all modules together. */
  function LessonCount(modules: seq<Module>): nat {
    SumOf(modules, VideoCount)
  }

  /** Lessons add up over a split of the module list. */
  lemma LessonCountAppend(a: seq<Module>, b: seq<Module>)
    ensures LessonCount(a + b) == LessonCount(a) + LessonCount(b)
  {
    SumAppend(a, b, VideoCount);
  }

  /** A course whose first video is shown has lessons; the converse fails
      when the first module is empty and a later one is not. */
  lemma InitialVideoHasLessons(modules: seq<Module>)
    requires InitialVideo(modules).Some?
    ensures LessonCount(modules) > 0
  {
    LessonCountAppend([modules[0]], modules[1..]);
    assert [modules[0]] + modules[1..] == modules;
    assert [modules[0]][..0] == [];
  }

  /** No first video is shown although the course has lessons exactly
      when the first module is empty and a later one has a video. */
  lemma LessonsWithoutInitialVideo(ms: seq<Module>)
    ensures InitialVideo(ms).None? && LessonCount(ms) > 0 <==>
      |ms| > 0 && ms[0].videos == [] && LessonCount(ms[1..]) > 0
  {
    if |ms| > 0 {
      assert ms == [ms[0]] + ms[1..];
      LessonCountAppend([ms[0]], ms[1..]);
      var first := [ms[0]];
      assert first[..0] == [];
      assert SumOf(first, VideoCount) == SumOf(first[..0], VideoCount) + VideoCount(ms[0]);
    }
  }

  const ShortHost := "youtu.be/"
  const EmbedHost := "youtube.com/embed/"
  const WatchPath := "watch?v="
  const EmbedPath := "embed/"

  /** The player address: the first short-link host becomes the embed host,
      then the first watch path becomes the embed path. */
  function EmbedUrl(url: string): (r: string)
    ensures !Contains(url, ShortHost) && !Contains(url, WatchPath) ==> r == url
    ensures !Contains(url, ShortHost) ==> r == ReplaceFirst(url, WatchPath, EmbedPath)
  {
    ReplaceFirst(ReplaceFirst(url, ShortHost, EmbedHost), WatchPath, EmbedPath)
  }

  /** A watch link `a + "watch?v=" + b` (no short-link host, no earlier
      watch path) plays as `a + "embed/" + b`. */
  lemma WatchLinkEmbedded(a: string, b: string)
    requires !Contains(a + WatchPath + b, ShortHost)
    requires forall k :: 0 <= k < |a| ==> !OccursAt(a + WatchPath + b, WatchPath, k)
    ensures EmbedUrl(a + WatchPath + b) == a + EmbedPath + b
  {
    ReplaceFirstAt(a, WatchPath, b, EmbedPath);
  }

  /** A short link `a + "youtu.be/" + b` (no earlier short-link host, and no
      watch path after the rewrite) plays as `a + "youtube.com/embed/" + b`. */
  lemma ShortLinkEmbedded(a: string, b: string)
    requires forall k :: 0 <= k < |a| ==> !OccursAt(a + ShortHost + b, ShortHost, k)
    requires !Contains(a + EmbedHost + b, WatchPath)
    ensures EmbedUrl(a + ShortHost + b) == a + EmbedHost + b
  {
    ReplaceFirstAt(a, ShortHost, b, EmbedHost);
  }

  /** Clicking a video plays it only for an enrolled student. */
  function ClickVideo(enrolled: bool, active: Option<Video>, clicked: Video): (r: Option<Video>)
    ensures enrolled ==> r == Some(clicked)
    ensures !enrolled ==> r == active
  {
    if enrolled then Some(clicked) else active
  }

  /** The video playing after a series of clicks, starting from `active`. */
  function Watch(enrolled: bool, active: Option<Video>, clicks: seq<Video>): Option<Video>
    decreases |clicks|
  {
    if |clicks| == 0 then active
    else Watch(enrolled, ClickVideo(enrolled, active, clicks[0]), clicks[1..])
  }

  /** A visitor who is not enrolled keeps the video the page opened with,
      whatever they click; an enrolled student ends on the last video
      clicked. */
  lemma {:induction false} ClicksPlayLast(enrolled: bool, active: Option<Video>, clicks: seq<Video>)
    ensures !enrolled ==> Watch(enrolled, active, clicks) == active
    ensures enrolled && |clicks| > 0 ==> Watch(enrolled, active, clicks) == Some(clicks[|clicks| - 1])
    decreases |clicks|
  {
    if |clicks| > 0 {
      ClicksPlayLast(enrolled, ClickVideo(enrolled, active, clicks[0]), clicks[1..]);
    }
  }

  /** The rating the review form starts with, and the stars it offers. */
  const DefaultReviewRating := 5
  const Stars: seq<int> := [1, 2, 3, 4, 5]

  /** Every rating the form can send passes the schema's range. */
  lemma ReviewFormRatingsValid(studentId: Id, review: string)
    ensures ValidRating(Rating(studentId, DefaultReviewRating, review))
    ensures forall k :: 0 <= k < |Stars| ==> ValidRating(Rating(studentId, Stars[k], review))
    ensures forall r :: MinRating <= r <= MaxRating ==> r in Stars
  {
  }

  /** A review sent from the form, with the default rating or any star, is
      accepted unless the course is missing or the student has already
      reviewed it. */
  lemma ReviewFromFormAccepted(courses: seq<Course>, courseId: Id, studentId: Id, rating: int, review: string)
    requires rating == DefaultReviewRating || rating in Stars
    ensures Courses.AddReview(courses, courseId, studentId, rating, review).reply.Ok? <==>
      FindCourse(courses, courseId).Some? && !Courses.HasReviewed(courses[FindCourse(courses, courseId).value], studentId)
  {
    ReviewFormRatingsValid(studentId, review);
  }
}
