/** The client-side search boxes: the mentor directory's search and the
    course catalogue's category tabs and title search. Matching is a
    case-insensitive substring test. */
module Filters {
  import opened Common
  import opened Seqs
  import opened Text
  import Chat

  /** `hay` contains `needle`, ignoring case. */
  predicate ContainsIgnoringCase(hay: string, needle: string) {
    Contains(Lower(hay), Lower(needle))
  }

  /** Every string contains the empty search. */
  lemma EmptySearchMatches(hay: string)
    ensures ContainsIgnoringCase(hay, "")
  {
    ContainsEmpty(Lower(hay));
  }

  /** A match for an extended search is a match for its start. */
  lemma LongerSearchNarrows(hay: string, search: string, more: string)
    requires ContainsIgnoringCase(hay, search + more)
    ensures ContainsIgnoringCase(hay, search)
  {
    LowerAppend(search, more);
    ContainsPrefixOfNeedle(Lower(hay), Lower(search), Lower(more));
  }

  // ---------------------------------------------------------------------
  // Mentor directory

  /** A mentor is shown when the name or some interest contains the
      search. */
  predicate MentorMatches(m: Chat.MentorCard, search: string) {
    || ContainsIgnoringCase(m.fullName, search)
    || exists k :: 0 <= k < |m.interests| && ContainsIgnoringCase(m.interests[k], search)
  }

  function MentorSearch(search: string): Chat.MentorCard -> bool {
    (m: Chat.MentorCard) => MentorMatches(m, search)
  }

  function FilteredMentors(mentors: seq<Chat.MentorCard>, search: string): (r: seq<Chat.MentorCard>)
    ensures forall m :: m in r <==> m in mentors && MentorMatches(m, search)
  {
    Filter(mentors, MentorSearch(search))
  }

  /** The shown mentors keep the directory's order. */
  lemma FilteredMentorsInOrder(mentors: seq<Chat.MentorCard>, search: string)
    ensures IsSubsequence(FilteredMentors(mentors, search), mentors)
  {
    FilterIsSubsequence(mentors, MentorSearch(search));
  }

  /** An empty search shows every mentor. */
  lemma EmptyMentorSearchKeepsAll(mentors: seq<Chat.MentorCard>)
    ensures FilteredMentors(mentors, "") == mentors
  {
    forall m | m in mentors
      ensures MentorMatches(m, "")
    {
      EmptySearchMatches(m.fullName);
    }
    FilterAll(mentors, MentorSearch(""));
  }

  /** A mentor without interests is found by name only. */
  lemma NoInterestsNameOnly(m: Chat.MentorCard, search: string)
    requires m.interests == []
    ensures MentorMatches(m, search) <==> ContainsIgnoringCase(m.fullName, search)
  {
  }

  /** Typing more can only hide mentors. */
  lemma LongerMentorSearchNarrows(mentors: seq<Chat.MentorCard>, search: string, more: string)
    ensures IsSubsequence(FilteredMentors(mentors, search + more), FilteredMentors(mentors, search))
  {
    forall m | MentorMatches(m, search + more)
      ensures MentorMatches(m, search)
    {
      if ContainsIgnoringCase(m.fullName, search + more) {
        LongerSearchNarrows(m.fullName, search, more);
      } else {
        var k :| 0 <= k < |m.interests| && ContainsIgnoringCase(m.interests[k], search + more);
        LongerSearchNarrows(m.interests[k], search, more);
      }
    }
    FilterNarrower(mentors, MentorSearch(search), MentorSearch(search + more));
  }

  // ---------------------------------------------------------------------
  // Course catalogue

  /** A catalogue entry; the picture, level and figures are display only. */
  datatype CatalogueCourse = CatalogueCourse(id: nat, title: string, category: string)

  const AllCategories := "All"

  /** The built-in catalogue. */
  const Catalogue: seq<CatalogueCourse> := [
    CatalogueCourse(1, "Full Stack Web Development", "Development"),
    CatalogueCourse(2, "Cyber Security Fundamentals", "Security"),
    CatalogueCourse(3, "Flutter Mobile App Dev", "Mobile"),
    CatalogueCourse(4, "AI Tools & Prompt Engineering", "AI/ML")]

  /** The category tabs. */
  const CategoryTabs: seq<string> := ["All", "Development", "Security", "Mobile", "AI/ML", "Design"]

  predicate CourseShown(c: CatalogueCourse, category: string, query: string) {
    (category == AllCategories || c.category == category) && ContainsIgnoringCase(c.title, query)
  }

  function CourseSearch(category: string, query: string): CatalogueCourse -> bool {
    (c: CatalogueCourse) => CourseShown(c, category, query)
  }

  function FilteredCourses(courses: seq<CatalogueCourse>, category: string, query: string): (r: seq<CatalogueCourse>)
    ensures forall c :: c in r <==> c in courses && CourseShown(c, category, query)
  {
    Filter(courses, CourseSearch(category, query))
  }

  /** The shown courses keep the catalogue's order. */
  lemma FilteredCoursesInOrder(courses: seq<CatalogueCourse>, category: string, query: string)
    ensures IsSubsequence(FilteredCourses(courses, category, query), courses)
  {
    FilterIsSubsequence(courses, CourseSearch(category, query));
  }

  /** The "All" tab with an empty search shows everything. */
  lemma AllTabShowsEverything(courses: seq<CatalogueCourse>)
    ensures FilteredCourses(courses, AllCategories, "") == courses
  {
    forall c | c in courses
      ensures CourseShown(c, AllCategories, "")
    {
      EmptySearchMatches(c.title);
    }
    FilterAll(courses, CourseSearch(AllCategories, ""));
  }

  /** Typing more can only hide courses. */
  lemma LongerCourseSearchNarrows(courses: seq<CatalogueCourse>, category: string, query: string, more: string)
    ensures IsSubsequence(FilteredCourses(courses, category, query + more), FilteredCourses(courses, category, query))
  {
    forall c | CourseShown(c, category, query + more)
      ensures CourseShown(c, category, query)
    {
      LongerSearchNarrows(c.title, query, more);
    }
    FilterNarrower(courses, CourseSearch(category, query), CourseSearch(category, query + more));
  }

  /** The "Design" tab shows nothing: no built-in course has that
      category, whatever the search. */
  lemma DesignTabEmpty(query: string)
    ensures "Design" in CategoryTabs
    ensures FilteredCourses(Catalogue, "Design", query) == []
  {
    var r := FilteredCourses(Catalogue, "Design", query);
    forall c | c in Catalogue
      ensures c !in r
    {
    }
  }
}
