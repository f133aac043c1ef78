/** The two course editors a tutor uses: the create page and the edit
    page. Both edit a draft course's module and video lists with the same
    field handlers; they differ in the module they add and in which
    remove buttons they show. */
module CourseEditor {
  import opened Common
  import opened Seqs
  import opened Models
  import Courses
  import CourseDetails

  /** The course being edited in the browser. The price is kept as given;
      the text inputs that would turn it into a string are not modelled. */
  datatype Draft = Draft(
    title: string, description: string, category: string, price: int,
    thumbnail: string, modules: seq<Module>)

  datatype DraftField = TitleField | DescriptionField | CategoryField | ThumbnailField
  datatype VideoField = VideoTitle | VideoUrl | VideoDuration

  const EmptyVideo := Video("", "", "")

  // ---------------------------------------------------------------------
  // Handlers shared by both pages

  /** A course-level text input. */
  function ChangeField(d: Draft, f: DraftField, value: string): (r: Draft)
    ensures r.modules == d.modules && r.price == d.price
    ensures f == TitleField ==> r == d.(title := value)
    ensures f == DescriptionField ==> r == d.(description := value)
    ensures f == CategoryField ==> r == d.(category := value)
    ensures f == ThumbnailField ==> r == d.(thumbnail := value)
  {
    match f
    case TitleField => d.(title := value)
    case DescriptionField => d.(description := value)
    case CategoryField => d.(category := value)
    case ThumbnailField => d.(thumbnail := value)
  }

  /** Sets module `i`'s title; an index without a module throws before any
      change, so the draft stays as it was. */
  function ChangeModuleTitle(d: Draft, i: int, value: string): (r: Draft)
    ensures |r.modules| == |d.modules|
    ensures forall k :: 0 <= k < |d.modules| && k != i ==> r.modules[k] == d.modules[k]
    ensures 0 <= i < |d.modules| ==> r.modules[i] == d.modules[i].(title := value)
    ensures !(0 <= i < |d.modules|) ==> r == d
    ensures r == d.(modules := r.modules)
  {
    if 0 <= i < |d.modules| then d.(modules := d.modules[i := d.modules[i].(title := value)]) else d
  }

  function SetVideoField(v: Video, f: VideoField, value: string): Video {
    match f
    case VideoTitle => v.(title := value)
    case VideoUrl => v.(url := value)
    case VideoDuration => v.(duration := value)
  }

  /** Replaces module `m`'s videos by `f` of them; nothing changes when
      there is no module `m`. */
  function MapModule(d: Draft, m: int, videos: seq<Video>): (r: Draft)
    ensures |r.modules| == |d.modules|
    ensures forall k :: 0 <= k < |d.modules| && k != m ==> r.modules[k] == d.modules[k]
    ensures 0 <= m < |d.modules| ==> r.modules[m] == d.modules[m].(videos := videos)
    ensures !(0 <= m < |d.modules|) ==> r == d
    ensures r == d.(modules := r.modules)
  {
    if 0 <= m < |d.modules| then d.(modules := d.modules[m := d.modules[m].(videos := videos)]) else d
  }

  /** Sets one field of video `v` of module `m`; missing indexes change
      nothing. */
  function ChangeVideo(d: Draft, m: int, v: int, f: VideoField, value: string): (r: Draft)
    ensures |r.modules| == |d.modules| && r == d.(modules := r.modules)
    ensures forall k :: 0 <= k < |d.modules| && k != m ==> r.modules[k] == d.modules[k]
    ensures 0 <= m < |d.modules| && 0 <= v < |d.modules[m].videos| ==>
      && r.modules[m].title == d.modules[m].title
      && |r.modules[m].videos| == |d.modules[m].videos|
      && r.modules[m].videos[v] == SetVideoField(d.modules[m].videos[v], f, value)
      && forall j :: 0 <= j < |d.modules[m].videos| && j != v ==> r.modules[m].videos[j] == d.modules[m].videos[j]
    ensures !(0 <= m < |d.modules| && 0 <= v < |d.modules[m].videos|) ==> r == d
  {
    if 0 <= m < |d.modules| && 0 <= v < |d.modules[m].videos| then
      var vs := d.modules[m].videos;
      MapModule(d, m, vs[v := SetVideoField(vs[v], f, value)])
    else d
  }

  /** Appends an empty video to module `m` only. */
  function AddVideo(d: Draft, m: int): (r: Draft)
    ensures |r.modules| == |d.modules| && r == d.(modules := r.modules)
    ensures forall k :: 0 <= k < |d.modules| && k != m ==> r.modules[k] == d.modules[k]
    ensures 0 <= m < |d.modules| ==> r.modules[m] == d.modules[m].(videos := d.modules[m].videos + [EmptyVideo])
    ensures !(0 <= m < |d.modules|) ==> r == d
  {
    if 0 <= m < |d.modules| then MapModule(d, m, d.modules[m].videos + [EmptyVideo]) else d
  }

  /** Removes video `v` of module `m` only, keeping the rest in order. */
  function RemoveVideo(d: Draft, m: int, v: int): (r: Draft)
    ensures |r.modules| == |d.modules| && r == d.(modules := r.modules)
    ensures forall k :: 0 <= k < |d.modules| && k != m ==> r.modules[k] == d.modules[k]
    ensures 0 <= m < |d.modules| ==> r.modules[m] == d.modules[m].(videos := DropIndex(d.modules[m].videos, v))
    ensures !(0 <= m < |d.modules|) ==> r == d
  {
    if 0 <= m < |d.modules| then MapModule(d, m, DropIndex(d.modules[m].videos, v)) else d
  }

  /** Removes module `i`, keeping the rest in order. */
  function RemoveModule(d: Draft, i: int): (r: Draft)
    ensures r == d.(modules := DropIndex(d.modules, i))
    ensures 0 <= i < |d.modules| ==> |r.modules| == |d.modules| - 1
  {
    d.(modules := DropIndex(d.modules, i))
  }

  // ---------------------------------------------------------------------
  // Lesson counts across the handlers

  /** Replacing one module changes the lesson count by the difference in
      its videos. */
  lemma LessonCountReplace(ms: seq<Module>, i: nat, m: Module)
    requires i < |ms|
    ensures CourseDetails.LessonCount(ms[i := m]) + |ms[i].videos| == CourseDetails.LessonCount(ms) + |m.videos|
  {
    SumUpdate(ms, i, m, CourseDetails.VideoCount);
  }

  /** Adding a video adds one lesson; removing an existing one removes
      one. */
  lemma VideoHandlersCountLessons(d: Draft, m: nat, v: int)
    requires m < |d.modules|
    ensures CourseDetails.LessonCount(AddVideo(d, m).modules) == CourseDetails.LessonCount(d.modules) + 1
    ensures 0 <= v < |d.modules[m].videos| ==>
      CourseDetails.LessonCount(RemoveVideo(d, m, v).modules) + 1 == CourseDetails.LessonCount(d.modules)
  {
    assert AddVideo(d, m).modules == d.modules[m := AddVideo(d, m).modules[m]];
    LessonCountReplace(d.modules, m, AddVideo(d, m).modules[m]);
    assert RemoveVideo(d, m, v).modules == d.modules[m := RemoveVideo(d, m, v).modules[m]];
    LessonCountReplace(d.modules, m, RemoveVideo(d, m, v).modules[m]);
  }

  // ---------------------------------------------------------------------
  // The create page

  /** The options of the category select. */
  const Categories: seq<string> := [
    "Web Development", "Data Science", "Mobile Development", "UI/UX Design",
    "DevOps", "Cybersecurity"]

  const DefaultCategory := "Web Development"
  const MsgOnlyMentors := "Only mentors can create courses."

  /** The draft the create page opens with: one module holding one video
      titled "Welcome". */
  const InitialDraft := Draft("", "", DefaultCategory, 0, "",
                              [Module("Introduction", [Video("Welcome", "", "")])])

  /** The module the create page adds: untitled, with one empty video. */
  const CreatePageModule := Module("", [EmptyVideo])

  function CreateAddModule(d: Draft): (r: Draft)
    ensures |r.modules| == |d.modules| + 1 && r == d.(modules := r.modules)
    ensures r.modules[..|d.modules|] == d.modules
    ensures r.modules[|d.modules|] == CreatePageModule
  {
    d.(modules := d.modules + [CreatePageModule])
  }

  /** The create page shows a module's remove button only while there are
      several modules, and a video's only while its module has several. */
  predicate CanRemoveModule(d: Draft) {
    |d.modules| > 1
  }

  predicate CanRemoveVideo(d: Draft, m: int) {
    0 <= m < |d.modules| && |d.modules[m].videos| > 1
  }

  /** A user action on the create page. */
  datatype CreateAction =
    | SetField(f: DraftField, value: string)
    | SetModuleTitle(mi: int, value: string)
    | SetVideo(vm: int, vi: int, vf: VideoField, value: string)
    | AddModuleAction
    | RemoveModuleAction(ri: int)
    | AddVideoAction(am: int)
    | RemoveVideoAction(rm: int, rv: int)

  /** The action has a button or input on the page as it is rendered:
      remove buttons are rendered for existing items only, and only while
      the guards allow; the category select offers its own options only,
      and there is no thumbnail input. */
  predicate Offered(d: Draft, a: CreateAction) {
    match a
    case RemoveModuleAction(i) => CanRemoveModule(d) && 0 <= i < |d.modules|
    case RemoveVideoAction(m, v) => CanRemoveVideo(d, m) && 0 <= v < |d.modules[m].videos|
    case SetField(f, value) => f != ThumbnailField && (f == CategoryField ==> value in Categories)
    case _ => true
  }

  function ApplyCreate(d: Draft, a: CreateAction): Draft {
    match a
    case SetField(f, value) => ChangeField(d, f, value)
    case SetModuleTitle(i, value) => ChangeModuleTitle(d, i, value)
    case SetVideo(m, v, f, value) => ChangeVideo(d, m, v, f, value)
    case AddModuleAction => CreateAddModule(d)
    case RemoveModuleAction(i) => RemoveModule(d, i)
    case AddVideoAction(m) => AddVideo(d, m)
    case RemoveVideoAction(m, v) => RemoveVideo(d, m, v)
  }

  /** The create page's shape: at least one module, every module with at
      least one video. */
  predicate NeverEmpty(d: Draft) {
    |d.modules| >= 1 && forall k :: 0 <= k < |d.modules| ==> |d.modules[k].videos| >= 1
  }

  /** Every offered action keeps the shape. */
  lemma ApplyCreateKeepsShape(d: Draft, a: CreateAction)
    requires NeverEmpty(d) && Offered(d, a)
    ensures NeverEmpty(ApplyCreate(d, a))
  {
    var r := ApplyCreate(d, a);
    match a
    case RemoveModuleAction(i) =>
      forall k | 0 <= k < |r.modules|
        ensures |r.modules[k].videos| >= 1
      {
        if k < i { assert r.modules[k] == d.modules[k]; }
        else { assert r.modules[k] == d.modules[k + 1]; }
      }
    case AddModuleAction =>
      forall k | 0 <= k < |r.modules|
        ensures |r.modules[k].videos| >= 1
      {
        if k < |d.modules| { assert r.modules[k] == d.modules[k]; }
      }
    case _ =>
  }

  /** The draft after a series of actions, each taken only when offered;
      None when some action was not offered. */
  function RunCreate(d: Draft, actions: seq<CreateAction>): Option<Draft>
    decreases |actions|
  {
    if |actions| == 0 then Some(d)
    else if !Offered(d, actions[0]) then None
    else RunCreate(ApplyCreate(d, actions[0]), actions[1..])
  }

  /** Whatever the tutor does on the create page, the draft keeps at least
      one module and each module keeps at least one video. */
  lemma {:induction false} CreatePageNeverEmpty(d: Draft, actions: seq<CreateAction>)
    requires NeverEmpty(d)
    requires RunCreate(d, actions).Some?
    ensures NeverEmpty(RunCreate(d, actions).value)
    decreases |actions|
  {
    if |actions| > 0 {
      ApplyCreateKeepsShape(d, actions[0]);
      CreatePageNeverEmpty(ApplyCreate(d, actions[0]), actions[1..]);
    }
  }

  lemma InitialDraftNeverEmpty()
    ensures NeverEmpty(InitialDraft)
    ensures CourseDetails.LessonCount(InitialDraft.modules) == 1
    ensures InitialDraft.category in Categories
  {
    var ms := InitialDraft.modules;
    assert ms[..0] == [];
  }

  /** The stored user as the create page reads it. */
  datatype PageUser = PageUser(id: Id, role: string)

  /** What pressing "Create Course" does: the browser blocks a form with an
      empty required input, the page refuses anyone but a tutor, and
      otherwise the draft is sent. */
  datatype Submission = Blocked | Refused(message: string) | Send(body: Courses.CourseBody)

  /** The browser's check of the inputs marked required: the title, the
      description, and every rendered module title, video title and video
      address; the price input, which always holds a number here, must not
      be below its minimum of 0. */
  predicate FormComplete(d: Draft) {
    Truthy(d.title) && Truthy(d.description) && d.price >= 0 && ValidModules(d.modules)
  }

  /** The request body: the draft with the signed-in tutor as mentor. */
  function Payload(d: Draft, mentor: Id): (b: Courses.CourseBody)
    ensures b.mentorId == Some(mentor)
    ensures b.title == d.title && b.description == d.description && b.category == d.category
    ensures b.price == Some(d.price) && b.thumbnail == d.thumbnail
    ensures b.modules == Some(d.modules)
  {
    Courses.CourseBody(d.title, d.description, d.category, Some(d.price), d.thumbnail,
                       Some(d.modules), Some(mentor))
  }

  function Submit(d: Draft, user: Option<PageUser>): (r: Submission)
    ensures r.Blocked? <==> !FormComplete(d)
    ensures r.Refused? <==> FormComplete(d) && (user.None? || user.value.role != "tutor")
    ensures r.Refused? ==> r.message == MsgOnlyMentors
    ensures r.Send? ==> user.Some? && user.value.role == "tutor" && r.body == Payload(d, user.value.id)
  {
    if !FormComplete(d) then Blocked
    else if user.None? || user.value.role != "tutor" then Refused(MsgOnlyMentors)
    else Send(Payload(d, user.value.id))
  }

  /** The browser and the server agree: for a tutor, a chosen category and
      a price the browser allows, the page sends exactly the drafts the
      server stores. */
  lemma PageAndServerAgree(courses: seq<Course>, d: Draft, tutor: Id, newId: Id, now: Time)
    requires Truthy(d.category) && d.price >= 0
    ensures Submit(d, Some(PageUser(tutor, "tutor"))).Send? <==>
      Courses.CreateCourse(courses, Payload(d, tutor), newId, now).reply.Ok?
  {
  }

  /** The untouched draft is blocked in the browser, whoever is signed in;
      were it sent, the server would refuse it with 400, as its title and
      description are empty. */
  lemma InitialDraftRefused(courses: seq<Course>, user: Option<PageUser>, tutor: Id, newId: Id, now: Time)
    ensures Submit(InitialDraft, user) == Blocked
    ensures Courses.CreateCourse(courses, Payload(InitialDraft, tutor), newId, now).reply == Error(400, Courses.MsgMissingFields)
  {
  }

  /** Filling in the texts is not enough: the "Welcome" video's address is
      still empty, so the browser blocks the form, and were it sent the
      server would fail to store it. */
  lemma WelcomeVideoNeedsAddress(courses: seq<Course>, user: Option<PageUser>, tutor: Id, title: string, description: string, newId: Id, now: Time)
    requires Truthy(title) && Truthy(description)
    ensures var d := InitialDraft.(title := title, description := description);
      && Submit(d, user) == Blocked
      && Courses.CreateCourse(courses, Payload(d, tutor), newId, now).reply == Error(500, Courses.MsgCourseValidationFailed)
  {
    var d := InitialDraft.(title := title, description := description);
    assert !ValidVideo(d.modules[0].videos[0]);
  }

  /** Whatever the tutor does on the page, a draft the page sends is stored:
      the category select only offers the page's categories. */
  lemma {:induction false} SentDraftStored(courses: seq<Course>, d: Draft, actions: seq<CreateAction>, tutor: Id, newId: Id, now: Time)
    requires d.category in Categories
    requires RunCreate(d, actions).Some?
    requires Submit(RunCreate(d, actions).value, Some(PageUser(tutor, "tutor"))).Send?
    ensures var e := RunCreate(d, actions).value;
      var r := Courses.CreateCourse(courses, Payload(e, tutor), newId, now).reply;
      && r.Ok? && r.value.modules == e.modules && r.value.price == e.price && r.value.mentor == tutor
  {
    CategoryStaysOffered(d, actions);
    var e := RunCreate(d, actions).value;
    assert Truthy(e.category);
    PageAndServerAgree(courses, e, tutor, newId, now);
  }

  /** The category stays one the select offers. */
  lemma {:induction false} CategoryStaysOffered(d: Draft, actions: seq<CreateAction>)
    requires d.category in Categories
    requires RunCreate(d, actions).Some?
    ensures RunCreate(d, actions).value.category in Categories
    decreases |actions|
  {
    if |actions| > 0 {
      CategoryStaysOffered(ApplyCreate(d, actions[0]), actions[1..]);
    }
  }

  // ---------------------------------------------------------------------
  // The edit page

  /** The module the edit page adds: untitled, with no videos. */
  const EditPageModule := Module("", [])

  function EditAddModule(d: Draft): (r: Draft)
    ensures |r.modules| == |d.modules| + 1 && r == d.(modules := r.modules)
    ensures r.modules[..|d.modules|] == d.modules
    ensures r.modules[|d.modules|] == EditPageModule
  {
    d.(modules := d.modules + [EditPageModule])
  }

  /** Adding a module on the create page adds a lesson; on the edit page it
      adds none. */
  lemma AddModuleLessons(d: Draft)
    ensures CourseDetails.LessonCount(CreateAddModule(d).modules) == CourseDetails.LessonCount(d.modules) + 1
    ensures CourseDetails.LessonCount(EditAddModule(d).modules) == CourseDetails.LessonCount(d.modules)
  {
    CourseDetails.LessonCountAppend(d.modules, [CreatePageModule]);
    CourseDetails.LessonCountAppend(d.modules, [EditPageModule]);
    assert [CreatePageModule][..0] == [] && [EditPageModule][..0] == [];
  }

  /** The edit page shows a remove button on every module, so the last one
      can go, leaving the empty state. */
  lemma EditPageCanEmpty(d: Draft)
    requires |d.modules| == 1
    ensures RemoveModule(d, 0).modules == []
  {
  }

  /** An edit-page module starts without videos, which the create page's
      shape never allows. */
  lemma EditAddModuleBreaksShape(d: Draft)
    ensures !NeverEmpty(EditAddModule(d))
  {
    var r := EditAddModule(d);
    assert r.modules[|d.modules|].videos == [];
  }
}
