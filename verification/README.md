# EduPlatform in Dafny

A model of the EduPlatform learning site. It has two sides:

- the Express/Mongoose back end: authentication with one session per device class, courses, student requests, chat, profiles and analytics;
- the pure helpers of its React client: the session check, the course page, the course editors, the interest picker, the search filters and the resume wizard.

Every request handler is a pure function. It takes the collections it reads and the request's fields. It returns a `Step`: the reply, either `Ok(status, value)` or `Error(status, message)`, together with the collection as the handler leaves it. Collections are sequences in store order. A missing body field is the empty string where the handler only tests truthiness, and an `Option` where it tells `undefined` apart from a value.

Hashing, token signing and decoding, `JSON.parse`, regular-expression matching, fresh ids, tokens and clocks are not computed. They reach the model as parameters:

- `PasswordCheck` for `bcrypt.compare`;
- `TokenDecoder` for `jwt.verify`;
- `JsonListParser` for `JSON.parse`;
- `RegexTest` for `new RegExp(p, 'i').test`;
- plain `newId`, `token` and `now` values.

A write that the schema would reject fails with status 500 and leaves the store unchanged. Its message is the start of the schema error's text, such as "Course validation failed".

Modules:

- `Common`: `Option`, `Reply`, `Step`, JavaScript truthiness and `||` on strings.
- `Seqs`: filter, first match, index, count, sum, drop-by-index, stable insertion sort, and their lemmas.
- `Text`: `includes`, ASCII `toLowerCase`, `replace` of a first occurrence, `split` and `join` on one character.
- `Models`: the four schemas with their enums, defaults and required fields.
- `Auth`: login, session validation and registration.
- `Courses`, `Requests`, `Chat`, `Profile`, `Analytics`: one module per controller.
- `SessionCheck`, `CourseDetails`, `CourseEditor`, `RegisterPage`, `Filters`, `Resume`: the client helpers.

## Model

| member | source | states |
|---|---|---|
| Models.ParseDeviceType | Backend/models/User.js:13 | only "phone" and "laptop" are device classes, and a parsed class prints back as its input |
| Models.DeviceTypeRoundTrip | Backend/models/User.js:13 | every device class survives printing and parsing |
| Models.ParseRole | Backend/models/User.js:9 | only "student" and "tutor" are roles |
| Models.RoleRoundTrip | Backend/models/User.js:9 | every role survives printing and parsing |
| Models.ParseGender | Backend/models/User.js:8 | only "male", "female" and "other" are genders |
| Models.GenderRoundTrip | Backend/models/User.js:8 | every gender survives printing and parsing |
| Models.ParseStatus | Backend/models/StudentRequest.js:8 | only "pending", "accepted" and "rejected" are request statuses |
| Models.StatusRoundTrip | Backend/models/StudentRequest.js:8 | every status survives printing and parsing |
| Models.ParseMessageType | Backend/models/Message.js:7 | only "direct" and "broadcast" are message types |
| Models.MessageTypeRoundTrip | Backend/models/Message.js:7 | every message type survives printing and parsing |
| Auth.UpsertSession | Backend/controllers/auth.controller.js:97-108 | the new session comes last; every earlier entry is an old session of another device class, kept in order; one session per class is preserved |
| Auth.CountByDevice | Backend/models/User.js:13 | every session is a phone or a laptop session |
| Auth.CountOnDeviceAtMostOne | Backend/models/User.js:12-16 | with one session per class, a class counts at most once |
| Auth.AtMostTwoSessions | Backend/controllers/auth.controller.js:97-108 | a registry with one session per device class holds at most two sessions |
| Auth.UpsertKeepsOtherDevice | Backend/controllers/auth.controller.js:98-105 | the session of the other device class is unchanged |
| Auth.UpsertMakesTokenCurrent | Backend/controllers/auth.controller.js:97-105 | the new token is live and is the only session of its class |
| Auth.UpsertSessionTokens | Backend/controllers/auth.controller.js:98-105 | after the upsert a token is live iff it is the new one or was held on the other class |
| Auth.UpsertKeepsHeldOnlyOn | Backend/controllers/auth.controller.js:98-105 | a token held only on one class stays so when another token is upserted |
| Auth.UpsertNewTokenHeldOnlyOn | Backend/controllers/auth.controller.js:101-105 | a fresh token is held only on its own class |
| Auth.Login | Backend/controllers/auth.controller.js:76-124 | missing fields or an unknown device class give 400; success iff the email is found and the password matches; any other failure is 401 "Invalid credentials"; failures change nothing; success replaces only the found user's sessions and answers the new token with the new sessions |
| Auth.LoginRejectsBeforeLookup | Backend/controllers/auth.controller.js:81-87 | rejected input gets the same reply whatever the store holds |
| Auth.LoginFailuresIndistinguishable | Backend/controllers/auth.controller.js:90-124 | an unknown email and a wrong password get the same reply and change nothing |
| Auth.LoginSessionRegistry | Backend/controllers/auth.controller.js:97-109 | after login exactly one session has the device class and it carries the token; sessions of other classes are unchanged and in order; one session per class is kept, so at most two |
| Auth.LoginKeepsRegistryInvariant | Backend/controllers/auth.controller.js:97-109 | login keeps one session per device class for every user |
| Auth.LoginKeepsIdentities | Backend/controllers/auth.controller.js:108-109 | login changes nothing but one user's sessions |
| Auth.LoginEffect | Backend/controllers/auth.controller.js:97-109 | the collection after a login finds the same users by email and id |
| Auth.BearerRoundTrip | Backend/controllers/auth.controller.js:136 | the second space-separated piece of "Bearer t" is t for a well-formed token |
| Auth.ValidateSession | Backend/controllers/auth.controller.js:134-164 | no token gives 401 "No token provided"; an undecodable token gives 401 "Invalid token"; success iff the decoded user exists and holds the token in a session; every failure is 401 |
| Auth.ValidateRejectionReasons | Backend/controllers/auth.controller.js:142-157 | the reasons, in order: invalid token, user not found, then superseded iff the token is not live |
| Auth.LoginTokenValidates | Backend/controllers/auth.controller.js:97-159 | the token of a successful login passes validation |
| Auth.LoginKeepsOtherDeviceToken | Backend/controllers/auth.controller.js:98-159 | a token held on the other device class validates before and after the login |
| Auth.LoginSupersedesDevice | Backend/controllers/auth.controller.js:98-157 | a token held only on the class just logged in fails with "Session expired. You have been logged in from another device." |
| Auth.ReloginSupersedes | Backend/controllers/auth.controller.js:98-159 | after a second login on the same class with a fresh token, the first token is refused as superseded and the second passes |
| Auth.LoginAgain | Backend/controllers/auth.controller.js:90-92 | a user who logged in can log in again on any device class |
| Auth.PhoneThenLaptop | Backend/controllers/auth.controller.js:97-159 | after phone then laptop logins both tokens validate |
| Auth.PhoneThenLaptopHeld | Backend/controllers/auth.controller.js:97-109 | after phone then laptop logins the phone token is held only on the phone |
| Auth.PhoneLaptopPhone | Backend/controllers/auth.controller.js:97-159 | phone, laptop, phone again: the first phone token is superseded, the laptop and the newest phone tokens are valid |
| Auth.InterestsFallbackRoundTrip | Backend/controllers/auth.controller.js:33-38 | when the interests string is not a JSON list, its comma pieces contain no comma and join back to it |
| Auth.Register | Backend/controllers/auth.controller.js:14-71 | an existing email gives 400 and no user; success iff the email is new, a password is given, the role and gender parse and the required fields are present, any other failure being 500; success appends one user with the given name, mobile, role and gender, the hashed password, the parsed interests, the uploaded avatar or none, and no sessions, keeps emails unique, and answers the new token |
| Auth.RegisterTokenNotLive | Backend/controllers/auth.controller.js:150-157 | the registration token is refused as superseded, since no session holds it |
| Courses.CreateCourse | Backend/controllers/course.controller.js:6-29 | a missing title, description, category or mentor gives 400; success iff those are present and the modules are valid; the new course holds the body's texts, thumbnail, modules and mentor, price 0 by default, no students and no ratings |
| Courses.GetCourses | Backend/controllers/course.controller.js:34-63 | the result holds exactly the courses passing every given filter, each as often as stored, newest first |
| Courses.GetCoursesUnfiltered | Backend/controllers/course.controller.js:37-57 | with no filters every course is listed |
| Courses.Enroll | Backend/controllers/course.controller.js:87-108 | success iff the course exists and does not yet list the student; unknown course gives 404; an enrolled student gives 400 with nothing changed; otherwise the student is appended once to that course only |
| Courses.EnrollKeepsDistinct | Backend/controllers/course.controller.js:97-102 | enrolment keeps every student list free of duplicates |
| Courses.EnrollAllKeepsDistinct | Backend/controllers/course.controller.js:97-102 | any series of enrolments keeps every student list free of duplicates |
| Courses.AddReview | Backend/controllers/course.controller.js:113-141 | unknown course gives 404; a second review by the same student gives 400; success iff the course exists, is not yet reviewed by the student and the rating is in 1..5; success appends one rating to that course only |
| Courses.AddReviewKeepsOnePerStudent | Backend/controllers/course.controller.js:123-135 | reviews keep one rating per student and every rating in 1..5 |
| Courses.UpdateCourse | Backend/controllers/course.controller.js:146-167 | unknown course gives 404; success iff the course exists and the modules after the merge are valid, any other failure being 500 with nothing changed; success replaces that course only and leaves valid modules |
| Courses.UpdateCourseMerge | Backend/controllers/course.controller.js:155-160 | falsy text fields and absent modules keep the stored value; a given price always replaces it; mentor, students, ratings, id and creation time never change |
| Requests.CreateRequest | Backend/controllers/request.controller.js:4-29 | a pending request between the same pair gives 400; success iff there is none and both ids are given; a new request is pending with the message defaulting to "" |
| Requests.CreateRequestKeepsAtMostOnePending | Backend/controllers/request.controller.js:8-23 | creating a request keeps at most one pending request per student and mentor |
| Requests.GetRequestsForMentor | Backend/controllers/request.controller.js:32-49 | the mentor's requests with the given status, each as often as stored, newest first |
| Requests.GetRequestsForMentorContents | Backend/controllers/request.controller.js:37-43 | the list holds exactly the mentor's requests with the status, and its length is their count |
| Requests.UnknownStatusListsNothing | Backend/controllers/request.controller.js:38 | a status filter outside the enum lists nothing |
| Requests.UpdateRequestStatus | Backend/controllers/request.controller.js:52-75 | success iff the status is "accepted" or "rejected" and the request exists; another status gives 400; an unknown id gives 404; success changes only that request's status |
| Requests.UpdateRequestStatusKeepsAtMostOnePending | Backend/controllers/request.controller.js:57-65 | a status update never makes a request pending, so at most one pending request per pair is kept |
| Requests.DecisionCanBeReversed | Backend/controllers/request.controller.js:61-65 | an accepted request can then be rejected |
| Requests.GetPendingCount | Backend/controllers/request.controller.js:78-86 | the count is zero iff the mentor has no pending request, and at most the number of requests |
| Requests.PendingCountMatchesList | Backend/controllers/request.controller.js:37-81 | the pending count is the length of the mentor's list filtered by "pending" |
| Chat.GetMentors | Backend/controllers/chat.controller.js:7-26 | only tutors are listed, and no more than the users stored |
| Chat.GetMentorsContents | Backend/controllers/chat.controller.js:10-21 | every tutor passing the skill and name filters is listed as a card without password and sessions, and every card is such a tutor |
| Chat.GetMentorsUnfiltered | Backend/controllers/chat.controller.js:10 | with no filters the directory has one card per tutor |
| Chat.BroadcastReceiversExact | Backend/controllers/chat.controller.js:48-53 | an id receives a broadcast iff it belongs to a tutor with an interest matching the tech stack |
| Chat.SendMessage | Backend/controllers/chat.controller.js:31-83 | success iff content and sender are given and either the type is "broadcast" with a tech stack some tutor matches, or a receiver is given and the type is absent or in the enum; missing content or sender gives 400; a broadcast without tech stack gives 400, and one no tutor matches gives 404; any other type needs a receiver (400 otherwise) and sends to it alone; a broadcast goes to the matching tutors; the stored message keeps the sender, content and tech stack, with type defaulting to direct |
| Chat.BroadcastWithoutTargets | Backend/controllers/chat.controller.js:55-57 | a broadcast no tutor matches gives 404 and stores nothing |
| Chat.UnknownTypeRefused | Backend/controllers/chat.controller.js:59-73 | a type outside the enum takes the direct path and then fails the schema with 500 |
| Chat.GetChatHistory | Backend/controllers/chat.controller.js:88-126 | the selected messages, each as often as stored, oldest first |
| Chat.GetChatHistoryMembers | Backend/controllers/chat.controller.js:95-114 | with another user, a message is included iff one sent it to the other; otherwise iff the user sent or received it |
| Chat.ConversationSymmetric | Backend/controllers/chat.controller.js:98-103 | both sides of a conversation get the same history |
| Chat.ConversationInInbox | Backend/controllers/chat.controller.js:98-113 | a conversation is part of the user's inbox |
| Chat.SentMessageInHistory | Backend/controllers/chat.controller.js:67-114 | a message just sent is in the conversation with each receiver and in each receiver's inbox |
| Chat.DirectMessageDelivered | Backend/controllers/chat.controller.js:31-114 | a direct message with content, sender and receiver is sent to that receiver alone and appears in their conversation with the sender and in their inbox |
| Profile.UpdateUserProfile | Backend/controllers/user.controller.js:28-70 | unknown id gives 404; an invalid gender fails the schema with 500; success replaces only that user and answers the updated profile with the token echoed from the body |
| Profile.UpdateProfileMerge | Backend/controllers/user.controller.js:33-49 | truthy name, mobile or gender replace the stored ones, falsy ones keep them; the avatar changes only with a file; password, email, role, interests and sessions never change |
| Profile.UpdateProfileKeepsInvariants | Backend/controllers/user.controller.js:33-51 | a profile update keeps every user valid and emails and ids unique |
| Profile.UpdateProfileKeepsSessions | Backend/controllers/user.controller.js:33-51 | every bearer token validates after a profile update exactly when it did before |
| Analytics.GetAnalytics | Backend/controllers/analytics.controller.js:10-41 | "student" gives the enrolled count with 0 completed, 0 certificates and 3 resume credits; "tutor" gives the pending-request count and 0 earnings; any other role gives 400 |
| Analytics.EnrolledCountMatchesList | Backend/controllers/analytics.controller.js:12 | a student's course count is the length of the course list filtered on that student |
| Analytics.ActiveCoursesMatchList | Backend/controllers/analytics.controller.js:23-31 | a tutor's active courses are the course list filtered on that mentor |
| Analytics.TutorTotalCountsOwnStudents | Backend/controllers/analytics.controller.js:22-28 | a tutor's student total is the sum over all courses of their enrolments, counting only the courses the tutor teaches |
| Analytics.EnrollRaisesStudentCount | Backend/controllers/analytics.controller.js:12 | a successful enrolment raises the student's course count by one |
| Analytics.EnrollRaisesTutorTotal | Backend/controllers/analytics.controller.js:23-28 | a successful enrolment raises the mentor's student total by one |
| Analytics.CreateRequestRaisesPending | Backend/controllers/analytics.controller.js:31 | a created request raises its mentor's pending count by one |
| SessionCheck.CheckSession | src/SessionValidator.jsx:24-52 | nothing stored or no token: no request; a reply with valid false: logout with the server's message or the default; no reply: keep (fails open) |
| SessionCheck.ResponseOf | Backend/controllers/auth.controller.js:138-163 | the server's body is valid iff the validation succeeds, with its message otherwise |
| SessionCheck.CheckAgreesWithServer | src/SessionValidator.jsx:32-47 | a client with a well-formed token is logged out iff the server rejects it, with the server's reason |
| SessionCheck.CheckFailsOpen | src/SessionValidator.jsx:48-51 | an unreachable server never logs anyone out |
| SessionCheck.SupersededClientLoggedOut | src/SessionValidator.jsx:42-47 | a device whose token was superseded by a relogin on its class is logged out with the superseded message |
| CourseDetails.IsEnrolledMatchesStore | src/CourseDetailsPage.jsx:28 | the page shows the user as enrolled iff a user is signed in and the course lists them |
| CourseDetails.EnrolledAfterEnroll | src/CourseDetailsPage.jsx:28 | after a successful enrolment the page shows the student as enrolled |
| CourseDetails.InitialVideo | src/CourseDetailsPage.jsx:33-35 | a video is chosen iff the first module has one, and it is that module's first video |
| CourseDetails.LessonCountAppend | src/CourseDetailsPage.jsx:144 | lessons add up over a split of the modules |
| CourseDetails.InitialVideoHasLessons | src/CourseDetailsPage.jsx:33-35 | a course with a first video has lessons |
| CourseDetails.LessonsWithoutInitialVideo | src/CourseDetailsPage.jsx:33-35 | a course has lessons but no first video exactly when its first module is empty and a later module has a video |
| CourseDetails.EmbedUrl | src/CourseDetailsPage.jsx:122 | an address with neither pattern is unchanged; without a short-link host only the watch path is rewritten |
| CourseDetails.WatchLinkEmbedded | src/CourseDetailsPage.jsx:122 | a watch link plays with "watch?v=" replaced by "embed/" |
| CourseDetails.ShortLinkEmbedded | src/CourseDetailsPage.jsx:122 | a short link plays with "youtu.be/" replaced by "youtube.com/embed/" |
| CourseDetails.ClicksPlayLast | src/CourseDetailsPage.jsx:196-197 | after any series of clicks a viewer who is not enrolled still sees the first video, and an enrolled student sees the last video clicked |
| CourseDetails.ReviewFromFormAccepted | src/CourseDetailsPage.jsx:230-231 | a review with the form's default rating or any of its stars is refused only for a missing course or a repeated review |
| CourseEditor.ChangeField | src/CreateCoursePage.jsx:24-26 | a course input changes its own field only |
| CourseEditor.ChangeModuleTitle | src/CreateCoursePage.jsx:28-32 | the title of module i changes and nothing else; no module i changes nothing (the edit page's handler is the same) |
| CourseEditor.ChangeVideo | src/CreateCoursePage.jsx:46-50 | one field of one video changes and nothing else (the edit page's handler is the same) |
| CourseEditor.AddVideo | src/CreateCoursePage.jsx:52-56 | an empty video is appended to the given module only (the edit page's handler is the same) |
| CourseEditor.RemoveVideo | src/CreateCoursePage.jsx:58-62 | the given video is dropped from the given module only (the edit page's handler is the same) |
| CourseEditor.RemoveModule | src/CreateCoursePage.jsx:41-44 | the given module is dropped and the rest kept in order (the edit page's handler is the same) |
| CourseEditor.MapModule | src/EditCoursePage.jsx:47-51 | only the given module's videos change |
| CourseEditor.LessonCountReplace | src/CourseDetailsPage.jsx:144 | replacing a module changes the lesson count by the difference in its videos |
| CourseEditor.VideoHandlersCountLessons | src/CreateCoursePage.jsx:52-62 | adding a video adds a lesson; removing one removes a lesson |
| CourseEditor.CreateAddModule | src/CreateCoursePage.jsx:34-39 | a module with one empty video is appended and the others kept |
| CourseEditor.ApplyCreateKeepsShape | src/CreateCoursePage.jsx:41-62 | every offered action keeps at least one module, each with at least one video |
| CourseEditor.CreatePageNeverEmpty | src/CreateCoursePage.jsx:191-242 | any series of offered actions keeps at least one module, each with at least one video |
| CourseEditor.InitialDraftNeverEmpty | src/CreateCoursePage.jsx:11-20 | the initial draft has one module with one lesson |
| CourseEditor.Submit | src/CreateCoursePage.jsx:64-80 | blocked iff a required input is empty or the price is below 0; otherwise refused iff no tutor is signed in; otherwise the draft is sent with the tutor as mentor |
| CourseEditor.InitialDraftRefused | src/CreateCoursePage.jsx:11-20 | the untouched draft is blocked in the browser, and would be refused with 400 if sent |
| CourseEditor.WelcomeVideoNeedsAddress | src/CreateCoursePage.jsx:18 | with the texts filled in, the empty "Welcome" address still blocks the form, and would fail the schema if sent |
| CourseEditor.PageAndServerAgree | src/CreateCoursePage.jsx:120-228 | for a tutor, a chosen category and a price of at least 0, the page sends a draft iff the server stores it |
| CourseEditor.CategoryStaysOffered | src/CreateCoursePage.jsx:150-158 | the category stays one of the select's options whatever the tutor does |
| CourseEditor.SentDraftStored | src/CreateCoursePage.jsx:64-80 | after any series of offered actions, a draft the page sends is stored with its modules, its price and the tutor as mentor |
| CourseEditor.EditAddModule | src/EditCoursePage.jsx:40-45 | a module with no videos is appended and the others kept |
| CourseEditor.AddModuleLessons | src/EditCoursePage.jsx:40-45 | adding a module adds a lesson on the create page and none on the edit page |
| CourseEditor.EditPageCanEmpty | src/EditCoursePage.jsx:65-70 | the last module can be removed on the edit page |
| CourseEditor.EditAddModuleBreaksShape | src/EditCoursePage.jsx:43 | a module added on the edit page has no video |
| RegisterPage.OptionListsDistinct | src/RegisterPage.jsx:8-29 | neither list repeats an entry, and the page starts on the student list |
| RegisterPage.ToggleInterest | src/RegisterPage.jsx:47-53 | the clicked item's membership flips, no other item's does; an absent item is appended |
| RegisterPage.ToggleKeepsOrder | src/RegisterPage.jsx:50 | removing keeps the other items in order |
| RegisterPage.ToggleTwiceRestores | src/RegisterPage.jsx:49-52 | toggling an absent item twice restores the selection |
| RegisterPage.ToggleKeepsDistinct | src/RegisterPage.jsx:49-52 | a selection without repeats stays without repeats |
| RegisterPage.PickerKeepsOptions | src/RegisterPage.jsx:29-53 | whatever role switches and clicks the visitor makes, the selection holds only offered items, each once |
| RegisterPage.ChoiceSurvivesRoleSwitch | src/RegisterPage.jsx:125-132 | a student pick stays selected after switching to the mentor list, which does not offer it |
| RegisterPage.ApplyPick | src/RegisterPage.jsx:125-132 | switching role keeps the selection |
| Filters.FilteredMentors | src/MentorsPage.jsx:30-33 | a mentor is shown iff the name or an interest contains the search, ignoring case |
| Filters.FilteredMentorsInOrder | src/MentorsPage.jsx:30 | shown mentors keep the directory's order |
| Filters.EmptyMentorSearchKeepsAll | src/MentorsPage.jsx:31 | an empty search shows every mentor |
| Filters.NoInterestsNameOnly | src/MentorsPage.jsx:32 | a mentor without interests is found by name only |
| Filters.LongerMentorSearchNarrows | src/MentorsPage.jsx:31-32 | typing more can only hide mentors |
| Filters.FilteredCourses | src/BrowseCourses.jsx:59-62 | a course is shown iff the tab is "All" or its category and the title contains the query, ignoring case |
| Filters.FilteredCoursesInOrder | src/BrowseCourses.jsx:59 | shown courses keep the catalogue's order |
| Filters.AllTabShowsEverything | src/BrowseCourses.jsx:60-61 | "All" with an empty query shows every course |
| Filters.LongerCourseSearchNarrows | src/BrowseCourses.jsx:61 | typing more can only hide courses |
| Filters.DesignTabEmpty | src/BrowseCourses.jsx:6-53 | the "Design" tab shows nothing |
| Resume.StepsStayInRange | src/ResumeBuilder.jsx:137-150 | pressing shown buttons keeps the step in 1..3 |
| Resume.NextsWalk | src/ResumeBuilder.jsx:28 | n presses of Next from a step move n steps while the last step is not passed |
| Resume.BackUndoesNext | src/ResumeBuilder.jsx:28-29 | Back after Next returns to the step before the last |
| Resume.StepTitle | src/ResumeBuilder.jsx:31-44 | every step in 1..3 has a non-empty heading |
| Resume.ReachableStepsHaveTitles | src/ResumeBuilder.jsx:31-44 | every step reached from step 1 has a heading |
| Resume.EveryStepReachable | src/ResumeBuilder.jsx:6-28 | from the start, n presses of Next reach step 1 + n for every step up to the last |
| Resume.TypingKeepsFields | src/ResumeBuilder.jsx:18-21 | any series of text edits keeps every key and leaves the lists alone; each key an edit wrote holds the value of the last edit to it, and every other key keeps its value |
| Resume.InitialFormHasFields | src/ResumeBuilder.jsx:7-16 | the form starts with every text key the inputs write |
| Resume.AddAllAppends | src/ResumeBuilder.jsx:24-26 | adding values one by one appends them to the named list in order, leaving the texts and the other list alone |
| Text.ReplaceFirst | src/CourseDetailsPage.jsx:122 | `replace` with a string pattern rewrites only the first occurrence |
| Text.Split | Backend/controllers/auth.controller.js:37 | `split` on one character gives at least one piece, none containing the separator |
| Text.JoinSplit | Backend/controllers/auth.controller.js:37 | joining the pieces of a split gives back the string |
| Seqs.SortBy | Backend/controllers/course.controller.js:57 | the sort is a permutation with non-decreasing keys |

## Left out

- Password hashing, token signing and decoding (JSON Web Token, RFC 7519), and the token's 30-day expiry. They are parameters. An expired token is one the decoder rejects.
- `JSON.parse` of the interests: a parameter; only the comma fallback is computed.
- Regular-expression matching in the course search, the mentor directory and broadcasts: a parameter, not JavaScript's regex semantics.
- MongoDB and Mongoose: `populate`, `select`, timestamps and the save round trips. The store is a sequence. Fresh ids, tokens and times are inputs.
- Concurrency: the read-modify-write of a user's session list is not atomic, so two simultaneous logins can interleave. Logins are modelled one at a time.
- Errors from the database or a malformed id (the 500 and catch branches other than schema validation).
- Uploads, `fetch`, local storage, alerts, navigation, the focus listener and all rendering. The session check takes the stored user and the server's reply as inputs.
- `getCourseById`, and the stub `getUserProfile`, which only answers a fixed text.
- Routes and server wiring.
- Rendering-only pages: profile, chat, home, dashboard, login, requests and my-courses.
- Text.Lower: lower-cases ASCII letters only, not the full Unicode case mapping of `toLowerCase`.
- Courses.AddReview: takes the rating as an integer. `Number(rating)` on a non-numeric or fractional input is not modelled.
- Courses.UpdateCourse: a price of `null` is treated like any given price.
- Courses.CreateCourse, Courses.UpdateCourse: the price is an integer. The schema's `Number` also takes fractional prices, and a non-numeric price fails the cast with 500; neither is modelled.
- Auth.Register, Chat.SendMessage, Courses.CreateCourse, Courses.AddReview, Courses.UpdateCourse, Profile.UpdateUserProfile, Requests.CreateRequest: the message of a schema failure is only the "<Model> validation failed" prefix of Mongoose's text. The paths and reasons that follow it are not modelled.
- CourseEditor.Submit: the browser's check of a `type="url"` input's format is not modelled, only that it is non-empty.
- Resume.AddToList, Resume.AddAll: the page never calls its `addToList` helper, since the skill and project inputs have no change handler and the "+ Add More" buttons no click handler; the model describes the helper as written.
- CourseEditor.ChangeField: covers the text inputs only; the price input, which stores a string, is not modelled.
- Chat.SendMessage: stores the tech stack as given, also for direct messages.
- Profile.UpdateUserProfile: a password in the body is ignored, as the handler's empty branch does.
- CourseEditor.ChangeModuleTitle, CourseEditor.ChangeVideo, CourseEditor.AddVideo: an index with no module or video behind it throws in the page before any change. The model returns the draft unchanged.
