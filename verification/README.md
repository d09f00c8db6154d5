# Microcourses backend, modelled in Dafny

This project models the core of the microcourses backend. It is an
Express/Mongoose service where:

- learners enrol in published courses, mark lessons complete and receive
  certificates;
- creators apply for the creator role, author courses and lessons, and submit
  courses for review;
- admins decide creator applications and course reviews.

The three Mongoose collections (users, courses, lessons) form one immutable
`Store`, with one map per collection keyed by id. Every route handler is a
pure function from a store, the authenticated user and the request fields to
a `Result`:

- a refused request is an `Err` carrying the HTTP answer's kind and message;
- an accepted write is an `Ok` carrying the new store;
- a read returns a value and never a store.

Saving a document runs the schema's validators and unique indexes
(`Models.InsertUser`, `InsertCourse`, `InsertLesson`). Each route turns their
refusals into the answer the route gives: 500 through the generic catch,
except the lesson route's 400 for the `(course, order)` index.

On top of the handlers, `Platform.Step` runs one writing request. The
project proves that every step keeps a set of store conditions
(`Invariants.Valid`):

- enrolment is mirrored: a user lists a course exactly when the course lists
  the user;
- course lesson lists and lesson documents point at each other;
- `totalLessons` equals the length of the lesson list;
- the e-mail and `(course, order)` indexes are unique;
- no id list repeats an entry: a user's enrolled courses and completed
  lessons, and a course's enrolled students and lessons (certificates may
  repeat);
- every stored document passed its validators.

Every store reachable from an empty database therefore satisfies them.

Modules follow the source:

- `Models` covers models/*.js, plus `Text` (the `trim` and `lowercase`
  setters) and `EmailFormat` (the e-mail `match` pattern);
- `Progress` and `Learner` cover routes/learner.js;
- `Creator` covers routes/creator.js;
- `Admin` covers routes/admin.js;
- `Catalog` covers routes/courses.js;
- `Auth` covers routes/auth.js;
- `Bootstrap` covers utils/createAdmin.js;
- `Platform` covers the properties that span routes.

Environment inputs are parameters:

- the clock is a `now: Time` argument;
- generated ObjectIds are caller-supplied ids required to be fresh;
- the SHA-256 certificate serial is a function parameter
  `hash(user, course, time)`;
- the bcrypt password comparison is a function parameter
  `passwordOk(user, password)`;
- the `auth` middleware's result is an `actor` required to be a stored user;
- `requireRole` failing is the error `RoleDenied`.

Where the intended workflow and the code disagree, the model follows the
code:

- submitting a course succeeds from any status, not only from draft;
- both admin decisions apply from any status, not only from pending;
- a rejected or approved non-creator may apply again;
- registration grants whatever role the request names, admin included;
- a certificate is appended every time a completion finds the course at
  100%, with no check for an earlier certificate for that course.

## Model

| member | source | states |
|---|---|---|
| Models.ParseRole | microcourses/backend/src/models/User.js:14 | exactly the three role names are accepted, each mapped to its own role |
| Models.InsertUser | microcourses/backend/src/models/User.js:4-30 | a user is refused by validation iff name (after trim), e-mail (after lowercasing, against the pattern) or password (at least 6 characters) fails or the role is not one of the three; refused by the unique index iff valid and the lowercased e-mail is held; a saved user holds the trimmed name, lowercased e-mail, null creator status and empty lists, and no other document changes |
| Models.InsertCourse | microcourses/backend/src/models/Course.js:3-13 | a course is refused iff title or description is missing or empty; a saved course is a draft owned by the given creator with no lessons, no students and a count of 0; no other course changes |
| Models.InsertLesson | microcourses/backend/src/models/Lesson.js:3-14 | a lesson is refused by validation iff title, content or order is missing, and by the unique index iff its order is already used in the same course; a saved lesson's order differs from every other lesson's in its course |
| Text.Trim | microcourses/backend/src/models/User.js:5 | the result is a slice of the input with only white space before and after it, neither starts nor ends with white space, and is empty iff the input is all white space |
| Text.TrimIdempotent | microcourses/backend/src/models/User.js:5 | trimming a trimmed name changes nothing, so the stored name is already in its saved form |
| Text.ToLower | microcourses/backend/src/models/User.js:10 | the result has the input's length, has no upper-case letter, and equals an input that had none |
| EmailFormat.EmailRegexIff | microcourses/backend/src/models/User.js:11 | the anchored e-mail pattern accepts a string iff it has one '@', a dotted run of word characters before it, and after it a dotted domain ending in a label of 2 or 3 word characters |
| EmailFormat.AcceptedEmailShape | microcourses/backend/src/models/User.js:11 | an accepted e-mail has exactly one '@', starts and ends with a word character, every '.' or '-' sits between word characters, and its last label has 2 or 3 characters |
| Progress.CompletedOf | microcourses/backend/src/routes/learner.js:103-105 | the filtered list holds exactly the course's lessons that are completed, is no longer than the course's list, is as long iff every lesson is completed, and repeats nothing if the course list does not |
| Progress.Percentage | microcourses/backend/src/routes/learner.js:110 | 0 for a course with no lessons or no completions; at most 100 when completions do not exceed lessons; exactly 100 when all are complete |
| Progress.PercentageMonotone | microcourses/backend/src/routes/learner.js:110 | more completed lessons never give a lower percentage |
| Progress.NearlyCompleteRoundsUp | microcourses/backend/src/routes/learner.js:110 | 199 of 200 lessons already rounds to 100 |
| Progress.CompletedOfCount | microcourses/backend/src/routes/learner.js:103-105 | the filtered list is as long as the number of positions of the course's lesson list that hold a completed lesson |
| Progress.GetProgress | microcourses/backend/src/routes/learner.js:98-112 | the total is the course's lesson count; the completed count is the number of positions of the lesson list holding a completed lesson; for a non-empty course the percentage is that count over the total, times 100, rounded half up; the completed count is at most the total and equals it iff every lesson of the course is in the user's completed list; the percentage is 0 to 100 and is 100 when a non-empty course is complete |
| Learner.Enroll | microcourses/backend/src/routes/learner.js:10-32 | 404 for an unknown or unpublished course, 400 when the user already lists it, otherwise success, which appends the course to the user and the user to the course and changes nothing else |
| Learner.EnrollPreservesValid | microcourses/backend/src/routes/learner.js:17-26 | an enrolment keeps both sides mirrored and repeat-free and keeps every other store condition |
| Learner.EnrollTwiceFails | microcourses/backend/src/routes/learner.js:18-20 | enrolling again right after a successful enrolment answers "Already enrolled" |
| Learner.CompleteLesson | microcourses/backend/src/routes/learner.js:35-70 | 404 for an unknown lesson, 500 when its course is gone, 403 when the user does not list the course, otherwise success; the lesson is appended only if absent; a certificate with the hash of user, course and time is appended iff the recomputed percentage is 100; nothing else changes |
| Learner.CompleteLessonPreservesValid | microcourses/backend/src/routes/learner.js:47-62 | recording a completion and a certificate keeps every store condition, including a repeat-free completed list |
| Learner.RepeatCompletionReissues | microcourses/backend/src/routes/learner.js:47-62 | completing the same lesson again leaves the completed list unchanged but, on a finished course, appends a second certificate |
| Learner.LastLessonIssuesCertificate | microcourses/backend/src/routes/learner.js:52-63 | completing the last missing lesson of an enrolled course issues a certificate for that course |
| Learner.CompletionNeverLowersProgress | microcourses/backend/src/routes/learner.js:47-50 | a completion never lowers the user's percentage in any course |
| Learner.EntriesExact | microcourses/backend/src/routes/learner.js:79-86 | there are as many entries as listed courses that exist, and the k-th existing course of the list, counted in list order, has the k-th entry, carrying its progress; missing courses get none |
| Learner.EntriesInOrder | microcourses/backend/src/routes/learner.js:79-86 | when every listed course exists, there is exactly one entry per course, in list order |
| Learner.MyProgress | microcourses/backend/src/routes/learner.js:73-95 | the overview returns the user's certificates and, in enrolment order, exactly one entry per enrolled course that exists, carrying that course's progress; with no missing course the entries follow the enrolment list one to one |
| Learner.EnrollExtendsProgress | microcourses/backend/src/routes/learner.js:79-86 | after an enrolment the overview gains exactly one entry, for the new course and at the end, and keeps the earlier entries and the certificates |
| Creator.Apply | microcourses/backend/src/routes/creator.js:8-31 | 400 "Already a creator" iff the user is a creator; otherwise the status becomes pending from any status, the application is replaced with the submitted fields and time, and the role and everything else stay |
| Creator.ApplyPreservesValid | microcourses/backend/src/routes/creator.js:16-25 | an application keeps every store condition |
| Creator.Dashboard | microcourses/backend/src/routes/creator.js:33-40 | refused unless the user is a creator; otherwise exactly the courses the user owns |
| Creator.CreateCourseJoinsDashboard | microcourses/backend/src/routes/creator.js:33-56 | a created course joins its creator's dashboard and nothing else does |
| Creator.CreateCourse | microcourses/backend/src/routes/creator.js:42-56 | refused unless a creator; 500 iff title or description is missing or empty; otherwise one new draft course owned by the user with no lessons or students, nothing else changed |
| Creator.CreateCoursePreservesValid | microcourses/backend/src/routes/creator.js:45-51 | creating a course keeps every store condition |
| Creator.AddLesson | microcourses/backend/src/routes/creator.js:58-89 | refused unless a creator; 404 unless the user owns the course; 500 iff a required field is missing; 400 iff the order is taken in the course; success stores the lesson with its generated transcript, appends its id to the course and sets the count to the new length, and on every failure the store is unchanged |
| Creator.AddLessonTranscript | microcourses/backend/src/routes/creator.js:74 | the stored transcript is the fixed prefix followed by the lesson title |
| Creator.AddLessonPreservesValid | microcourses/backend/src/routes/creator.js:77-80 | adding a lesson keeps the lesson links, the count, the order index and every other store condition |
| Creator.AddLessonProgress | microcourses/backend/src/routes/creator.js:78-79 | adding a lesson raises every user's lesson total in that course by one and leaves their completed count unchanged |
| Creator.Submit | microcourses/backend/src/routes/creator.js:91-105 | refused unless a creator; 404 unless the user owns the course; otherwise the course becomes pending from any status and nothing else changes |
| Creator.SubmitIdempotent | microcourses/backend/src/routes/creator.js:93-97 | submitting twice gives the same store as submitting once, apart from `updatedAt`, which is not modelled |
| Creator.SubmitPreservesValid | microcourses/backend/src/routes/creator.js:93-97 | a submission keeps every store condition |
| Admin.PendingCreators | microcourses/backend/src/routes/admin.js:7-14 | refused iff the user is not an admin; otherwise exactly the users whose creator status is pending |
| Admin.SetCreatorStatus | microcourses/backend/src/routes/admin.js:16-33 | refused unless an admin; 404 for an unknown user; otherwise the status is set whatever it was, the role becomes creator iff the decision is an approval and is kept otherwise, and nothing else changes |
| Admin.SetCreatorStatusPreservesValid | microcourses/backend/src/routes/admin.js:19-25 | a creator decision keeps every store condition |
| Admin.DecisionLeavesCreatorQueue | microcourses/backend/src/routes/admin.js:16-33 | a non-pending decision removes exactly that user from the pending queue seen by any remaining admin |
| Admin.SelfApprovalRevokesAdmin | microcourses/backend/src/routes/admin.js:21-23 | an admin who approves their own creator status becomes a creator and is no longer an admin |
| Admin.PendingCourses | microcourses/backend/src/routes/admin.js:35-44 | refused iff not an admin; otherwise exactly the courses whose status is pending |
| Admin.SetCourseStatus | microcourses/backend/src/routes/admin.js:46-61 | refused unless an admin; 404 for an unknown course; otherwise only that course's status changes, from any status |
| Admin.SetCourseStatusPreservesValid | microcourses/backend/src/routes/admin.js:48-53 | a course decision keeps every store condition |
| Admin.DecisionLeavesCourseQueue | microcourses/backend/src/routes/admin.js:46-61 | a non-pending decision removes exactly that course from the review queue |
| Catalog.ListCourses | microcourses/backend/src/routes/courses.js:7-19 | the query text "true" lists every course; any other value or none lists exactly the published ones |
| Catalog.ListingContained | microcourses/backend/src/routes/courses.js:9-12 | every listing lies within the full listing and contains the default one |
| Catalog.CourseDetail | microcourses/backend/src/routes/courses.js:21-35 | success iff the course exists and is published, returning it; otherwise "Course not found" |
| Catalog.ViewLesson | microcourses/backend/src/routes/courses.js:37-53 | 404 for an unknown lesson, 500 when its course is gone, 403 unless the course's student list holds the user, otherwise the lesson |
| Auth.RequestedRole | microcourses/backend/src/routes/auth.js:10 | a missing role defaults to "learner", a given one is used as sent |
| Auth.Register | microcourses/backend/src/routes/auth.js:7-27 | success iff the fields pass the user validators and the lowercased e-mail is free; every failure answers 500; success adds exactly one new user with the requested role |
| Auth.RegisterGrantsAnyRole | microcourses/backend/src/routes/auth.js:10-13 | a valid registration naming any of the three roles, admin included, creates a user with that role |
| Auth.RegisterPreservesValid | microcourses/backend/src/routes/auth.js:12-13 | a registration keeps every store condition, the unique e-mail index included |
| Auth.FindByEmail | microcourses/backend/src/routes/auth.js:39 | a user is found iff one holds the e-mail; the found user holds it, and is the only holder when e-mails are unique |
| Auth.Login | microcourses/backend/src/routes/auth.js:30-68 | "Email and password are required" iff either field is missing or empty; success only for a stored user holding the lowercased e-mail whose password check passes; an unknown e-mail answers "Invalid credentials"; every failure is a 400 |
| Auth.LoginCharacterised | microcourses/backend/src/routes/auth.js:35-49 | with unique e-mails, login succeeds iff some user holds the lowercased e-mail and passes the password check, and an unknown e-mail and a wrong password give the same answer |
| Auth.RegisterThenLogin | microcourses/backend/src/routes/auth.js:39-49 | after registering, logging in with the same e-mail in any letter case and an accepted password returns the new user |
| Bootstrap.CreateDefaultAdmin | microcourses/backend/src/utils/createAdmin.js:3-24 | nothing changes when a user holds the configured e-mail after the path's `lowercase` setter has run on the query value; otherwise an "Admin" user with the admin role is added iff the user validators accept it, and every failure leaves the store as it was |
| Bootstrap.BootstrapCreatesAdmin | microcourses/backend/src/utils/createAdmin.js:8-18 | with a valid configured e-mail and password, and the e-mail free, the bootstrap creates a user named "Admin" with the admin role and the lowercased e-mail |
| Bootstrap.BootstrapIdempotent | microcourses/backend/src/utils/createAdmin.js:8-10 | running the bootstrap a second time changes nothing |
| Bootstrap.BootstrapPreservesValid | microcourses/backend/src/utils/createAdmin.js:11-18 | the bootstrap keeps every store condition |
| Platform.StepPreservesValid | microcourses/backend/src/routes/learner.js:22-26 | every writing request keeps every store condition, in particular the two enrolment lists these pushes maintain stay mirrored |
| Platform.RunPreservesValid | microcourses/backend/src/routes/learner.js:22-26 | any sequence of requests keeps every store condition |
| Platform.ReachableValid | microcourses/backend/src/routes/learner.js:22-26 | every store reachable from an empty database satisfies every condition and has mirrored enrolment |
| Platform.ViewAgreesWithComplete | microcourses/backend/src/routes/courses.js:39-47 | with mirrored enrolment, viewing a lesson (course side) and completing it (user side) succeed together and are forbidden together |
| Platform.ViewWithoutEnrolment | microcourses/backend/src/routes/courses.js:44-47 | on a store where only the course lists the user, the lesson can be viewed but not completed |
| Platform.DetailAgreesWithEnroll | microcourses/backend/src/routes/courses.js:23-29 | the detail page shows a course iff enrolling in it is not refused as "Course not found" |
| Platform.SubmitThenPublish | microcourses/backend/src/routes/admin.js:46-57 | a submitted course is on the admin's review queue, and publishing it makes it visible on the detail page and in the default catalog |
| Platform.ApplyJoinsQueue | microcourses/backend/src/routes/creator.js:16-25 | after applying, the applicant is on every admin's pending-creator queue |

## Left out

- HTTP: status codes appear only as the error kinds, and response bodies,
  `populate` projections, the `select('-enrolledStudents')` projection and
  logging are not modelled.
- Secrets: bcrypt hashing on save and JWT signing and expiry are not
  modelled. The password comparison is the parameter `passwordOk`. A JWT
  failure after a successful registration save (for example an unset secret)
  would answer 500 with the user already stored; the model treats the save
  as the outcome.
- Certificate serial: SHA-256 is the parameter `hash`.
- Clock: the completion route reads the clock twice, once for the hash and
  once for `issuedAt`. The model uses one `now` for both.
- Concurrency and atomicity: concurrent requests are not modelled. Neither
  is a failure between the two saves of enrolment, completion or
  lesson-adding: the store either takes the whole update or none.
- The `auth` middleware is a precondition that the actor is a stored user;
  the middleware file is not part of this model. `requireRole` failure is
  `RoleDenied`, since its message is unknown.
- Identifiers: ids are natural numbers. A malformed ObjectId, which would
  raise a CastError and a 500, is not modelled.
- Lesson `order` is an integer. Non-integer numbers and values that fail the
  Number cast are not modelled.
- Admin decisions take the status as a typed value. `findByIdAndUpdate` runs
  no enum validator, so an arbitrary status string is stored by the source;
  the model admits only the schema's values.
- Text.ToLower: lowercases ASCII letters only, where JavaScript's
  `toLowerCase` maps all of Unicode. For example, KELVIN SIGN (U+212A)
  lowercases to the ASCII `k` in the source, so the source accepts an e-mail
  containing it and the model refuses it. Lengths count characters rather
  than UTF-16 code units.
- Timestamps: the `createdAt` and `updatedAt` fields that
  `{ timestamps: true }` adds to users, courses and lessons are not
  modelled. Every save or update sets `updatedAt`, so the store equalities
  stated here (for example `Creator.SubmitIdempotent`) hold of the modelled
  fields only; a second submission moves the course's `updatedAt`.
- Auth.FindByEmail: when e-mails are not unique, the least id is chosen,
  whereas the database returns an unspecified holder; under the unique
  index, which every reachable store satisfies, the two agree.
- Progress.Percentage: rounds the exact quotient, half up. The source rounds
  a double product, which for some inputs lies just below the half: 23 of
  40 lessons gives 57.49999… and rounds to 57, where the model gives 58.
  The properties stated here (0, at most 100, exactly 100 when complete,
  monotone) hold of both.
- Progress.GetProgress: its percentage is the exact half-up rounding of
  `Progress.Percentage`, with the same difference from the double product.
- Creator.CreateCourse and Auth.Register: any validation or index refusal
  is the one kind `ServerError`. The Mongoose error message carried in the
  500 body is not modelled.
- The contact route and the e-mail service are outside this core.
