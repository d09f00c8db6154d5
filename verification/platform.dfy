/**
  The backend as a whole: every request that can write to the store, one
  step per request, and the properties that hold across routes. A refused
  request leaves the store as it was.
 */
module Platform {
  import opened Outcomes
  import opened Models
  import opened Invariants
  import opened Progress
  import opened Learner
  import opened Creator
  import opened Admin
  import opened Catalog
  import opened Auth
  import opened Bootstrap

  /** The writing routes and the bootstrap, with what each reads from the
      request, the clock and the id generator. */
  datatype Request =
    | EnrollRequest(actor: UserId, course: CourseId)
    | CompleteRequest(actor: UserId, lesson: LessonId, now: Time)
    | ApplyRequest(actor: UserId, form: ApplicationForm, now: Time)
    | CreateCourseRequest(actor: UserId, newCourse: CourseId, courseForm: CourseForm)
    | AddLessonRequest(actor: UserId, course: CourseId, newLesson: LessonId, lessonForm: LessonForm)
    | SubmitRequest(actor: UserId, course: CourseId)
    | CreatorDecisionRequest(actor: UserId, user: UserId, creatorStatus: CreatorStatus)
    | CourseDecisionRequest(actor: UserId, course: CourseId, courseStatus: CourseStatus)
    | RegisterRequest(newUser: UserId, registration: Registration)
    | BootstrapRequest(config: AdminConfig, newUser: UserId)

  /** The environment's side of a request: an authenticated actor exists,
      and a generated id is fresh. */
  predicate Admissible(s: Store, req: Request) {
    match req
    case EnrollRequest(actor, _) => actor in s.users
    case CompleteRequest(actor, _, _) => actor in s.users
    case ApplyRequest(actor, _, _) => actor in s.users
    case CreateCourseRequest(actor, id, _) => actor in s.users && id !in s.courses
    case AddLessonRequest(actor, _, id, _) => actor in s.users && id !in s.lessons
    case SubmitRequest(actor, _) => actor in s.users
    case CreatorDecisionRequest(actor, _, _) => actor in s.users
    case CourseDecisionRequest(actor, _, _) => actor in s.users
    case RegisterRequest(id, _) => id !in s.users
    case BootstrapRequest(_, id) => id !in s.users
  }

  function Commit(s: Store, r: Result<Store>): (s': Store)
    ensures r.Ok? ==> s' == r.value
    ensures r.Err? ==> s' == s
  {
    if r.Ok? then r.value else s
  }

  function CommitCompletion(s: Store, r: Result<Completion>): (s': Store)
    ensures r.Ok? ==> s' == r.value.store
    ensures r.Err? ==> s' == s
  {
    if r.Ok? then r.value.store else s
  }

  /** The store after one request; an inadmissible or refused request
      changes nothing. */
  function Step(s: Store, req: Request, hash: (UserId, CourseId, Time) -> string): (s': Store)
  {
    if !Admissible(s, req) then s
    else match req
      case EnrollRequest(actor, course) => Commit(s, Enroll(s, actor, course))
      case CompleteRequest(actor, lesson, now) => CommitCompletion(s, CompleteLesson(s, actor, lesson, now, hash))
      case ApplyRequest(actor, form, now) => Commit(s, Apply(s, actor, form, now))
      case CreateCourseRequest(actor, id, form) => Commit(s, CreateCourse(s, actor, id, form))
      case AddLessonRequest(actor, course, id, form) => Commit(s, AddLesson(s, actor, course, id, form))
      case SubmitRequest(actor, course) => Commit(s, Submit(s, actor, course))
      case CreatorDecisionRequest(actor, user, status) => Commit(s, SetCreatorStatus(s, actor, user, status))
      case CourseDecisionRequest(actor, course, status) => Commit(s, SetCourseStatus(s, actor, course, status))
      case RegisterRequest(id, form) => Commit(s, Register(s, id, form))
      case BootstrapRequest(config, id) => CreateDefaultAdmin(s, config, id)
  }

  /** Every request keeps every store condition: the mirrored enrolment,
      the lesson links and counts, the unique indexes, the repeat-free
      lists and the validated fields. */
  lemma StepPreservesValid(s: Store, req: Request, hash: (UserId, CourseId, Time) -> string)
    requires Valid(s)
    ensures Valid(Step(s, req, hash))
  {
    StepUnfold(s, req, hash);
    if !Admissible(s, req) {
    } else if req.EnrollRequest? || req.CompleteRequest? || req.ApplyRequest? {
      LearnerStepValid(s, req, hash);
    } else if req.CreateCourseRequest? || req.AddLessonRequest? || req.SubmitRequest? {
      CreatorStepValid(s, req, hash);
    } else {
      AdminStepValid(s, req, hash);
    }
  }

  /** What one step does, request by request. */
  lemma StepUnfold(s: Store, req: Request, hash: (UserId, CourseId, Time) -> string)
    ensures !Admissible(s, req) ==> Step(s, req, hash) == s
    ensures Admissible(s, req) ==> match req
      case EnrollRequest(actor, course) => Step(s, req, hash) == Commit(s, Enroll(s, actor, course))
      case CompleteRequest(actor, lesson, now) =>
        Step(s, req, hash) == CommitCompletion(s, CompleteLesson(s, actor, lesson, now, hash))
      case ApplyRequest(actor, form, now) => Step(s, req, hash) == Commit(s, Apply(s, actor, form, now))
      case CreateCourseRequest(actor, id, form) => Step(s, req, hash) == Commit(s, CreateCourse(s, actor, id, form))
      case AddLessonRequest(actor, course, id, form) =>
        Step(s, req, hash) == Commit(s, AddLesson(s, actor, course, id, form))
      case SubmitRequest(actor, course) => Step(s, req, hash) == Commit(s, Submit(s, actor, course))
      case CreatorDecisionRequest(actor, user, status) =>
        Step(s, req, hash) == Commit(s, SetCreatorStatus(s, actor, user, status))
      case CourseDecisionRequest(actor, course, status) =>
        Step(s, req, hash) == Commit(s, SetCourseStatus(s, actor, course, status))
      case RegisterRequest(id, form) => Step(s, req, hash) == Commit(s, Register(s, id, form))
      case BootstrapRequest(config, id) => Step(s, req, hash) == CreateDefaultAdmin(s, config, id)
  {
  }

  lemma LearnerStepValid(s: Store, req: Request, hash: (UserId, CourseId, Time) -> string)
    requires Valid(s) && Admissible(s, req)
    requires req.EnrollRequest? || req.CompleteRequest? || req.ApplyRequest?
    ensures match req
      case EnrollRequest(actor, course) => Valid(Commit(s, Enroll(s, actor, course)))
      case CompleteRequest(actor, lesson, now) => Valid(CommitCompletion(s, CompleteLesson(s, actor, lesson, now, hash)))
      case ApplyRequest(actor, form, now) => Valid(Commit(s, Apply(s, actor, form, now)))
      case _ => true
  {
    match req
    case EnrollRequest(actor, course) => EnrollCommitValid(s, actor, course);
    case CompleteRequest(actor, lesson, now) => CompleteCommitValid(s, actor, lesson, now, hash);
    case ApplyRequest(actor, form, now) => ApplyCommitValid(s, actor, form, now);
  }

  lemma CreatorStepValid(s: Store, req: Request, hash: (UserId, CourseId, Time) -> string)
    requires Valid(s) && Admissible(s, req)
    requires req.CreateCourseRequest? || req.AddLessonRequest? || req.SubmitRequest?
    ensures match req
      case CreateCourseRequest(actor, id, form) => Valid(Commit(s, CreateCourse(s, actor, id, form)))
      case AddLessonRequest(actor, course, id, form) => Valid(Commit(s, AddLesson(s, actor, course, id, form)))
      case SubmitRequest(actor, course) => Valid(Commit(s, Submit(s, actor, course)))
      case _ => true
  {
    match req
    case CreateCourseRequest(actor, id, form) => CreateCourseCommitValid(s, actor, id, form);
    case AddLessonRequest(actor, course, id, form) => AddLessonCommitValid(s, actor, course, id, form);
    case SubmitRequest(actor, course) => SubmitCommitValid(s, actor, course);
  }

  lemma AdminStepValid(s: Store, req: Request, hash: (UserId, CourseId, Time) -> string)
    requires Valid(s) && Admissible(s, req)
    requires req.CreatorDecisionRequest? || req.CourseDecisionRequest? || req.RegisterRequest? || req.BootstrapRequest?
    ensures match req
      case CreatorDecisionRequest(actor, user, status) => Valid(Commit(s, SetCreatorStatus(s, actor, user, status)))
      case CourseDecisionRequest(actor, course, status) => Valid(Commit(s, SetCourseStatus(s, actor, course, status)))
      case RegisterRequest(id, form) => Valid(Commit(s, Register(s, id, form)))
      case BootstrapRequest(config, id) => Valid(CreateDefaultAdmin(s, config, id))
      case _ => true
  {
    match req
    case CreatorDecisionRequest(actor, user, status) => CreatorDecisionCommitValid(s, actor, user, status);
    case CourseDecisionRequest(actor, course, status) => CourseDecisionCommitValid(s, actor, course, status);
    case RegisterRequest(id, form) => RegisterCommitValid(s, id, form);
    case BootstrapRequest(config, id) => BootstrapPreservesValid(s, config, id);
  }

  lemma CompleteCommitValid(s: Store, actor: UserId, lesson: LessonId, now: Time,
                            hash: (UserId, CourseId, Time) -> string)
    requires Valid(s) && actor in s.users
    ensures Valid(CommitCompletion(s, CompleteLesson(s, actor, lesson, now, hash)))
  {
    if CompleteLesson(s, actor, lesson, now, hash).Ok? {
      CompleteLessonPreservesValid(s, actor, lesson, now, hash);
    }
  }

  lemma EnrollCommitValid(s: Store, actor: UserId, course: CourseId)
    requires Valid(s) && actor in s.users
    ensures Valid(Commit(s, Enroll(s, actor, course)))
  {
    if Enroll(s, actor, course).Ok? { EnrollPreservesValid(s, actor, course); }
  }

  lemma ApplyCommitValid(s: Store, actor: UserId, form: ApplicationForm, now: Time)
    requires Valid(s) && actor in s.users
    ensures Valid(Commit(s, Apply(s, actor, form, now)))
  {
    if Apply(s, actor, form, now).Ok? { ApplyPreservesValid(s, actor, form, now); }
  }

  lemma CreateCourseCommitValid(s: Store, actor: UserId, id: CourseId, form: CourseForm)
    requires Valid(s) && actor in s.users && id !in s.courses
    ensures Valid(Commit(s, CreateCourse(s, actor, id, form)))
  {
    if CreateCourse(s, actor, id, form).Ok? { CreateCoursePreservesValid(s, actor, id, form); }
  }

  lemma AddLessonCommitValid(s: Store, actor: UserId, course: CourseId, id: LessonId, form: LessonForm)
    requires Valid(s) && actor in s.users && id !in s.lessons
    ensures Valid(Commit(s, AddLesson(s, actor, course, id, form)))
  {
    if AddLesson(s, actor, course, id, form).Ok? { AddLessonPreservesValid(s, actor, course, id, form); }
  }

  lemma SubmitCommitValid(s: Store, actor: UserId, course: CourseId)
    requires Valid(s) && actor in s.users
    ensures Valid(Commit(s, Submit(s, actor, course)))
  {
    if Submit(s, actor, course).Ok? { SubmitPreservesValid(s, actor, course); }
  }

  lemma CreatorDecisionCommitValid(s: Store, actor: UserId, user: UserId, status: CreatorStatus)
    requires Valid(s) && actor in s.users
    ensures Valid(Commit(s, SetCreatorStatus(s, actor, user, status)))
  {
    if SetCreatorStatus(s, actor, user, status).Ok? { SetCreatorStatusPreservesValid(s, actor, user, status); }
  }

  lemma CourseDecisionCommitValid(s: Store, actor: UserId, course: CourseId, status: CourseStatus)
    requires Valid(s) && actor in s.users
    ensures Valid(Commit(s, SetCourseStatus(s, actor, course, status)))
  {
    if SetCourseStatus(s, actor, course, status).Ok? { SetCourseStatusPreservesValid(s, actor, course, status); }
  }

  lemma RegisterCommitValid(s: Store, id: UserId, form: Registration)
    requires Valid(s) && id !in s.users
    ensures Valid(Commit(s, Register(s, id, form)))
  {
    if Register(s, id, form).Ok? { RegisterPreservesValid(s, id, form); }
  }

  /** The store after a sequence of requests, in order. */
  function Run(s: Store, reqs: seq<Request>, hash: (UserId, CourseId, Time) -> string): (s': Store)
    decreases |reqs|
  {
    if reqs == [] then s else Run(Step(s, reqs[0], hash), reqs[1..], hash)
  }

  lemma {:induction false} RunPreservesValid(s: Store, reqs: seq<Request>, hash: (UserId, CourseId, Time) -> string)
    requires Valid(s)
    ensures Valid(Run(s, reqs, hash))
    decreases |reqs|
  {
    if reqs != [] {
      StepPreservesValid(s, reqs[0], hash);
      RunPreservesValid(Step(s, reqs[0], hash), reqs[1..], hash);
    }
  }

  /** Every store the backend can reach from an empty database satisfies
      every condition; in particular enrolment is mirrored on both sides. */
  lemma ReachableValid(reqs: seq<Request>, hash: (UserId, CourseId, Time) -> string)
    ensures Valid(Run(EmptyStore, reqs, hash))
    ensures EnrollmentMirrored(Run(EmptyStore, reqs, hash))
  {
    EmptyStoreValid();
    RunPreservesValid(EmptyStore, reqs, hash);
  }

  /** Viewing a lesson reads the course's student list and completing it
      reads the user's course list; with enrolment mirrored the two routes
      agree: both succeed, both are forbidden, or both fail alike. */
  lemma ViewAgreesWithComplete(s: Store, actor: UserId, lesson: LessonId, now: Time,
                               hash: (UserId, CourseId, Time) -> string)
    requires EnrollmentMirrored(s) && actor in s.users
    ensures ViewLesson(s, actor, lesson).Ok? <==> CompleteLesson(s, actor, lesson, now, hash).Ok?
    ensures ViewLesson(s, actor, lesson) == Err(Forbidden("Not enrolled in this course")) <==>
            CompleteLesson(s, actor, lesson, now, hash) == Err(Forbidden("Not enrolled in this course"))
  {
    if lesson in s.lessons && s.lessons[lesson].course in s.courses {
      var c := s.lessons[lesson].course;
      assert actor in s.courses[c].enrolledStudents <==> c in s.users[actor].enrolledCourses;
    }
  }

  /** Without the mirror the routes can disagree: a user listed by the
      course but not listing it may view every lesson yet complete none. */
  lemma ViewWithoutEnrolment()
    ensures var u := User("Ann", "ann@x.io", "secret", Learner, Unset, None, [], [], []);
            var c := Course("T", "D", None, 0, Published, [0], [0], 1);
            var l := Lesson("L", "C", None, None, 1, 0, None);
            var s := Store(map[0 := u], map[0 := c], map[0 := l]);
            && ViewLesson(s, 0, 0).Ok?
            && CompleteLesson(s, 0, 0, 0, (a, b, t) => "") == Err(Forbidden("Not enrolled in this course"))
  {
  }

  /** The detail page and enrolment agree on which courses exist: a course
      can be seen exactly when enrolling in it is not refused as unknown. */
  lemma DetailAgreesWithEnroll(s: Store, actor: UserId, course: CourseId)
    requires actor in s.users
    ensures CourseDetail(s, course).Ok? <==> Enroll(s, actor, course) != Err(NotFound("Course not found"))
  {
  }

  /** Submitting and then publishing a course makes it visible in the
      public catalog and on its detail page. */
  lemma SubmitThenPublish(s: Store, creator: UserId, admin: UserId, course: CourseId)
    requires creator in s.users && admin in s.users && IsAdmin(s, admin)
    requires Submit(s, creator, course).Ok?
    ensures var s1 := Submit(s, creator, course).value;
            var s2 := SetCourseStatus(s1, admin, course, Published);
            && course in PendingCourses(s1, admin).value
            && s2.Ok?
            && CourseDetail(s2.value, course).Ok?
            && course in ListCourses(s2.value, None)
  {
  }

  /** Applying puts the applicant on every admin's creator queue. */
  lemma ApplyJoinsQueue(s: Store, actor: UserId, form: ApplicationForm, now: Time, admin: UserId)
    requires actor in s.users && admin in s.users && IsAdmin(s, admin)
    requires Apply(s, actor, form, now).Ok?
    ensures var s' := Apply(s, actor, form, now).value;
            && IsAdmin(s', admin)
            && actor in PendingCreators(s', admin).value
  {
  }
}
