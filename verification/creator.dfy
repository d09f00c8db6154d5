/**
  The creator routes: applying to become a creator, the creator dashboard,
  creating a course, adding a lesson under the `(course, order)` index, and
  submitting a course for review.
 */
module Creator {
  import opened Outcomes
  import opened Text
  import opened Models
  import opened Invariants
  import opened Progress

  /** `requireRole(roles)`: the authenticated user's role is one of `roles`. */
  predicate HasRole(s: Store, actor: UserId, role: Role)
    requires actor in s.users
  {
    s.users[actor].role == role
  }

  /** The four fields of the application form, as received. */
  datatype ApplicationForm = ApplicationForm(
    phone: Option<string>,
    expertise: Option<string>,
    experience: Option<string>,
    motivation: Option<string>)

  /** POST /apply. Any user who is not already a creator (an admin included)
      may apply; the status becomes pending whatever it was, so a rejected
      or approved user can apply again, and the previous application is
      replaced. The role is left alone. */
  function Apply(s: Store, actor: UserId, form: ApplicationForm, now: Time): (r: Result<Store>)
    requires actor in s.users
    ensures s.users[actor].role == Creator <==> r == Err(BadRequest("Already a creator"))
    ensures r.Ok? <==> s.users[actor].role != Creator
    ensures r.Ok? ==>
      && r.value.courses == s.courses && r.value.lessons == s.lessons
      && OtherUsersUnchanged(s, r.value, actor)
      && r.value.users[actor].role == s.users[actor].role
      && r.value.users[actor].creatorStatus == CreatorStatus.Pending
      && r.value.users[actor].creatorApplication ==
           Some(Application(form.phone, form.expertise, form.experience, form.motivation, now))
      && r.value.users[actor] == s.users[actor].(creatorStatus := r.value.users[actor].creatorStatus,
                                                 creatorApplication := r.value.users[actor].creatorApplication)
  {
    var u := s.users[actor];
    if u.role == Creator then Err(BadRequest("Already a creator"))
    else
      var app := Application(form.phone, form.expertise, form.experience, form.motivation, now);
      Ok(s.(users := s.users[actor := u.(creatorStatus := CreatorStatus.Pending, creatorApplication := Some(app))]))
  }

  lemma ApplyPreservesValid(s: Store, actor: UserId, form: ApplicationForm, now: Time)
    requires Valid(s) && actor in s.users && Apply(s, actor, form, now).Ok?
    ensures Valid(Apply(s, actor, form, now).value)
  {
    ApplySameShape(s, actor, form, now);
    SameShapeValid(s, Apply(s, actor, form, now).value);
  }

  lemma ApplySameShape(s: Store, actor: UserId, form: ApplicationForm, now: Time)
    requires actor in s.users && Apply(s, actor, form, now).Ok?
    ensures SameShape(s, Apply(s, actor, form, now).value)
  {
  }

  /** GET /dashboard: the ids of the courses the creator owns. */
  function Dashboard(s: Store, actor: UserId): (r: Result<set<CourseId>>)
    requires actor in s.users
    ensures !HasRole(s, actor, Creator) <==> r == Err(RoleDenied)
    ensures r.Ok? ==> forall c :: c in r.value <==> c in s.courses && s.courses[c].creator == actor
  {
    if !HasRole(s, actor, Creator) then Err(RoleDenied)
    else Ok(set c | c in s.courses && s.courses[c].creator == actor)
  }

  /** A created course appears on its creator's dashboard, and nothing
      else does. */
  lemma CreateCourseJoinsDashboard(s: Store, actor: UserId, id: CourseId, form: CourseForm)
    requires actor in s.users && id !in s.courses && CreateCourse(s, actor, id, form).Ok?
    ensures Dashboard(CreateCourse(s, actor, id, form).value, actor) == Ok(Dashboard(s, actor).value + {id})
  {
    var s' := CreateCourse(s, actor, id, form).value;
    var mine, mine' := Dashboard(s, actor).value, Dashboard(s', actor).value;
    forall c
      ensures c in mine' <==> c in mine + {id}
    {
      if c != id && c in s.courses {
        assert s'.courses[c] == s.courses[c];
      }
    }
    assert mine' == mine + {id};
  }

  /** The fields of a new course, as received. */
  datatype CourseForm = CourseForm(title: Option<string>, description: Option<string>, category: Option<string>)

  /** POST /courses. Only a creator may create a course; the new course is
      theirs, a draft, with no lessons and no students. A missing or empty
      title or description fails validation, which answers 500. */
  function CreateCourse(s: Store, actor: UserId, id: CourseId, form: CourseForm): (r: Result<Store>)
    requires actor in s.users && id !in s.courses
    ensures !HasRole(s, actor, Creator) ==> r == Err(RoleDenied)
    ensures HasRole(s, actor, Creator) && (!Present(form.title) || !Present(form.description)) ==>
              r == Err(ServerError)
    ensures r.Ok? <==> HasRole(s, actor, Creator) && Present(form.title) && Present(form.description)
    ensures r.Ok? ==>
      && r.value.users == s.users && r.value.lessons == s.lessons
      && r.value.courses.Keys == s.courses.Keys + {id}
      && (forall c :: c in s.courses ==> r.value.courses[c] == s.courses[c])
      && r.value.courses[id] ==
           Course(form.title.value, form.description.value, form.category, actor, Draft, [], [], 0)
  {
    if !HasRole(s, actor, Creator) then Err(RoleDenied)
    else match InsertCourse(s, id, form.title, form.description, form.category, actor)
      case Saved(s') => Ok(s')
      case _ => Err(ServerError)
  }

  lemma CreateCoursePreservesValid(s: Store, actor: UserId, id: CourseId, form: CourseForm)
    requires Valid(s) && actor in s.users && id !in s.courses
    requires CreateCourse(s, actor, id, form).Ok?
    ensures Valid(CreateCourse(s, actor, id, form).value)
  {
    var s' := CreateCourse(s, actor, id, form).value;
    NewCourseMirrored(s, s', id);
    NewCourseLinked(s, s', id);
    NewCourseRest(s, s', id);
  }

  /** `s'` is `s` with one more course, `id`, owned by a known user and
      holding no lessons and no students. */
  predicate CourseAdded(s: Store, s': Store, id: CourseId) {
    && id !in s.courses
    && s'.users == s.users && s'.lessons == s.lessons
    && s'.courses.Keys == s.courses.Keys + {id}
    && (forall c :: c in s.courses ==> s'.courses[c] == s.courses[c])
    && s'.courses[id].creator in s.users
    && s'.courses[id].title != "" && s'.courses[id].description != ""
    && s'.courses[id].lessons == [] && s'.courses[id].enrolledStudents == []
    && s'.courses[id].totalLessons == 0
  }

  lemma NewCourseMirrored(s: Store, s': Store, id: CourseId)
    requires EnrollmentMirrored(s) && EnrollmentDistinct(s) && CourseAdded(s, s', id)
    ensures EnrollmentMirrored(s') && EnrollmentDistinct(s')
  {
    assert EnrollmentListsKept(s, s');
    EnrollmentKept(s, s');
  }

  lemma NewCourseLinked(s: Store, s': Store, id: CourseId)
    requires LessonsLinked(s) && CourseAdded(s, s', id)
    ensures LessonsLinked(s')
  {
    forall l | l in s'.lessons
      ensures s'.lessons[l].course in s'.courses && l in s'.courses[s'.lessons[l].course].lessons
    {
      assert s.lessons[l].course in s.courses;
    }
  }

  lemma NewCourseRest(s: Store, s': Store, id: CourseId)
    requires Valid(s) && CourseAdded(s, s', id)
    ensures ReferencesKnown(s') && LessonListsDistinct(s') && CountsAccurate(s')
    ensures OrdersUnique(s') && EmailsUnique(s') && FieldsValid(s')
  {
    NewCourseLists(s, s', id);
    NewCourseFields(s, s', id);
  }

  lemma NewCourseLists(s: Store, s': Store, id: CourseId)
    requires ReferencesKnown(s) && LessonListsDistinct(s) && CountsAccurate(s) && CourseAdded(s, s', id)
    ensures ReferencesKnown(s') && LessonListsDistinct(s') && CountsAccurate(s')
  {
  }

  lemma NewCourseFields(s: Store, s': Store, id: CourseId)
    requires OrdersUnique(s) && EmailsUnique(s) && FieldsValid(s) && CourseAdded(s, s', id)
    ensures OrdersUnique(s') && EmailsUnique(s') && FieldsValid(s')
  {
  }

  /** The fields of a new lesson, as received. */
  datatype LessonForm = LessonForm(
    title: Option<string>,
    content: Option<string>,
    videoUrl: Option<string>,
    order: Option<int>)

  /** The transcript stored with every new lesson. */
  function Transcript(title: string): (t: string)
    ensures |t| == |"Auto-generated transcript for: "| + |title|
    ensures t[..|"Auto-generated transcript for: "|] == "Auto-generated transcript for: "
    ensures t[|"Auto-generated transcript for: "|..] == title
  {
    "Auto-generated transcript for: " + title
  }

  predicate OwnsCourse(s: Store, actor: UserId, course: CourseId) {
    course in s.courses && s.courses[course].creator == actor
  }

  /** POST /courses/:courseId/lessons. Only a creator may add a lesson, and
      only to a course they own, whatever its status. The lesson is saved
      first; a missing field fails validation (500) and an order already
      used in the course fails the unique index (400), and in both cases
      the course is untouched. On success the lesson id is appended to the
      course and `totalLessons` becomes the new length. */
  function AddLesson(s: Store, actor: UserId, course: CourseId, id: LessonId, form: LessonForm): (r: Result<Store>)
    requires actor in s.users && id !in s.lessons
    ensures !HasRole(s, actor, Creator) ==> r == Err(RoleDenied)
    ensures HasRole(s, actor, Creator) && !OwnsCourse(s, actor, course) ==> r == Err(NotFound("Course not found"))
    ensures HasRole(s, actor, Creator) && OwnsCourse(s, actor, course) ==>
              ((!Present(form.title) || !Present(form.content) || form.order.None?) <==> r == Err(ServerError))
    ensures HasRole(s, actor, Creator) && OwnsCourse(s, actor, course) &&
            Present(form.title) && Present(form.content) && form.order.Some? ==>
              (OrderTaken(s, course, form.order.value) <==>
               r == Err(BadRequest("Lesson order must be unique within course")))
    ensures r.Ok? <==>
      && HasRole(s, actor, Creator) && OwnsCourse(s, actor, course)
      && Present(form.title) && Present(form.content) && form.order.Some?
      && !OrderTaken(s, course, form.order.value)
    ensures r.Ok? ==>
      && r.value.users == s.users
      && r.value.lessons.Keys == s.lessons.Keys + {id}
      && (forall l :: l in s.lessons ==> r.value.lessons[l] == s.lessons[l])
      && r.value.lessons[id] == Lesson(form.title.value, form.content.value, form.videoUrl,
                                       Some(Transcript(form.title.value)), form.order.value, course, None)
      && OtherCoursesUnchanged(s, r.value, course)
      && r.value.courses[course] == s.courses[course].(lessons := s.courses[course].lessons + [id],
                                                       totalLessons := |s.courses[course].lessons| + 1)
  {
    if !HasRole(s, actor, Creator) then Err(RoleDenied)
    else if !OwnsCourse(s, actor, course) then Err(NotFound("Course not found"))
    else
      var transcript := if form.title.Some? then Some(Transcript(form.title.value)) else None;
      match InsertLesson(s, id, form.title, form.content, form.videoUrl, form.order, course, transcript)
      case Invalid => Err(ServerError)
      case DuplicateKey => Err(BadRequest("Lesson order must be unique within course"))
      case Saved(s1) =>
        var c := s1.courses[course];
        var lessons := c.lessons + [id];
        Ok(s1.(courses := s1.courses[course := c.(lessons := lessons, totalLessons := |lessons|)]))
  }

  /** The transcript of a lesson added to a course: exactly the fixed
      prefix followed by the lesson's title. */
  lemma AddLessonTranscript(s: Store, actor: UserId, course: CourseId, id: LessonId, form: LessonForm)
    requires actor in s.users && id !in s.lessons && AddLesson(s, actor, course, id, form).Ok?
    ensures var lesson := AddLesson(s, actor, course, id, form).value.lessons[id];
            && lesson.transcript.Some?
            && lesson.transcript.value[..31] == "Auto-generated transcript for: "
            && lesson.transcript.value[31..] == lesson.title
  {
  }

  lemma AddLessonPreservesValid(s: Store, actor: UserId, course: CourseId, id: LessonId, form: LessonForm)
    requires Valid(s) && actor in s.users && id !in s.lessons
    requires AddLesson(s, actor, course, id, form).Ok?
    ensures Valid(AddLesson(s, actor, course, id, form).value)
  {
    var s' := AddLesson(s, actor, course, id, form).value;
    assert LessonAdded(s, s', course, id);
    NewLessonMirrored(s, s', course, id);
    NewLessonLinked(s, s', course, id);
    NewLessonDistinct(s, s', course, id);
    NewLessonRest(s, s', course, id);
  }

  /** `s'` is `s` with one more lesson, `id`, appended to `course` under an
      order no other lesson of that course uses. */
  predicate LessonAdded(s: Store, s': Store, course: CourseId, id: LessonId) {
    && id !in s.lessons && course in s.courses
    && s'.users == s.users
    && s'.lessons.Keys == s.lessons.Keys + {id}
    && (forall l :: l in s.lessons ==> s'.lessons[l] == s.lessons[l])
    && s'.lessons[id].course == course
    && s'.lessons[id].title != "" && s'.lessons[id].content != ""
    && (forall l :: l in s.lessons && s.lessons[l].course == course ==> s.lessons[l].order != s'.lessons[id].order)
    && OtherCoursesUnchanged(s, s', course)
    && s'.courses[course] == s.courses[course].(lessons := s.courses[course].lessons + [id],
                                                totalLessons := |s.courses[course].lessons| + 1)
  }

  lemma NewLessonMirrored(s: Store, s': Store, course: CourseId, id: LessonId)
    requires EnrollmentMirrored(s) && EnrollmentDistinct(s) && LessonAdded(s, s', course, id)
    ensures EnrollmentMirrored(s') && EnrollmentDistinct(s')
  {
    forall c | c in s'.courses
      ensures s'.courses[c].enrolledStudents == s.courses[c].enrolledStudents
    {
    }
    assert EnrollmentListsKept(s, s');
    EnrollmentKept(s, s');
  }

  lemma NewLessonLinked(s: Store, s': Store, course: CourseId, id: LessonId)
    requires LessonsLinked(s) && LessonAdded(s, s', course, id)
    ensures LessonsLinked(s')
  {
    forall c, l | c in s'.courses && l in s'.courses[c].lessons
      ensures l in s'.lessons && s'.lessons[l].course == c
    {
      if l != id {
        assert l in s.courses[c].lessons;
      }
    }
    forall l | l in s'.lessons
      ensures s'.lessons[l].course in s'.courses && l in s'.courses[s'.lessons[l].course].lessons
    {
      if l != id {
        var c := s.lessons[l].course;
        assert l in s.courses[c].lessons;
      }
    }
  }

  lemma NewLessonDistinct(s: Store, s': Store, course: CourseId, id: LessonId)
    requires LessonsLinked(s) && LessonListsDistinct(s) && ReferencesKnown(s) && CountsAccurate(s)
    requires LessonAdded(s, s', course, id)
    ensures LessonListsDistinct(s') && ReferencesKnown(s') && CountsAccurate(s')
  {
    assert id !in s.courses[course].lessons;
    NoDupAppend(s.courses[course].lessons, id);
  }

  lemma NewLessonRest(s: Store, s': Store, course: CourseId, id: LessonId)
    requires OrdersUnique(s) && EmailsUnique(s) && FieldsValid(s) && LessonAdded(s, s', course, id)
    ensures OrdersUnique(s') && EmailsUnique(s') && FieldsValid(s')
  {
    forall c | c in s'.courses
      ensures CourseOk(s'.courses[c])
    {
      assert CourseOk(s.courses[c]);
    }
    forall l | l in s'.lessons
      ensures LessonOk(s'.lessons[l])
    {
      if l != id {
        assert LessonOk(s.lessons[l]);
      }
    }
  }

  /** Adding a lesson to a course raises its lesson count by one and leaves
      every user's count of completed lessons in it as it was, so the
      percentage of a learner who had finished the course drops below 100. */
  lemma AddLessonProgress(s: Store, actor: UserId, course: CourseId, id: LessonId, form: LessonForm, user: UserId)
    requires Valid(s) && actor in s.users && id !in s.lessons && user in s.users
    requires AddLesson(s, actor, course, id, form).Ok?
    ensures var s' := AddLesson(s, actor, course, id, form).value;
            && GetProgress(s', user, course).totalLessons == GetProgress(s, user, course).totalLessons + 1
            && GetProgress(s', user, course).completedLessons == GetProgress(s, user, course).completedLessons
  {
    var s' := AddLesson(s, actor, course, id, form).value;
    var done := s.users[user].completedLessons;
    assert id !in done;
    CompletedOfAppend(s.courses[course].lessons, [id], done);
    assert CompletedOf([id], done) == [];
  }

  /** PATCH /courses/:courseId/submit. The owner's course becomes pending
      from any status: there is no draft check and no lesson check. */
  function Submit(s: Store, actor: UserId, course: CourseId): (r: Result<Store>)
    requires actor in s.users
    ensures !HasRole(s, actor, Creator) ==> r == Err(RoleDenied)
    ensures HasRole(s, actor, Creator) && !OwnsCourse(s, actor, course) ==> r == Err(NotFound("Course not found"))
    ensures r.Ok? <==> HasRole(s, actor, Creator) && OwnsCourse(s, actor, course)
    ensures r.Ok? ==>
      && r.value.users == s.users && r.value.lessons == s.lessons
      && OtherCoursesUnchanged(s, r.value, course)
      && r.value.courses[course] == s.courses[course].(status := CourseStatus.Pending)
  {
    if !HasRole(s, actor, Creator) then Err(RoleDenied)
    else if !OwnsCourse(s, actor, course) then Err(NotFound("Course not found"))
    else Ok(s.(courses := s.courses[course := s.courses[course].(status := CourseStatus.Pending)]))
  }

  /** Submitting twice leaves the store as submitting once. */
  lemma SubmitIdempotent(s: Store, actor: UserId, course: CourseId)
    requires actor in s.users && Submit(s, actor, course).Ok?
    ensures Submit(Submit(s, actor, course).value, actor, course) == Submit(s, actor, course)
  {
    var s1 := Submit(s, actor, course).value;
    assert s1.courses[course := s1.courses[course].(status := CourseStatus.Pending)] == s1.courses;
  }

  lemma SubmitPreservesValid(s: Store, actor: UserId, course: CourseId)
    requires Valid(s) && actor in s.users && Submit(s, actor, course).Ok?
    ensures Valid(Submit(s, actor, course).value)
  {
    SubmitSameShape(s, actor, course);
    SameShapeValid(s, Submit(s, actor, course).value);
  }

  lemma SubmitSameShape(s: Store, actor: UserId, course: CourseId)
    requires actor in s.users && Submit(s, actor, course).Ok?
    ensures SameShape(s, Submit(s, actor, course).value)
  {
  }
}
