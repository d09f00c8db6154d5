/**
  The learner routes: enrolling in a published course, marking a lesson
  complete (which issues a certificate whenever the recomputed progress is
  100), and the progress overview.
 */
module Learner {
  import opened Outcomes
  import opened Models
  import opened Invariants
  import opened Progress

  predicate IsPublished(s: Store, course: CourseId) {
    course in s.courses && s.courses[course].status == Published
  }

  /** POST /enroll/:courseId. Only a published course can be joined, and
      only once; success records the enrolment on both the user and the
      course. No role is required. */
  function Enroll(s: Store, actor: UserId, course: CourseId): (r: Result<Store>)
    requires actor in s.users
    ensures !IsPublished(s, course) ==> r == Err(NotFound("Course not found"))
    ensures IsPublished(s, course) && course in s.users[actor].enrolledCourses ==>
              r == Err(BadRequest("Already enrolled"))
    ensures r.Ok? <==> IsPublished(s, course) && course !in s.users[actor].enrolledCourses
    ensures r.Ok? ==>
      && r.value.lessons == s.lessons
      && OtherUsersUnchanged(s, r.value, actor)
      && OtherCoursesUnchanged(s, r.value, course)
      && r.value.users[actor] ==
           s.users[actor].(enrolledCourses := s.users[actor].enrolledCourses + [course])
      && r.value.courses[course] ==
           s.courses[course].(enrolledStudents := s.courses[course].enrolledStudents + [actor])
  {
    if !IsPublished(s, course) then Err(NotFound("Course not found"))
    else
      var u := s.users[actor];
      if course in u.enrolledCourses then Err(BadRequest("Already enrolled"))
      else
        var c := s.courses[course];
        Ok(s.(users := s.users[actor := u.(enrolledCourses := u.enrolledCourses + [course])],
              courses := s.courses[course := c.(enrolledStudents := c.enrolledStudents + [actor])]))
  }

  /** Enrolling keeps the two sides of every enrolment in step, keeps both
      lists free of repeats, and keeps every other condition. */
  lemma EnrollPreservesValid(s: Store, actor: UserId, course: CourseId)
    requires Valid(s) && actor in s.users && Enroll(s, actor, course).Ok?
    ensures Valid(Enroll(s, actor, course).value)
  {
    var s' := Enroll(s, actor, course).value;
    EnrollAlike(s, actor, course);
    AlikeKeeps(s, s');
    EnrollMirrored(s, s', actor, course);
    EnrollDistinct(s, s', actor, course);
  }

  lemma EnrollAlike(s: Store, actor: UserId, course: CourseId)
    requires actor in s.users && Enroll(s, actor, course).Ok?
    ensures Alike(s, Enroll(s, actor, course).value)
  {
  }

  lemma EnrollMirrored(s: Store, s': Store, actor: UserId, course: CourseId)
    requires EnrollmentMirrored(s) && actor in s.users && Enroll(s, actor, course).Ok?
    requires s' == Enroll(s, actor, course).value
    ensures EnrollmentMirrored(s')
  {
    forall u, c | u in s'.users && c in s'.users[u].enrolledCourses
      ensures c in s'.courses && u in s'.courses[c].enrolledStudents
    {
      if u != actor || c != course {
        assert c in s.users[u].enrolledCourses;
      }
    }
    forall c, u | c in s'.courses && u in s'.courses[c].enrolledStudents
      ensures u in s'.users && c in s'.users[u].enrolledCourses
    {
      if u != actor || c != course {
        assert u in s.courses[c].enrolledStudents;
      }
    }
  }

  lemma EnrollDistinct(s: Store, s': Store, actor: UserId, course: CourseId)
    requires EnrollmentMirrored(s) && EnrollmentDistinct(s) && actor in s.users
    requires Enroll(s, actor, course).Ok? && s' == Enroll(s, actor, course).value
    ensures EnrollmentDistinct(s')
  {
    assert actor !in s.courses[course].enrolledStudents;
    NoDupAppend(s.users[actor].enrolledCourses, course);
    NoDupAppend(s.courses[course].enrolledStudents, actor);
  }

  /** A second enrolment in the same course is refused. */
  lemma EnrollTwiceFails(s: Store, actor: UserId, course: CourseId)
    requires actor in s.users && Enroll(s, actor, course).Ok?
    ensures Enroll(Enroll(s, actor, course).value, actor, course) == Err(BadRequest("Already enrolled"))
  {
  }

  datatype Completion = Completion(store: Store, certificateIssued: bool)

  /** The lessons a user has completed after marking `lesson`: the lesson is
      appended only when it is not already there. */
  predicate MarkedComplete(before: seq<LessonId>, after: seq<LessonId>, lesson: LessonId) {
    if lesson in before then after == before else after == before + [lesson]
  }

  /** POST /complete/:lessonId. The lesson must exist and the user must list
      its course among their enrolled courses. The lesson is recorded once;
      then, whenever the course's progress is 100, a certificate carrying
      `hash(user, course, now)` is appended, with no check for an earlier
      one. `hash` stands for the SHA-256 serial generator. */
  function CompleteLesson(s: Store, actor: UserId, lesson: LessonId, now: Time,
                          hash: (UserId, CourseId, Time) -> string): (r: Result<Completion>)
    requires actor in s.users
    ensures lesson !in s.lessons ==> r == Err(NotFound("Lesson not found"))
    ensures lesson in s.lessons && s.lessons[lesson].course !in s.courses ==> r == Err(ServerError)
    ensures lesson in s.lessons && s.lessons[lesson].course in s.courses &&
            s.lessons[lesson].course !in s.users[actor].enrolledCourses ==>
              r == Err(Forbidden("Not enrolled in this course"))
    ensures r.Ok? <==>
      lesson in s.lessons && s.lessons[lesson].course in s.courses &&
      s.lessons[lesson].course in s.users[actor].enrolledCourses
    ensures r.Ok? ==>
      r.value.store.courses == s.courses && r.value.store.lessons == s.lessons &&
      OtherUsersUnchanged(s, r.value.store, actor)
    ensures r.Ok? ==>
      var course := s.lessons[lesson].course;
      var u, u' := s.users[actor], r.value.store.users[actor];
      && MarkedComplete(u.completedLessons, u'.completedLessons, lesson)
      && (r.value.certificateIssued <==> GetProgress(r.value.store, actor, course).percentage == 100)
      && u'.certificates == u.certificates +
           (if r.value.certificateIssued then [Certificate(course, hash(actor, course, now), now)] else [])
      && u' == u.(completedLessons := u'.completedLessons, certificates := u'.certificates)
  {
    if lesson !in s.lessons then Err(NotFound("Lesson not found"))
    else
      var course := s.lessons[lesson].course;
      if course !in s.courses then Err(ServerError)
      else
        var u := s.users[actor];
        if course !in u.enrolledCourses then Err(Forbidden("Not enrolled in this course"))
        else
          var marked := if lesson in u.completedLessons then u
                        else u.(completedLessons := u.completedLessons + [lesson]);
          var s1 := s.(users := s.users[actor := marked]);
          if GetProgress(s1, actor, course).percentage == 100 then
            var cert := Certificate(course, hash(actor, course, now), now);
            var s2 := s.(users := s.users[actor := marked.(certificates := marked.certificates + [cert])]);
            assert GetProgress(s2, actor, course) == GetProgress(s1, actor, course);
            Ok(Completion(s2, true))
          else Ok(Completion(s1, false))
  }

  /** What a successful completion changes: the actor's completion list
      and certificates, nothing else. */
  predicate CompletionEffect(s: Store, s': Store, actor: UserId) {
    && actor in s.users
    && s'.courses == s.courses && s'.lessons == s.lessons && OtherUsersUnchanged(s, s', actor)
    && s'.users[actor] == s.users[actor].(completedLessons := s'.users[actor].completedLessons,
                                          certificates := s'.users[actor].certificates)
  }

  lemma CompleteLessonPreservesValid(s: Store, actor: UserId, lesson: LessonId, now: Time,
                                     hash: (UserId, CourseId, Time) -> string)
    requires Valid(s) && actor in s.users && CompleteLesson(s, actor, lesson, now, hash).Ok?
    ensures Valid(CompleteLesson(s, actor, lesson, now, hash).value.store)
  {
    var s' := CompleteLesson(s, actor, lesson, now, hash).value.store;
    CompletionOutcome(s, actor, lesson, now, hash);
    CompletionMirrored(s, s', actor);
    CompletionLinked(s, s', actor);
    CompletionReferences(s, s', actor);
    CompletionFields(s, s', actor);
  }

  lemma CompletionOutcome(s: Store, actor: UserId, lesson: LessonId, now: Time,
                          hash: (UserId, CourseId, Time) -> string)
    requires LessonListsDistinct(s) && actor in s.users && CompleteLesson(s, actor, lesson, now, hash).Ok?
    ensures var s' := CompleteLesson(s, actor, lesson, now, hash).value.store;
            && CompletionEffect(s, s', actor)
            && NoDup(s'.users[actor].completedLessons)
            && forall l :: l in s'.users[actor].completedLessons ==> l in s.users[actor].completedLessons || l == lesson
  {
    var done := s.users[actor].completedLessons;
    if lesson !in done {
      NoDupAppend(done, lesson);
    }
  }

  lemma CompletionMirrored(s: Store, s': Store, actor: UserId)
    requires EnrollmentMirrored(s) && EnrollmentDistinct(s) && CompletionEffect(s, s', actor)
    ensures EnrollmentMirrored(s') && EnrollmentDistinct(s')
  {
    forall u | u in s'.users
      ensures s'.users[u].enrolledCourses == s.users[u].enrolledCourses
    {
      if u != actor {
        assert s'.users[u] == s.users[u];
      }
    }
    assert EnrollmentListsKept(s, s');
    EnrollmentKept(s, s');
  }

  lemma CompletionLinked(s: Store, s': Store, actor: UserId)
    requires LessonsLinked(s) && CountsAccurate(s) && OrdersUnique(s) && CompletionEffect(s, s', actor)
    ensures LessonsLinked(s') && CountsAccurate(s') && OrdersUnique(s')
  {
  }

  lemma CompletionReferences(s: Store, s': Store, actor: UserId)
    requires ReferencesKnown(s) && LessonListsDistinct(s) && CompletionEffect(s, s', actor)
    requires NoDup(s'.users[actor].completedLessons)
    requires forall l :: l in s'.users[actor].completedLessons ==> l in s.lessons
    ensures ReferencesKnown(s') && LessonListsDistinct(s')
  {
  }

  lemma CompletionFields(s: Store, s': Store, actor: UserId)
    requires EmailsUnique(s) && FieldsValid(s) && CompletionEffect(s, s', actor)
    ensures EmailsUnique(s') && FieldsValid(s')
  {
    forall u | u in s'.users
      ensures UserOk(s'.users[u])
    {
      assert UserOk(s.users[u]);
      assert s'.users[u].name == s.users[u].name && s'.users[u].email == s.users[u].email;
    }
    forall u1, u2 | u1 in s'.users && u2 in s'.users && u1 != u2
      ensures s'.users[u1].email != s'.users[u2].email
    {
      assert s'.users[u1].email == s.users[u1].email && s'.users[u2].email == s.users[u2].email;
    }
  }

  /** Marking a lesson that is already complete changes nothing in the
      completed list, yet on a finished course it appends one more
      certificate each time. */
  lemma RepeatCompletionReissues(s: Store, actor: UserId, lesson: LessonId, t1: Time, t2: Time,
                                 hash: (UserId, CourseId, Time) -> string)
    requires actor in s.users
    requires CompleteLesson(s, actor, lesson, t1, hash).Ok?
    ensures var first := CompleteLesson(s, actor, lesson, t1, hash).value;
            var second := CompleteLesson(first.store, actor, lesson, t2, hash);
            && second.Ok?
            && second.value.store.users[actor].completedLessons == first.store.users[actor].completedLessons
            && second.value.certificateIssued == first.certificateIssued
            && (first.certificateIssued ==>
                  |second.value.store.users[actor].certificates| == |s.users[actor].certificates| + 2)
  {
    var first := CompleteLesson(s, actor, lesson, t1, hash).value;
    var course := s.lessons[lesson].course;
    var second := CompleteLesson(first.store, actor, lesson, t2, hash);
    assert GetProgress(second.value.store, actor, course).completedLessons ==
           GetProgress(first.store, actor, course).completedLessons;
  }

  /** Completing the last missing lesson of a course the user is enrolled in
      issues a certificate for that course. */
  lemma LastLessonIssuesCertificate(s: Store, actor: UserId, lesson: LessonId, now: Time,
                                    hash: (UserId, CourseId, Time) -> string)
    requires Valid(s) && actor in s.users && lesson in s.lessons
    requires s.lessons[lesson].course in s.users[actor].enrolledCourses
    requires forall l :: l in s.courses[s.lessons[lesson].course].lessons && l != lesson ==>
               l in s.users[actor].completedLessons
    ensures var r := CompleteLesson(s, actor, lesson, now, hash);
            var course := s.lessons[lesson].course;
            && r.Ok? && r.value.certificateIssued
            && r.value.store.users[actor].certificates ==
                 s.users[actor].certificates + [Certificate(course, hash(actor, course, now), now)]
  {
    var r := CompleteLesson(s, actor, lesson, now, hash);
    var course := s.lessons[lesson].course;
    var report := GetProgress(r.value.store, actor, course);
    assert lesson in s.courses[course].lessons;
    assert report.completedLessons == report.totalLessons;
  }

  /** Marking a lesson complete never lowers the user's progress in any
      course. */
  lemma CompletionNeverLowersProgress(s: Store, actor: UserId, lesson: LessonId, now: Time,
                                      hash: (UserId, CourseId, Time) -> string, course: CourseId)
    requires actor in s.users && course in s.courses
    requires CompleteLesson(s, actor, lesson, now, hash).Ok?
    ensures GetProgress(s, actor, course).percentage <=
            GetProgress(CompleteLesson(s, actor, lesson, now, hash).value.store, actor, course).percentage
  {
    var s' := CompleteLesson(s, actor, lesson, now, hash).value.store;
    var lessons := s.courses[course].lessons;
    CompletedOfMonotone(lessons, s.users[actor].completedLessons, s'.users[actor].completedLessons);
    PercentageMonotone(|CompletedOf(lessons, s.users[actor].completedLessons)|,
                       |CompletedOf(lessons, s'.users[actor].completedLessons)|, |lessons|);
  }

  datatype ProgressEntry = ProgressEntry(course: CourseId, report: Report)

  datatype Overview = Overview(progress: seq<ProgressEntry>, certificates: seq<Certificate>)

  /** One progress entry per listed course that still exists, in list order. */
  function Entries(s: Store, actor: UserId, courses: seq<CourseId>): (r: seq<ProgressEntry>)
    requires actor in s.users
    ensures |r| <= |courses|
    ensures forall i :: 0 <= i < |r| ==>
              r[i].course in courses && r[i].course in s.courses &&
              r[i].report == GetProgress(s, actor, r[i].course)
  {
    if courses == [] then []
    else
      var rest := Entries(s, actor, courses[1..]);
      assert forall c :: c in courses[1..] ==> c in courses;
      if courses[0] in s.courses then [ProgressEntry(courses[0], GetProgress(s, actor, courses[0]))] + rest
      else rest
  }

  /** When every listed course exists, there is one entry per course, in
      list order. */
  lemma EntriesInOrder(s: Store, actor: UserId, courses: seq<CourseId>)
    requires actor in s.users
    ensures (forall c :: c in courses ==> c in s.courses) ==>
              var r := Entries(s, actor, courses);
              |r| == |courses| && forall i :: 0 <= i < |r| ==> r[i].course == courses[i]
  {
    if forall c :: c in courses ==> c in s.courses {
      var r := Entries(s, actor, courses);
      EntriesExact(s, actor, courses);
      AllExisting(s, courses, |courses|);
      forall i | 0 <= i < |r|
        ensures r[i].course == courses[i]
      {
        AllExisting(s, courses, i);
        assert courses[i] in s.courses;
      }
    }
  }

  /** When every listed course exists, each prefix counts all its courses. */
  lemma {:induction false} AllExisting(s: Store, courses: seq<CourseId>, n: nat)
    requires n <= |courses| && forall c :: c in courses ==> c in s.courses
    ensures ExistingBefore(s, courses, n) == n
  {
    if n > 0 {
      AllExisting(s, courses, n - 1);
      ExistingBeforeStep(s, courses, n - 1);
      assert courses[n - 1] in s.courses;
    }
  }

  /** GET /progress: the progress of each enrolled course that still exists,
      in enrolment order, and the user's certificates. */
  function MyProgress(s: Store, actor: UserId): (r: Overview)
    requires actor in s.users
    ensures r.certificates == s.users[actor].certificates
    ensures forall i :: 0 <= i < |r.progress| ==>
              r.progress[i].course in s.users[actor].enrolledCourses &&
              r.progress[i].course in s.courses &&
              r.progress[i].report.percentage <= 100
    ensures var enrolled := s.users[actor].enrolledCourses;
            && |r.progress| == ExistingBefore(s, enrolled, |enrolled|)
            && forall i :: 0 <= i < |enrolled| && enrolled[i] in s.courses ==>
                 ExistingBefore(s, enrolled, i) < |r.progress| &&
                 r.progress[ExistingBefore(s, enrolled, i)] ==
                   ProgressEntry(enrolled[i], GetProgress(s, actor, enrolled[i]))
    ensures (forall c :: c in s.users[actor].enrolledCourses ==> c in s.courses) ==>
              |r.progress| == |s.users[actor].enrolledCourses| &&
              forall i :: 0 <= i < |r.progress| ==> r.progress[i].course == s.users[actor].enrolledCourses[i]
  {
    EntriesExact(s, actor, s.users[actor].enrolledCourses);
    EntriesInOrder(s, actor, s.users[actor].enrolledCourses);
    Overview(Entries(s, actor, s.users[actor].enrolledCourses), s.users[actor].certificates)
  }

  /** Entries only read each listed course's lessons and the user's
      completed list. */
  lemma {:induction false} EntriesSame(s: Store, s': Store, actor: UserId, courses: seq<CourseId>)
    requires actor in s.users && actor in s'.users
    requires s'.users[actor].completedLessons == s.users[actor].completedLessons
    requires forall c :: c in courses ==> (c in s'.courses <==> c in s.courses)
    requires forall c :: c in courses && c in s.courses ==> s'.courses[c].lessons == s.courses[c].lessons
    ensures Entries(s', actor, courses) == Entries(s, actor, courses)
    decreases |courses|
  {
    if courses != [] {
      assert forall c :: c in courses[1..] ==> c in courses;
      EntriesSame(s, s', actor, courses[1..]);
    }
  }

  /** A course appended to the list adds its entry at the end. */
  lemma {:induction false} EntriesAppend(s: Store, actor: UserId, courses: seq<CourseId>, c: CourseId)
    requires actor in s.users && c in s.courses
    ensures Entries(s, actor, courses + [c]) ==
            Entries(s, actor, courses) + [ProgressEntry(c, GetProgress(s, actor, c))]
    decreases |courses|
  {
    if courses == [] {
      assert courses + [c] == [c];
    } else {
      assert (courses + [c])[1..] == courses[1..] + [c];
      EntriesAppend(s, actor, courses[1..], c);
    }
  }

  /** A listed course that no longer exists adds no entry. */
  lemma {:induction false} EntriesAppendMissing(s: Store, actor: UserId, courses: seq<CourseId>, c: CourseId)
    requires actor in s.users && c !in s.courses
    ensures Entries(s, actor, courses + [c]) == Entries(s, actor, courses)
    decreases |courses|
  {
    if courses == [] {
      assert courses + [c] == [c];
    } else {
      assert (courses + [c])[1..] == courses[1..] + [c];
      EntriesAppendMissing(s, actor, courses[1..], c);
    }
  }

  /** How many of the first `n` listed courses still exist. */
  function ExistingBefore(s: Store, courses: seq<CourseId>, n: nat): nat
    requires n <= |courses|
  {
    |set j | 0 <= j < n && courses[j] in s.courses|
  }

  lemma ExistingBeforePrefix(s: Store, courses: seq<CourseId>, c: CourseId, n: nat)
    requires n <= |courses|
    ensures ExistingBefore(s, courses + [c], n) == ExistingBefore(s, courses, n)
  {
    var a := set j | 0 <= j < n && courses[j] in s.courses;
    var b := set j | 0 <= j < n && (courses + [c])[j] in s.courses;
    assert a == b;
  }

  lemma ExistingBeforeStep(s: Store, courses: seq<CourseId>, n: nat)
    requires n < |courses|
    ensures ExistingBefore(s, courses, n + 1) ==
            ExistingBefore(s, courses, n) + (if courses[n] in s.courses then 1 else 0)
  {
    var a := set j | 0 <= j < n && courses[j] in s.courses;
    var b := set j | 0 <= j < n + 1 && courses[j] in s.courses;
    if courses[n] in s.courses {
      assert b == a + {n};
      assert n !in a;
    } else {
      assert b == a;
    }
  }

  /** The entries are exactly the listed courses that still exist, in list
      order: their number is the number of existing courses, and the course
      at position `i` of the list, when it exists, has its entry at the
      position given by the number of existing courses before it. */
  lemma {:induction false} EntriesExact(s: Store, actor: UserId, courses: seq<CourseId>)
    requires actor in s.users
    ensures var r := Entries(s, actor, courses);
            && |r| == ExistingBefore(s, courses, |courses|)
            && forall i :: 0 <= i < |courses| && courses[i] in s.courses ==>
                 ExistingBefore(s, courses, i) < |r| &&
                 r[ExistingBefore(s, courses, i)] == ProgressEntry(courses[i], GetProgress(s, actor, courses[i]))
    decreases |courses|
  {
    if courses != [] {
      var n := |courses| - 1;
      var p, c := courses[..n], courses[n];
      assert courses == p + [c];
      EntriesExact(s, actor, p);
      if c in s.courses {
        EntriesAppend(s, actor, p, c);
      } else {
        EntriesAppendMissing(s, actor, p, c);
      }
      ExactStep(s, actor, p, c, Entries(s, actor, p), Entries(s, actor, courses));
    }
  }

  /** The inductive step of `EntriesExact`: appending a course to the list
      appends its entry when it exists. */
  lemma ExactStep(s: Store, actor: UserId, p: seq<CourseId>, c: CourseId,
                  q: seq<ProgressEntry>, r: seq<ProgressEntry>)
    requires actor in s.users
    requires |q| == ExistingBefore(s, p, |p|)
    requires forall i :: 0 <= i < |p| && p[i] in s.courses ==>
               ExistingBefore(s, p, i) < |q| &&
               q[ExistingBefore(s, p, i)] == ProgressEntry(p[i], GetProgress(s, actor, p[i]))
    requires c in s.courses ==> r == q + [ProgressEntry(c, GetProgress(s, actor, c))]
    requires c !in s.courses ==> r == q
    ensures var courses := p + [c];
            && |r| == ExistingBefore(s, courses, |courses|)
            && forall i :: 0 <= i < |courses| && courses[i] in s.courses ==>
                 ExistingBefore(s, courses, i) < |r| &&
                 r[ExistingBefore(s, courses, i)] == ProgressEntry(courses[i], GetProgress(s, actor, courses[i]))
  {
    var courses := p + [c];
    var n := |p|;
    ExistingBeforeStep(s, courses, n);
    ExistingBeforePrefix(s, p, c, n);
    assert |courses| == n + 1 && courses[n] == c;
    if c in s.courses {
      assert ExistingBefore(s, courses, n + 1) == |q| + 1 == |r|;
    } else {
      assert ExistingBefore(s, courses, n + 1) == |q| == |r|;
    }
    forall i | 0 <= i < |courses| && courses[i] in s.courses
      ensures ExistingBefore(s, courses, i) < |r| &&
              r[ExistingBefore(s, courses, i)] == ProgressEntry(courses[i], GetProgress(s, actor, courses[i]))
    {
      ExistingBeforePrefix(s, p, c, i);
      var k := ExistingBefore(s, p, i);
      if i < n {
        assert courses[i] == p[i] && p[i] in s.courses;
        assert k < |q| && q[k] == ProgressEntry(p[i], GetProgress(s, actor, p[i]));
        assert r[k] == q[k];
      } else {
        assert courses[i] == c && k == |q|;
        assert r == q + [ProgressEntry(c, GetProgress(s, actor, c))];
      }
    }
  }

  /** After enrolling, the progress overview gains one entry for the new
      course, at the end, and is otherwise as before. */
  lemma EnrollExtendsProgress(s: Store, actor: UserId, course: CourseId)
    requires actor in s.users && Enroll(s, actor, course).Ok?
    ensures var s' := Enroll(s, actor, course).value;
            && MyProgress(s', actor).progress ==
                 MyProgress(s, actor).progress + [ProgressEntry(course, GetProgress(s', actor, course))]
            && MyProgress(s', actor).certificates == MyProgress(s, actor).certificates
  {
    var s' := Enroll(s, actor, course).value;
    var before := s.users[actor].enrolledCourses;
    EntriesAppend(s', actor, before, course);
    EntriesSame(s, s', actor, before);
  }
}
