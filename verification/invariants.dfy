/**
  The consistency conditions every store reachable through the routes
  satisfies. Enrolment is recorded twice, on the user
  (`enrolledCourses`) and on the course (`enrolledStudents`), and different
  routes read different sides, so the two must mirror each other; lesson
  lists, lesson counts and the unique indexes must agree with the lesson
  documents.
 */
module Invariants {
  import opened Text
  import opened EmailFormat
  import opened Models

  predicate NoDup<T(==)>(xs: seq<T>) {
    forall i, j :: 0 <= i < j < |xs| ==> xs[i] != xs[j]
  }

  lemma NoDupAppend<T>(xs: seq<T>, x: T)
    requires NoDup(xs) && x !in xs
    ensures NoDup(xs + [x])
  {
  }

  /** A user lists a course exactly when the course lists the user, and both
      sides only name documents that exist. */
  predicate EnrollmentMirrored(s: Store) {
    UserSideMirrored(s) && CourseSideMirrored(s)
  }

  /** Every course a user lists exists and lists the user. */
  predicate UserSideMirrored(s: Store) {
    forall u, c :: u in s.users && c in s.users[u].enrolledCourses ==>
      c in s.courses && u in s.courses[c].enrolledStudents
  }

  /** Every student a course lists exists and lists the course. */
  predicate CourseSideMirrored(s: Store) {
    forall c, u :: c in s.courses && u in s.courses[c].enrolledStudents ==>
      u in s.users && c in s.users[u].enrolledCourses
  }

  /** A course lists exactly the lessons that belong to it. */
  predicate LessonsLinked(s: Store) {
    && (forall c, l :: c in s.courses && l in s.courses[c].lessons ==>
          l in s.lessons && s.lessons[l].course == c)
    && (forall l :: l in s.lessons ==>
          s.lessons[l].course in s.courses && l in s.courses[s.lessons[l].course].lessons)
  }

  /** Completed lessons and course owners name documents that exist. */
  predicate ReferencesKnown(s: Store) {
    && (forall u, l :: u in s.users && l in s.users[u].completedLessons ==> l in s.lessons)
    && (forall c :: c in s.courses ==> s.courses[c].creator in s.users)
  }

  /** Neither side of an enrolment lists the same document twice. */
  predicate EnrollmentDistinct(s: Store) {
    && (forall u :: u in s.users ==> NoDup(s.users[u].enrolledCourses))
    && (forall c :: c in s.courses ==> NoDup(s.courses[c].enrolledStudents))
  }

  /** Neither a completion list nor a course's lesson list repeats a lesson. */
  predicate LessonListsDistinct(s: Store) {
    && (forall u :: u in s.users ==> NoDup(s.users[u].completedLessons))
    && (forall c :: c in s.courses ==> NoDup(s.courses[c].lessons))
  }

  predicate ListsDistinct(s: Store) {
    EnrollmentDistinct(s) && LessonListsDistinct(s)
  }

  /** The denormalised `totalLessons` equals the length of the lesson list. */
  predicate CountsAccurate(s: Store) {
    forall c :: c in s.courses ==> s.courses[c].totalLessons == |s.courses[c].lessons|
  }

  /** The unique index on `(course, order)`. */
  predicate OrdersUnique(s: Store) {
    forall l1, l2 ::
      l1 in s.lessons && l2 in s.lessons && l1 != l2 && s.lessons[l1].course == s.lessons[l2].course ==>
        s.lessons[l1].order != s.lessons[l2].order
  }

  /** The unique index on `email`. */
  predicate EmailsUnique(s: Store) {
    forall u1, u2 :: u1 in s.users && u2 in s.users && u1 != u2 ==>
      s.users[u1].email != s.users[u2].email
  }

  /** The user schema's validators held when the user was saved. */
  predicate UserOk(u: User) {
    u.name != "" && IsLower(u.email) && EmailRegex(u.email)
  }

  predicate CourseOk(c: Course) {
    c.title != "" && c.description != ""
  }

  predicate LessonOk(l: Lesson) {
    l.title != "" && l.content != ""
  }

  /** The schema's validators held when each document was saved. */
  predicate FieldsValid(s: Store) {
    && (forall u {:trigger UserOk(s.users[u])} :: u in s.users ==> UserOk(s.users[u]))
    && (forall c {:trigger CourseOk(s.courses[c])} :: c in s.courses ==> CourseOk(s.courses[c]))
    && (forall l {:trigger LessonOk(s.lessons[l])} :: l in s.lessons ==> LessonOk(s.lessons[l]))
  }

  predicate Valid(s: Store) {
    && EnrollmentMirrored(s)
    && LessonsLinked(s)
    && ReferencesKnown(s)
    && ListsDistinct(s)
    && CountsAccurate(s)
    && OrdersUnique(s)
    && EmailsUnique(s)
    && FieldsValid(s)
  }

  lemma EmptyStoreValid()
    ensures Valid(EmptyStore)
  {
  }

  /** `s'` keeps every enrolment list of `s`, and any user or course it
      adds has empty ones. */
  predicate EnrollmentListsKept(s: Store, s': Store) {
    && s.users.Keys <= s'.users.Keys && s.courses.Keys <= s'.courses.Keys
    && (forall u :: u in s.users ==> s'.users[u].enrolledCourses == s.users[u].enrolledCourses)
    && (forall u :: u in s'.users && u !in s.users ==> s'.users[u].enrolledCourses == [])
    && (forall c :: c in s.courses ==> s'.courses[c].enrolledStudents == s.courses[c].enrolledStudents)
    && (forall c :: c in s'.courses && c !in s.courses ==> s'.courses[c].enrolledStudents == [])
  }

  lemma EnrollmentKept(s: Store, s': Store)
    requires EnrollmentMirrored(s) && EnrollmentDistinct(s) && EnrollmentListsKept(s, s')
    ensures EnrollmentMirrored(s') && EnrollmentDistinct(s')
  {
    KeptUserSide(s, s');
    KeptCourseSide(s, s');
    KeptDistinct(s, s');
  }

  lemma KeptUserSide(s: Store, s': Store)
    requires UserSideMirrored(s) && EnrollmentListsKept(s, s')
    ensures UserSideMirrored(s')
  {
    forall u, c | u in s'.users && c in s'.users[u].enrolledCourses
      ensures c in s'.courses && u in s'.courses[c].enrolledStudents
    {
      assert u in s.users;
      assert s'.users[u].enrolledCourses == s.users[u].enrolledCourses;
      assert c in s.courses && u in s.courses[c].enrolledStudents;
      assert s'.courses[c].enrolledStudents == s.courses[c].enrolledStudents;
    }
  }

  lemma KeptCourseSide(s: Store, s': Store)
    requires CourseSideMirrored(s) && EnrollmentListsKept(s, s')
    ensures CourseSideMirrored(s')
  {
    forall c, u | c in s'.courses && u in s'.courses[c].enrolledStudents
      ensures u in s'.users && c in s'.users[u].enrolledCourses
    {
      assert c in s.courses;
      assert s'.courses[c].enrolledStudents == s.courses[c].enrolledStudents;
      assert u in s.users && c in s.users[u].enrolledCourses;
      assert s'.users[u].enrolledCourses == s.users[u].enrolledCourses;
    }
  }

  lemma KeptDistinct(s: Store, s': Store)
    requires EnrollmentDistinct(s) && EnrollmentListsKept(s, s')
    ensures EnrollmentDistinct(s')
  {
    forall u | u in s'.users
      ensures NoDup(s'.users[u].enrolledCourses)
    {
      if u in s.users {
        assert s'.users[u].enrolledCourses == s.users[u].enrolledCourses;
      }
    }
    forall c | c in s'.courses
      ensures NoDup(s'.courses[c].enrolledStudents)
    {
      if c in s.courses {
        assert s'.courses[c].enrolledStudents == s.courses[c].enrolledStudents;
      }
    }
  }

  /** `s'` differs from `s` at most in the enrolment lists and in fields
      no condition mentions: roles, creator status and application,
      certificates and course status. */
  predicate Alike(s: Store, s': Store) {
    && s'.lessons == s.lessons
    && s'.users.Keys == s.users.Keys && s'.courses.Keys == s.courses.Keys
    && (forall u :: u in s.users ==>
          && s'.users[u].name == s.users[u].name && s'.users[u].email == s.users[u].email
          && s'.users[u].completedLessons == s.users[u].completedLessons)
    && (forall c :: c in s.courses ==>
          && s'.courses[c].title == s.courses[c].title
          && s'.courses[c].description == s.courses[c].description
          && s'.courses[c].creator == s.courses[c].creator
          && s'.courses[c].lessons == s.courses[c].lessons
          && s'.courses[c].totalLessons == s.courses[c].totalLessons)
  }

  /** Like `Alike`, with the enrolment lists unchanged as well. */
  predicate SameShape(s: Store, s': Store) {
    && Alike(s, s')
    && (forall u :: u in s.users ==> s'.users[u].enrolledCourses == s.users[u].enrolledCourses)
    && (forall c :: c in s.courses ==> s'.courses[c].enrolledStudents == s.courses[c].enrolledStudents)
  }

  lemma SameShapeMirrored(s: Store, s': Store)
    requires EnrollmentMirrored(s) && SameShape(s, s')
    ensures EnrollmentMirrored(s')
  {
    forall u, c | u in s'.users && c in s'.users[u].enrolledCourses
      ensures c in s'.courses && u in s'.courses[c].enrolledStudents
    {
      assert u in s.users && c in s.users[u].enrolledCourses;
      assert s'.courses[c].enrolledStudents == s.courses[c].enrolledStudents;
    }
    forall c, u | c in s'.courses && u in s'.courses[c].enrolledStudents
      ensures u in s'.users && c in s'.users[u].enrolledCourses
    {
      assert c in s.courses && u in s.courses[c].enrolledStudents;
      assert s'.users[u].enrolledCourses == s.users[u].enrolledCourses;
    }
  }

  lemma SameShapeEnrollmentDistinct(s: Store, s': Store)
    requires EnrollmentDistinct(s) && SameShape(s, s')
    ensures EnrollmentDistinct(s')
  {
  }

  lemma AlikeLinked(s: Store, s': Store)
    requires LessonsLinked(s) && Alike(s, s')
    ensures LessonsLinked(s')
  {
    forall c, l | c in s'.courses && l in s'.courses[c].lessons
      ensures l in s'.lessons && s'.lessons[l].course == c
    {
      assert c in s.courses && l in s.courses[c].lessons;
    }
    forall l | l in s'.lessons
      ensures s'.lessons[l].course in s'.courses && l in s'.courses[s'.lessons[l].course].lessons
    {
      var c := s.lessons[l].course;
      assert c in s.courses && l in s.courses[c].lessons;
      assert s'.courses[c].lessons == s.courses[c].lessons;
    }
  }

  lemma AlikeReferences(s: Store, s': Store)
    requires ReferencesKnown(s) && LessonListsDistinct(s) && CountsAccurate(s) && Alike(s, s')
    ensures ReferencesKnown(s') && LessonListsDistinct(s') && CountsAccurate(s')
  {
  }

  lemma AlikeFields(s: Store, s': Store)
    requires OrdersUnique(s) && EmailsUnique(s) && FieldsValid(s) && Alike(s, s')
    ensures OrdersUnique(s') && EmailsUnique(s') && FieldsValid(s')
  {
    forall u | u in s'.users
      ensures UserOk(s'.users[u])
    {
      assert UserOk(s.users[u]);
    }
    forall c | c in s'.courses
      ensures CourseOk(s'.courses[c])
    {
      assert CourseOk(s.courses[c]);
    }
  }

  /** Everything but the enrolment conditions carries over to an alike store. */
  lemma AlikeKeeps(s: Store, s': Store)
    requires Valid(s) && Alike(s, s')
    ensures LessonsLinked(s') && ReferencesKnown(s') && LessonListsDistinct(s')
    ensures CountsAccurate(s') && OrdersUnique(s') && EmailsUnique(s') && FieldsValid(s')
  {
    AlikeLinked(s, s');
    AlikeReferences(s, s');
    AlikeFields(s, s');
  }

  /** A store of the same shape as a valid one is valid. */
  lemma SameShapeValid(s: Store, s': Store)
    requires Valid(s) && SameShape(s, s')
    ensures Valid(s')
  {
    SameShapeMirrored(s, s');
    SameShapeEnrollmentDistinct(s, s');
    AlikeKeeps(s, s');
  }
}
