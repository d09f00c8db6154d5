/**
  The public course routes: the catalog, the course detail page and the
  enrolled-only lesson view. None of them writes to the store: each returns
  a value, never a new store.
 */
module Catalog {
  import opened Outcomes
  import opened Models

  /** GET /courses. The query `showAll=true` (exactly that text) lists every
      course, drafts included; anything else, or no query, lists the
      published ones. */
  function ListCourses(s: Store, showAll: Option<string>): (r: set<CourseId>)
    ensures showAll == Some("true") ==> r == s.courses.Keys
    ensures showAll != Some("true") ==>
              forall c :: c in r <==> c in s.courses && s.courses[c].status == Published
  {
    if showAll == Some("true") then s.courses.Keys
    else set c | c in s.courses && s.courses[c].status == Published
  }

  /** The catalog never lists more than every course, and the published
      listing is contained in the full one. */
  lemma ListingContained(s: Store, showAll: Option<string>)
    ensures ListCourses(s, showAll) <= ListCourses(s, Some("true"))
    ensures ListCourses(s, None) <= ListCourses(s, showAll)
  {
  }

  /** GET /courses/:id. Only a published course can be seen; an unknown id
      and an unpublished course give the same answer. */
  function CourseDetail(s: Store, course: CourseId): (r: Result<Course>)
    ensures r.Ok? <==> course in s.courses && s.courses[course].status == Published
    ensures r.Ok? ==> r.value == s.courses[course]
    ensures r.Err? ==> r.error == NotFound("Course not found")
  {
    if course in s.courses && s.courses[course].status == Published then Ok(s.courses[course])
    else Err(NotFound("Course not found"))
  }

  /** GET /courses/lessons/:lessonId. The lesson must exist and the actor
      must be listed among its course's students; the test reads the
      course side of the enrolment. A lesson whose course is gone fails
      when the missing course is dereferenced, which answers 500. */
  function ViewLesson(s: Store, actor: UserId, lesson: LessonId): (r: Result<Lesson>)
    requires actor in s.users
    ensures lesson !in s.lessons ==> r == Err(NotFound("Lesson not found"))
    ensures lesson in s.lessons && s.lessons[lesson].course !in s.courses ==> r == Err(ServerError)
    ensures lesson in s.lessons && s.lessons[lesson].course in s.courses &&
            actor !in s.courses[s.lessons[lesson].course].enrolledStudents ==>
              r == Err(Forbidden("Not enrolled in this course"))
    ensures r.Ok? <==>
      lesson in s.lessons && s.lessons[lesson].course in s.courses &&
      actor in s.courses[s.lessons[lesson].course].enrolledStudents
    ensures r.Ok? ==> r.value == s.lessons[lesson]
  {
    if lesson !in s.lessons then Err(NotFound("Lesson not found"))
    else
      var course := s.lessons[lesson].course;
      if course !in s.courses then Err(ServerError)
      else if actor !in s.courses[course].enrolledStudents then Err(Forbidden("Not enrolled in this course"))
      else Ok(s.lessons[lesson])
  }
}
