/**
  The admin routes: the two review queues and the two decisions. Every
  route requires the admin role; neither decision checks that the user or
  course is actually pending.
 */
module Admin {
  import opened Outcomes
  import opened Models
  import opened Invariants

  predicate IsAdmin(s: Store, actor: UserId)
    requires actor in s.users
  {
    s.users[actor].role == Admin
  }

  /** GET /creators/pending: every user whose application is pending. */
  function PendingCreators(s: Store, actor: UserId): (r: Result<set<UserId>>)
    requires actor in s.users
    ensures !IsAdmin(s, actor) <==> r == Err(RoleDenied)
    ensures r.Ok? ==> forall u :: u in r.value <==> u in s.users && s.users[u].creatorStatus == CreatorStatus.Pending
  {
    if !IsAdmin(s, actor) then Err(RoleDenied)
    else Ok(set u | u in s.users && s.users[u].creatorStatus == CreatorStatus.Pending)
  }

  /** GET /courses/pending: every course awaiting review. */
  function PendingCourses(s: Store, actor: UserId): (r: Result<set<CourseId>>)
    requires actor in s.users
    ensures !IsAdmin(s, actor) <==> r == Err(RoleDenied)
    ensures r.Ok? ==> forall c :: c in r.value <==> c in s.courses && s.courses[c].status == CourseStatus.Pending
  {
    if !IsAdmin(s, actor) then Err(RoleDenied)
    else Ok(set c | c in s.courses && s.courses[c].status == CourseStatus.Pending)
  }

  /** PATCH /creators/:userId/status. The user's creator status becomes the
      given one, whatever it was; approving also makes the user a creator
      (an admin included), and any other decision leaves the role alone, so
      rejecting an approved creator keeps them a creator. */
  function SetCreatorStatus(s: Store, actor: UserId, user: UserId, status: CreatorStatus): (r: Result<Store>)
    requires actor in s.users
    ensures !IsAdmin(s, actor) ==> r == Err(RoleDenied)
    ensures IsAdmin(s, actor) && user !in s.users ==> r == Err(NotFound("User not found"))
    ensures r.Ok? <==> IsAdmin(s, actor) && user in s.users
    ensures r.Ok? ==>
      && r.value.courses == s.courses && r.value.lessons == s.lessons
      && OtherUsersUnchanged(s, r.value, user)
      && r.value.users[user].creatorStatus == status
      && (status == Approved ==> r.value.users[user].role == Creator)
      && (status != Approved ==> r.value.users[user].role == s.users[user].role)
      && r.value.users[user] == s.users[user].(creatorStatus := status, role := r.value.users[user].role)
  {
    if !IsAdmin(s, actor) then Err(RoleDenied)
    else if user !in s.users then Err(NotFound("User not found"))
    else
      var u := s.users[user];
      var decided := if status == Approved then u.(creatorStatus := status, role := Creator)
                     else u.(creatorStatus := status);
      Ok(s.(users := s.users[user := decided]))
  }

  lemma SetCreatorStatusPreservesValid(s: Store, actor: UserId, user: UserId, status: CreatorStatus)
    requires Valid(s) && actor in s.users && SetCreatorStatus(s, actor, user, status).Ok?
    ensures Valid(SetCreatorStatus(s, actor, user, status).value)
  {
    CreatorDecisionSameShape(s, actor, user, status);
    SameShapeValid(s, SetCreatorStatus(s, actor, user, status).value);
  }

  lemma CreatorDecisionSameShape(s: Store, actor: UserId, user: UserId, status: CreatorStatus)
    requires actor in s.users && SetCreatorStatus(s, actor, user, status).Ok?
    ensures SameShape(s, SetCreatorStatus(s, actor, user, status).value)
  {
  }

  /** A decision other than pending takes the user off the creator queue,
      and leaves the rest of the queue as it was, as seen by any admin who
      is still one after the decision. */
  lemma DecisionLeavesCreatorQueue(s: Store, actor: UserId, user: UserId, status: CreatorStatus, viewer: UserId)
    requires actor in s.users && SetCreatorStatus(s, actor, user, status).Ok?
    requires status != CreatorStatus.Pending
    requires viewer in s.users && IsAdmin(s, viewer) && (viewer != user || status != Approved)
    ensures var s' := SetCreatorStatus(s, actor, user, status).value;
            && IsAdmin(s', viewer)
            && PendingCreators(s', viewer).value == PendingCreators(s, viewer).value - {user}
  {
  }

  /** An admin who approves their own creator status stops being an admin:
      the approval overwrites the role with creator. */
  lemma SelfApprovalRevokesAdmin(s: Store, actor: UserId)
    requires actor in s.users && IsAdmin(s, actor)
    ensures var r := SetCreatorStatus(s, actor, actor, Approved);
            && r.Ok?
            && !IsAdmin(r.value, actor)
            && r.value.users[actor].role == Creator
  {
  }

  /** PATCH /courses/:courseId/status. The course's status becomes the given
      one, from any status; nothing else about the course changes. */
  function SetCourseStatus(s: Store, actor: UserId, course: CourseId, status: CourseStatus): (r: Result<Store>)
    requires actor in s.users
    ensures !IsAdmin(s, actor) ==> r == Err(RoleDenied)
    ensures IsAdmin(s, actor) && course !in s.courses ==> r == Err(NotFound("Course not found"))
    ensures r.Ok? <==> IsAdmin(s, actor) && course in s.courses
    ensures r.Ok? ==>
      && r.value.users == s.users && r.value.lessons == s.lessons
      && OtherCoursesUnchanged(s, r.value, course)
      && r.value.courses[course] == s.courses[course].(status := status)
  {
    if !IsAdmin(s, actor) then Err(RoleDenied)
    else if course !in s.courses then Err(NotFound("Course not found"))
    else Ok(s.(courses := s.courses[course := s.courses[course].(status := status)]))
  }

  lemma SetCourseStatusPreservesValid(s: Store, actor: UserId, course: CourseId, status: CourseStatus)
    requires Valid(s) && actor in s.users && SetCourseStatus(s, actor, course, status).Ok?
    ensures Valid(SetCourseStatus(s, actor, course, status).value)
  {
    CourseDecisionSameShape(s, actor, course, status);
    SameShapeValid(s, SetCourseStatus(s, actor, course, status).value);
  }

  lemma CourseDecisionSameShape(s: Store, actor: UserId, course: CourseId, status: CourseStatus)
    requires actor in s.users && SetCourseStatus(s, actor, course, status).Ok?
    ensures SameShape(s, SetCourseStatus(s, actor, course, status).value)
  {
  }

  /** A decision other than pending takes the course off the review queue,
      and leaves the rest of the queue as it was. */
  lemma DecisionLeavesCourseQueue(s: Store, actor: UserId, course: CourseId, status: CourseStatus)
    requires actor in s.users && SetCourseStatus(s, actor, course, status).Ok?
    requires status != CourseStatus.Pending
    ensures var s' := SetCourseStatus(s, actor, course, status).value;
            PendingCourses(s', actor).value == PendingCourses(s, actor).value - {course}
  {
  }
}
