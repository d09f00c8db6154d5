/**
  The three Mongoose models (users, courses, lessons) and the store that
  holds them, keyed by id. Saving a new document runs the schema's
  validators and unique indexes; `Saved` reports which of the two refused
  it, and each route decides what answer that becomes.
 */
module Models {
  import opened Outcomes
  import opened Text
  import opened EmailFormat

  type UserId = nat
  type CourseId = nat
  type LessonId = nat

  /** A clock reading, in milliseconds since the epoch. */
  type Time = int

  // ----- User -----

  datatype Role = Learner | Creator | Admin

  /** The `enum` validator of `role`. */
  function ParseRole(s: string): (r: Option<Role>)
    ensures r.Some? <==> s == "learner" || s == "creator" || s == "admin"
    ensures r == Some(Learner) <==> s == "learner"
    ensures r == Some(Creator) <==> s == "creator"
    ensures r == Some(Admin) <==> s == "admin"
  {
    if s == "learner" then Some(Learner)
    else if s == "creator" then Some(Creator)
    else if s == "admin" then Some(Admin)
    else None
  }

  /** `Unset` is the schema's `null` default. */
  datatype CreatorStatus = Unset | Pending | Approved | Rejected

  /** The four submitted fields of a creator application, each possibly
      absent from the request, and the time it was received. */
  datatype Application = Application(
    phone: Option<string>,
    expertise: Option<string>,
    experience: Option<string>,
    motivation: Option<string>,
    appliedAt: Time)

  datatype Certificate = Certificate(courseId: CourseId, serialHash: string, issuedAt: Time)

  /** `password` stands for the stored credential; hashing it is not modelled. */
  datatype User = User(
    name: string,
    email: string,
    password: string,
    role: Role,
    creatorStatus: CreatorStatus,
    creatorApplication: Option<Application>,
    enrolledCourses: seq<CourseId>,
    completedLessons: seq<LessonId>,
    certificates: seq<Certificate>)

  // ----- Course -----

  datatype CourseStatus = Draft | Pending | Published | Rejected

  datatype Course = Course(
    title: string,
    description: string,
    category: Option<string>,
    creator: UserId,
    status: CourseStatus,
    lessons: seq<LessonId>,
    enrolledStudents: seq<UserId>,
    totalLessons: int)

  // ----- Lesson -----

  datatype Lesson = Lesson(
    title: string,
    content: string,
    videoUrl: Option<string>,
    transcript: Option<string>,
    order: int,
    course: CourseId,
    duration: Option<int>)

  // ----- Store -----

  datatype Store = Store(
    users: map<UserId, User>,
    courses: map<CourseId, Course>,
    lessons: map<LessonId, Lesson>)

  const EmptyStore := Store(map[], map[], map[])

  /** `s'` holds the same users as `s`, and all of them but `u` are unchanged. */
  predicate OtherUsersUnchanged(s: Store, s': Store, u: UserId) {
    && s'.users.Keys == s.users.Keys
    && forall v :: v in s.users && v != u ==> s'.users[v] == s.users[v]
  }

  /** `s'` holds the same courses as `s`, and all of them but `c` are unchanged. */
  predicate OtherCoursesUnchanged(s: Store, s': Store, c: CourseId) {
    && s'.courses.Keys == s.courses.Keys
    && forall d :: d in s.courses && d != c ==> s'.courses[d] == s.courses[d]
  }

  /** Outcome of inserting a document: stored, refused by a validator, or
      refused by a unique index (MongoDB error 11000). */
  datatype Saved<+T> = Saved(value: T) | Invalid | DuplicateKey

  predicate EmailTaken(s: Store, email: string) {
    exists v | v in s.users :: s.users[v].email == email
  }

  predicate OrderTaken(s: Store, course: CourseId, order: int) {
    exists l | l in s.lessons :: s.lessons[l].course == course && s.lessons[l].order == order
  }

  /** The user document the schema accepts, after the `trim` setter on the
      name and the `lowercase` setter on the e-mail have run. */
  predicate UserFieldsValid(name: Option<string>, email: Option<string>, password: Option<string>, role: string) {
    && name.Some? && Trim(name.value) != ""
    && Present(email) && EmailRegex(ToLower(email.value))
    && Present(password) && |password.value| >= 6
    && ParseRole(role).Some?
  }

  lemma UserFieldsValidIntro(name: Option<string>, email: Option<string>, password: Option<string>, role: string)
    requires name.Some? && Trim(name.value) != ""
    requires Present(email) && EmailRegex(ToLower(email.value))
    requires Present(password) && |password.value| >= 6
    requires ParseRole(role).Some?
    ensures UserFieldsValid(name, email, password, role)
  {
  }

  /** What a freshly saved user holds: the trimmed name, the lowercased
      e-mail, the submitted password and role, no creator status, no
      application and empty enrolment, completion and certificate lists. */
  predicate NewUser(u: User, name: string, email: string, password: string, role: string) {
    && u.name == Trim(name) && u.email == ToLower(email) && u.password == password
    && Some(u.role) == ParseRole(role)
    && u.creatorStatus == Unset && u.creatorApplication == None
    && u.enrolledCourses == [] && u.completedLessons == [] && u.certificates == []
  }

  /** Saving a new user: validators first, then the unique index on the
      e-mail. A stored user starts with no creator status, no application
      and empty enrolment, completion and certificate lists. */
  function InsertUser(s: Store, id: UserId, name: Option<string>, email: Option<string>,
                      password: Option<string>, role: string): (r: Saved<Store>)
    requires id !in s.users
    ensures r.Invalid? <==> !UserFieldsValid(name, email, password, role)
    ensures r.DuplicateKey? <==> UserFieldsValid(name, email, password, role) && EmailTaken(s, ToLower(email.value))
    ensures r.Saved? ==> r.value.courses == s.courses && r.value.lessons == s.lessons
    ensures r.Saved? ==> r.value.users.Keys == s.users.Keys + {id}
    ensures r.Saved? ==> forall v :: v in s.users ==> r.value.users[v] == s.users[v]
    ensures r.Saved? ==> NewUser(r.value.users[id], name.value, email.value, password.value, role)
  {
    if !UserFieldsValid(name, email, password, role) then Invalid
    else
      var user := User(Trim(name.value), ToLower(email.value), password.value, ParseRole(role).value,
                       Unset, None, [], [], []);
      if EmailTaken(s, user.email) then DuplicateKey
      else Saved(s.(users := s.users[id := user]))
  }

  /** Saving a new course: `title` and `description` are required; status,
      lesson list, student list and lesson count take their defaults. */
  function InsertCourse(s: Store, id: CourseId, title: Option<string>, description: Option<string>,
                        category: Option<string>, creator: UserId): (r: Saved<Store>)
    requires id !in s.courses
    ensures !r.DuplicateKey?
    ensures r.Invalid? <==> !Present(title) || !Present(description)
    ensures r.Saved? ==>
      && r.value.users == s.users && r.value.lessons == s.lessons
      && r.value.courses.Keys == s.courses.Keys + {id}
      && (forall c :: c in s.courses ==> r.value.courses[c] == s.courses[c])
      && var c := r.value.courses[id];
      && c.title == title.value && c.description == description.value && c.category == category
      && c.creator == creator && c.status == Draft
      && c.lessons == [] && c.enrolledStudents == [] && c.totalLessons == 0
  {
    if !Present(title) || !Present(description) then Invalid
    else Saved(s.(courses := s.courses[id := Course(title.value, description.value, category, creator, Draft, [], [], 0)]))
  }

  /** Saving a new lesson: `title`, `content` and `order` are required, and
      the unique index on `(course, order)` refuses a second lesson with the
      same order in the same course. */
  function InsertLesson(s: Store, id: LessonId, title: Option<string>, content: Option<string>,
                        videoUrl: Option<string>, order: Option<int>, course: CourseId,
                        transcript: Option<string>): (r: Saved<Store>)
    requires id !in s.lessons
    ensures r.Invalid? <==> !Present(title) || !Present(content) || order.None?
    ensures r.DuplicateKey? <==> !r.Invalid? && OrderTaken(s, course, order.value)
    ensures r.Saved? ==>
      && r.value.users == s.users && r.value.courses == s.courses
      && r.value.lessons.Keys == s.lessons.Keys + {id}
      && (forall l :: l in s.lessons ==> r.value.lessons[l] == s.lessons[l])
      && r.value.lessons[id] == Lesson(title.value, content.value, videoUrl, transcript, order.value, course, None)
      && (forall l :: l in s.lessons && s.lessons[l].course == course ==> s.lessons[l].order != order.value)
  {
    if !Present(title) || !Present(content) || order.None? then Invalid
    else if OrderTaken(s, course, order.value) then DuplicateKey
    else Saved(s.(lessons := s.lessons[id := Lesson(title.value, content.value, videoUrl, transcript, order.value, course, None)]))
  }
}
