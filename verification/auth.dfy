/**
  Registration and login. Registration saves a user with whatever role the
  request names; login checks that both fields were sent, looks the user up
  by the lowercased e-mail and answers the same way whether the e-mail is
  unknown or the password is wrong. Signing the token is not modelled, and
  the password check is the parameter `passwordOk`.
 */
module Auth {
  import opened Outcomes
  import opened Text
  import opened EmailFormat
  import opened Models
  import opened Invariants

  /** The fields of a registration, as received. */
  datatype Registration = Registration(
    name: Option<string>,
    email: Option<string>,
    password: Option<string>,
    role: Option<string>)

  /** The role a registration asks for: `learner` when the field is absent. */
  function RequestedRole(form: Registration): (role: string)
    ensures form.role.None? ==> role == "learner"
    ensures form.role.Some? ==> role == form.role.value
  {
    if form.role.Some? then form.role.value else "learner"
  }

  /** POST /register. Any of the three roles is accepted, admin included,
      with no application or review. A save refused by a validator or by the
      unique e-mail index answers 500. */
  function Register(s: Store, id: UserId, form: Registration): (r: Result<Store>)
    requires id !in s.users
    ensures r.Ok? <==> UserFieldsValid(form.name, form.email, form.password, RequestedRole(form)) &&
                       !EmailTaken(s, ToLower(form.email.value))
    ensures r.Err? ==> r.error == ServerError
    ensures r.Ok? ==>
      && r.value.courses == s.courses && r.value.lessons == s.lessons
      && r.value.users.Keys == s.users.Keys + {id}
      && (forall v :: v in s.users ==> r.value.users[v] == s.users[v])
      && NewUser(r.value.users[id], form.name.value, form.email.value, form.password.value, RequestedRole(form))
  {
    match InsertUser(s, id, form.name, form.email, form.password, RequestedRole(form))
    case Saved(s') => Ok(s')
    case _ => Err(ServerError)
  }

  /** A registration that names the admin role, with otherwise acceptable
      fields and a fresh e-mail, creates an admin. */
  lemma RegisterGrantsAnyRole(s: Store, id: UserId, form: Registration, role: Role)
    requires id !in s.users
    requires form.role == Some(if role == Learner then "learner" else if role == Creator then "creator" else "admin")
    requires UserFieldsValid(form.name, form.email, form.password, RequestedRole(form))
    requires !EmailTaken(s, ToLower(form.email.value))
    ensures Register(s, id, form).Ok?
    ensures Register(s, id, form).value.users[id].role == role
    ensures Register(s, id, form).value.users[id].creatorStatus == Unset
  {
  }

  /** `s'` is `s` with one more user, `id`, who passed the schema's
      validators and holds no enrolments and no completions. */
  predicate UserAdded(s: Store, s': Store, id: UserId) {
    && UsersExtended(s, s', id)
    && UserOk(s'.users[id])
    && !EmailTaken(s, s'.users[id].email)
  }

  /** The shape of `UserAdded`, without the field conditions. */
  predicate UsersExtended(s: Store, s': Store, id: UserId) {
    && id !in s.users
    && s'.courses == s.courses && s'.lessons == s.lessons
    && s'.users.Keys == s.users.Keys + {id}
    && (forall v :: v in s.users ==> s'.users[v] == s.users[v])
    && s'.users[id].enrolledCourses == [] && s'.users[id].completedLessons == []
  }

  /** Saving a new user keeps every store condition. */
  lemma UserAddedValid(s: Store, s': Store, id: UserId)
    requires Valid(s) && UserAdded(s, s', id)
    ensures Valid(s')
  {
    UserAddedMirrored(s, s', id);
    UserAddedLinked(s, s', id);
    UserAddedFields(s, s', id);
  }

  lemma UserAddedMirrored(s: Store, s': Store, id: UserId)
    requires EnrollmentMirrored(s) && EnrollmentDistinct(s) && UsersExtended(s, s', id)
    ensures EnrollmentMirrored(s') && EnrollmentDistinct(s')
  {
    assert EnrollmentListsKept(s, s');
    EnrollmentKept(s, s');
  }

  lemma UserAddedLinked(s: Store, s': Store, id: UserId)
    requires LessonsLinked(s) && ReferencesKnown(s) && LessonListsDistinct(s) && CountsAccurate(s)
    requires UsersExtended(s, s', id)
    ensures LessonsLinked(s') && ReferencesKnown(s') && LessonListsDistinct(s') && CountsAccurate(s')
  {
    forall u, l | u in s'.users && l in s'.users[u].completedLessons
      ensures l in s'.lessons
    {
      assert u in s.users && s'.users[u] == s.users[u];
    }
    forall u | u in s'.users
      ensures NoDup(s'.users[u].completedLessons)
    {
      if u != id {
        assert s'.users[u] == s.users[u];
      }
    }
  }

  lemma UserAddedFields(s: Store, s': Store, id: UserId)
    requires OrdersUnique(s) && EmailsUnique(s) && FieldsValid(s) && UserAdded(s, s', id)
    ensures OrdersUnique(s') && EmailsUnique(s') && FieldsValid(s')
  {
    forall u1, u2 | u1 in s'.users && u2 in s'.users && u1 != u2
      ensures s'.users[u1].email != s'.users[u2].email
    {
      if u1 == id {
        assert s'.users[u2].email == s.users[u2].email;
      } else if u2 == id {
        assert s'.users[u1].email == s.users[u1].email;
      }
    }
    forall u | u in s'.users
      ensures UserOk(s'.users[u])
    {
      if u != id {
        assert UserOk(s.users[u]);
      }
    }
  }

  /** A user the schema accepts satisfies the store's field conditions. */
  lemma SavedUserAdded(s: Store, id: UserId, name: Option<string>, email: Option<string>,
                       password: Option<string>, role: string)
    requires id !in s.users && InsertUser(s, id, name, email, password, role).Saved?
    ensures UserAdded(s, InsertUser(s, id, name, email, password, role).value, id)
  {
    var s' := InsertUser(s, id, name, email, password, role).value;
    assert s'.users[id].email == ToLower(email.value);
  }

  lemma RegisterPreservesValid(s: Store, id: UserId, form: Registration)
    requires Valid(s) && id !in s.users && Register(s, id, form).Ok?
    ensures Valid(Register(s, id, form).value)
  {
    SavedUserAdded(s, id, form.name, form.email, form.password, RequestedRole(form));
    UserAddedValid(s, Register(s, id, form).value, id);
  }

  /** `m` is the least element of `xs`. */
  predicate IsLeast(m: nat, xs: set<nat>) {
    m in xs && forall x :: x in xs ==> m <= x
  }

  /** The least element of a non-empty set of ids. */
  function Least(xs: set<nat>): (m: nat)
    requires xs != {}
    ensures m in xs && forall x :: x in xs ==> m <= x
  {
    LeastExists(xs);
    var m :| IsLeast(m, xs);
    m
  }

  lemma {:induction false} LeastExists(xs: set<nat>)
    requires xs != {}
    ensures exists m :: IsLeast(m, xs)
    decreases |xs|
  {
    var y :| y in xs;
    if forall x :: x in xs ==> y <= x {
      assert IsLeast(y, xs);
    } else {
      var z :| z in xs && z < y;
      var rest := xs - {y};
      assert z in rest;
      LeastExists(rest);
      var m :| IsLeast(m, rest);
      forall x | x in xs
        ensures m <= x
      {
        if x != y {
          assert x in rest;
        } else {
          assert m <= z;
        }
      }
      assert IsLeast(m, xs);
    }
  }

  /** The users holding exactly this e-mail. */
  function Holders(s: Store, email: string): set<UserId> {
    set v | v in s.users && s.users[v].email == email
  }

  /** `User.findOne({ email })`: a user holding exactly this e-mail. The
      unique index makes it the only one; without it the least id is
      taken. */
  function FindByEmail(s: Store, email: string): (r: Option<UserId>)
    ensures r.Some? <==> EmailTaken(s, email)
    ensures r.Some? ==> r.value in s.users && s.users[r.value].email == email
    ensures EmailsUnique(s) && r.Some? ==> forall v :: v in s.users && s.users[v].email == email ==> v == r.value
  {
    if EmailTaken(s, email) then
      HoldersNonEmpty(s, email);
      Some(Least(Holders(s, email)))
    else None
  }

  lemma HoldersNonEmpty(s: Store, email: string)
    requires EmailTaken(s, email)
    ensures Holders(s, email) != {}
  {
    var w :| w in s.users && s.users[w].email == email;
    assert w in Holders(s, email);
  }

  /** POST /login. Both fields must be present and non-empty. The e-mail is
      lowercased before the lookup; an unknown e-mail and a wrong password
      give the same answer. On success the user's id is returned; the store
      is never written. */
  function Login(s: Store, email: Option<string>, password: Option<string>,
                 passwordOk: (User, string) -> bool): (r: Result<UserId>)
    ensures !Present(email) || !Present(password) <==> r == Err(BadRequest("Email and password are required"))
    ensures r.Ok? ==>
      && Present(email) && Present(password)
      && r.value in s.users
      && s.users[r.value].email == ToLower(email.value)
      && passwordOk(s.users[r.value], password.value)
    ensures Present(email) && Present(password) && !EmailTaken(s, ToLower(email.value)) ==>
              r == Err(BadRequest("Invalid credentials"))
    ensures r.Err? ==> r.error.BadRequest?
  {
    if !Present(email) || !Present(password) then Err(BadRequest("Email and password are required"))
    else match FindByEmail(s, ToLower(email.value))
      case None => Err(BadRequest("Invalid credentials"))
      case Some(id) =>
        if passwordOk(s.users[id], password.value) then Ok(id)
        else Err(BadRequest("Invalid credentials"))
  }

  /** In a store with unique e-mails, login succeeds exactly for the owner
      of the lowercased e-mail with an accepted password, and every other
      attempt with both fields present gets the one answer "Invalid
      credentials", whichever of the two checks failed. */
  lemma LoginCharacterised(s: Store, email: string, password: string, passwordOk: (User, string) -> bool)
    requires EmailsUnique(s) && email != "" && password != ""
    ensures var r := Login(s, Some(email), Some(password), passwordOk);
            && (r.Ok? <==> exists u :: u in s.users && s.users[u].email == ToLower(email) &&
                                        passwordOk(s.users[u], password))
            && (r.Err? ==> r == Err(BadRequest("Invalid credentials")))
  {
    var r := Login(s, Some(email), Some(password), passwordOk);
    if u :| u in s.users && s.users[u].email == ToLower(email) && passwordOk(s.users[u], password) {
      assert EmailTaken(s, ToLower(email));
      assert FindByEmail(s, ToLower(email)) == Some(u);
    }
  }

  /** Registering and then logging in with the same e-mail, in any letter
      case, and a password `passwordOk` accepts for the new user returns the new
      user's id. */
  lemma RegisterThenLogin(s: Store, id: UserId, form: Registration, email: string,
                          passwordOk: (User, string) -> bool)
    requires id !in s.users && Register(s, id, form).Ok?
    requires ToLower(email) == ToLower(form.email.value)
    requires passwordOk(Register(s, id, form).value.users[id], form.password.value)
    ensures Login(Register(s, id, form).value, Some(email), form.password, passwordOk) == Ok(id)
  {
    var s' := Register(s, id, form).value;
    assert email != [] by {
      assert |ToLower(email)| == |email|;
      assert ToLower(form.email.value) != [];
    }
    RegisteredFound(s, id, form);
  }

  /** The new user is the only holder of their e-mail. */
  lemma RegisteredFound(s: Store, id: UserId, form: Registration)
    requires id !in s.users && Register(s, id, form).Ok?
    ensures var s' := Register(s, id, form).value;
            FindByEmail(s', s'.users[id].email) == Some(id)
  {
    var s' := Register(s, id, form).value;
    var e := s'.users[id].email;
    assert EmailTaken(s', e);
  }
}
