/**
  The start-up step that creates the default admin from the configured
  e-mail and password. The lookup goes through the e-mail path's
  `lowercase` setter, as every query on that path does, so it searches for
  the lowercased address; the admin is created only when nobody holds it,
  and every error is swallowed, so the step always yields a store.
 */
module Bootstrap {
  import opened Outcomes
  import opened Text
  import opened EmailFormat
  import opened Models
  import opened Invariants
  import opened Auth

  /** The configured admin; either setting may be missing. */
  datatype AdminConfig = AdminConfig(email: Option<string>, password: Option<string>)

  /** `User.findOne({ email: adminEmail })` found someone: the query value
      is cast through the path's `lowercase` setter. A missing e-mail is
      treated as found by nobody; the save that follows then fails the
      `required` validator, so the store is unchanged either way. */
  predicate AdminFound(s: Store, config: AdminConfig) {
    config.email.Some? && EmailTaken(s, ToLower(config.email.value))
  }

  /** `createDefaultAdmin()`. When no user holds the lowercased configured
      e-mail, a user named "Admin" with the admin role is saved; a save the
      validators refuse is logged and dropped, leaving the store as it
      was. */
  function CreateDefaultAdmin(s: Store, config: AdminConfig, id: UserId): (r: Store)
    requires id !in s.users
    ensures AdminFound(s, config) ==> r == s
    ensures id in r.users <==>
      !AdminFound(s, config) && InsertUser(s, id, Some("Admin"), config.email, config.password, "admin").Saved?
    ensures id !in r.users ==> r == s
    ensures id in r.users ==>
      && r.courses == s.courses && r.lessons == s.lessons
      && r.users.Keys == s.users.Keys + {id}
      && (forall v :: v in s.users ==> r.users[v] == s.users[v])
      && NewUser(r.users[id], "Admin", config.email.value, config.password.value, "admin")
  {
    if AdminFound(s, config) then s
    else match InsertUser(s, id, Some("Admin"), config.email, config.password, "admin")
      case Saved(s') => s'
      case _ => s
  }

  /** The name the bootstrap saves has no surrounding white space. */
  lemma AdminNameTrimmed()
    ensures Trim("Admin") == "Admin"
  {
    var name := "Admin";
    assert !IsSpace(name[0]);
    assert TrimStart(name) == name;
    assert !IsSpace(name[|name| - 1]);
    assert TrimEnd(name) == name;
  }

  lemma AdminNameNonEmpty()
    ensures Trim("Admin") != ""
  {
    AdminNameTrimmed();
  }

  /** With a usable configuration, and nobody holding the lowercased admin
      e-mail, the bootstrap creates a user named "Admin" with the admin
      role and the lowercased e-mail. */
  lemma BootstrapCreatesAdmin(s: Store, config: AdminConfig, id: UserId)
    requires id !in s.users
    requires Present(config.email) && EmailRegex(ToLower(config.email.value))
    requires Present(config.password) && |config.password.value| >= 6
    requires !EmailTaken(s, ToLower(config.email.value))
    ensures var r := CreateDefaultAdmin(s, config, id);
            && id in r.users && r.users[id].name == "Admin" && r.users[id].role == Admin
            && r.users[id].email == ToLower(config.email.value)
  {
    AdminSaved(s, config, id);
    SavedAdminShape(s, config, id);
  }

  /** When the save succeeds, the new user is the "Admin" admin with the
      lowercased e-mail. */
  lemma SavedAdminShape(s: Store, config: AdminConfig, id: UserId)
    requires id !in s.users && !AdminFound(s, config)
    requires InsertUser(s, id, Some("Admin"), config.email, config.password, "admin").Saved?
    ensures var r := CreateDefaultAdmin(s, config, id);
            && id in r.users && r.users[id].name == "Admin" && r.users[id].role == Admin
            && r.users[id].email == ToLower(config.email.value)
  {
    AdminNameTrimmed();
  }

  /** The admin's fields pass the user validators, so with a free e-mail
      the save succeeds. */
  lemma AdminSaved(s: Store, config: AdminConfig, id: UserId)
    requires id !in s.users
    requires Present(config.email) && EmailRegex(ToLower(config.email.value))
    requires Present(config.password) && |config.password.value| >= 6
    requires !EmailTaken(s, ToLower(config.email.value))
    ensures InsertUser(s, id, Some("Admin"), config.email, config.password, "admin").Saved?
  {
    AdminNameNonEmpty();
    assert ParseRole("admin") == Some(Admin);
    UserFieldsValidIntro(Some("Admin"), config.email, config.password, "admin");
  }

  /** Running the bootstrap a second time changes nothing: either the first
      run created the admin, whose lowercased e-mail the second run then
      finds, or the first run changed nothing and the second fails the same
      way. */
  lemma BootstrapIdempotent(s: Store, config: AdminConfig, id1: UserId, id2: UserId)
    requires id1 !in s.users && id2 !in CreateDefaultAdmin(s, config, id1).users
    ensures CreateDefaultAdmin(CreateDefaultAdmin(s, config, id1), config, id2) ==
            CreateDefaultAdmin(s, config, id1)
  {
    var s1 := CreateDefaultAdmin(s, config, id1);
    if id1 in s1.users {
      assert s1.users[id1].email == ToLower(config.email.value);
      assert AdminFound(s1, config);
    }
  }

  /** The bootstrap keeps every store condition. */
  lemma BootstrapPreservesValid(s: Store, config: AdminConfig, id: UserId)
    requires Valid(s) && id !in s.users
    ensures Valid(CreateDefaultAdmin(s, config, id))
  {
    if !AdminFound(s, config) && InsertUser(s, id, Some("Admin"), config.email, config.password, "admin").Saved? {
      SavedUserAdded(s, id, Some("Admin"), config.email, config.password, "admin");
      UserAddedValid(s, CreateDefaultAdmin(s, config, id), id);
    }
  }
}
