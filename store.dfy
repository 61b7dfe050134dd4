/** The handlers as they run against the user collection: each loads a
    record, changes its fields and saves it back. The collection is a map
    from id to record that the handlers reassign. */
module Store {
  import opened Wrappers
  import opened Users
  import opened Auth
  import opened Routes
  import Strings

  class UserStore {
    var users: map<UserId, User>

    ghost predicate Valid()
      reads this
    {
      WellFormed(users)
    }

    constructor (initial: map<UserId, User>)
      requires WellFormed(initial)
      ensures Valid() && users == initial
    {
      users := initial;
    }

    /** `PATCH /:id/activate`, past the gates. */
    method Activate(targetId: UserId) returns (resp: Response)
      requires Valid()
      modifies this
      ensures Valid()
      ensures Step(resp, users) == ActivateStep(old(users), targetId)
    {
      if targetId !in users {
        return Refuse(404, "User not found");
      }
      var user := users[targetId];
      if user.status == Active {
        return Refuse(400, "User is already active");
      }
      user := user.(status := Active);
      users := users[targetId := user];
      resp := Response(200, "User activated successfully", OneUser(Project(user)));
    }

    /** `PATCH /:id/deactivate`, past the gates; `caller` is `req.user`. */
    method Deactivate(targetId: UserId, caller: User) returns (resp: Response)
      requires Valid()
      modifies this
      ensures Valid()
      ensures Step(resp, users) == DeactivateStep(old(users), targetId, caller.id)
    {
      if targetId !in users {
        return Refuse(404, "User not found");
      }
      var user := users[targetId];
      if user.status == Inactive {
        return Refuse(400, "User is already inactive");
      }
      if user.id == caller.id {
        return Refuse(400, "You cannot deactivate your own account");
      }
      user := user.(status := Inactive);
      users := users[targetId := user];
      resp := Response(200, "User deactivated successfully", OneUser(Project(user)));
    }

    /** `PATCH /profile`, past the gate: run the body validators and
        sanitizers, build `updateData` field by field, check the e-mail
        against the other records, write. */
    method UpdateProfile(caller: User, checkEmail: EmailCheck, fullName: Option<string>, email: Option<string>)
      returns (resp: Response)
      requires Valid()
      modifies this
      ensures Valid()
      ensures Step(resp, users) == UpdateProfileStep(old(users), caller.id, checkEmail, fullName, email)
    {
      UpdateProfileKeepsWellFormed(users, caller.id, checkEmail, fullName, email);
      var mail := if email.Some? then checkEmail(email.value) else None;
      if !FullNameAccepted(fullName) || (email.Some? && mail.None?) {
        return Refuse(400, "Validation failed");
      }
      assert ProfileBodyValid(checkEmail, fullName, email);
      assert (mail.Some? && mail.value != "") == WrittenEmail(checkEmail, email).Some?;
      var name := if fullName.Some? then Some(Strings.Trim(fullName.value)) else None;
      var update := ProfileUpdate(None, None);
      if name.Some? && name.value != "" {
        update := update.(fullName := name);
      }
      if mail.Some? && mail.value != "" {
        if EmailTakenByOther(users, caller.id, mail.value) {
          return Refuse(400, "Email is already taken by another user");
        }
        update := update.(email := mail);
      }
      if caller.id !in users {
        return Refuse(500, "Server error while updating profile");
      }
      assert update.email == WrittenEmail(checkEmail, email);
      var user := ApplyProfileUpdate(users[caller.id], update);
      users := users[caller.id := user];
      resp := Response(200, "Profile updated successfully", OneUser(Project(user)));
    }

    /** `PATCH /profile/password`, past the gate. */
    method ChangePassword(caller: User, currentPassword: string, newPassword: string)
      returns (resp: Response)
      requires Valid()
      modifies this
      ensures Valid()
      ensures Step(resp, users) == ChangePasswordStep(old(users), caller.id, currentPassword, newPassword)
    {
      if !PasswordBodyValid(currentPassword, newPassword) {
        return Refuse(400, "Validation failed");
      }
      if caller.id !in users {
        return Refuse(500, "Server error while changing password");
      }
      var user := users[caller.id];
      if !ComparePassword(currentPassword, user.password) {
        return Refuse(401, "Current password is incorrect");
      }
      user := user.(password := HashPassword(newPassword));
      users := users[caller.id := user];
      resp := Response(200, "Password changed successfully", NoData);
    }

    /** One request: `authenticate`, then `isAdmin` on the admin routes, then
        the route's handler. */
    method Handle(header: Option<string>, verify: string -> VerifyResult, checkEmail: EmailCheck, req: Request)
      returns (resp: Response)
      requires Valid()
      modifies this
      ensures Valid()
      ensures Step(resp, users) == Dispatch(old(users), header, verify, checkEmail, req)
    {
      var admitted := Authenticate(header, verify, users);
      if admitted.Err? {
        return Refuse(admitted.error.Status(), admitted.error.Message());
      }
      if req.AdminOnly() {
        admitted := IsAdmin(admitted.value);
        if admitted.Err? {
          return Refuse(admitted.error.Status(), admitted.error.Message());
        }
      }
      var caller := admitted.value;
      assert Dispatch(old(users), header, verify, checkEmail, req) == Route(users, caller, checkEmail, req);
      match req
      case ListUsers(page, limit, fetched) =>
        resp := ListResponse(users, page, limit, fetched);
      case GetProfile =>
        resp := Response(200, "", OneUser(Project(caller)));
      case UpdateProfile(fullName, email) =>
        resp := UpdateProfile(caller, checkEmail, fullName, email);
      case ChangePassword(current, next) =>
        resp := ChangePassword(caller, current, next);
      case ActivateUser(target) =>
        resp := Activate(target);
      case DeactivateUser(target) =>
        resp := Deactivate(target, caller);
    }
  }

  // ---------------------------------------------------------------------
  // An end-to-end run: an admin A and a user B, both active.

  function AdminA(): User {
    User("a", "admin@example.com", HashPassword("Admin123456"), "Admin User", Admin, Active)
  }

  function UserB(): User {
    User("b", "user@example.com", HashPassword("User123456"), "Regular User", RegularUser, Active)
  }

  /** The tokens of the run: one for A, one for B; anything else is malformed. */
  function RunTokens(token: string): VerifyResult {
    if token == "tokA" then Verified("a") else if token == "tokB" then Verified("b") else Malformed
  }

  lemma RunHeaders()
    ensures ExtractToken(Some("Bearer tokA")) == "tokA"
    ensures ExtractToken(Some("Bearer tokB")) == "tokB"
  {
    assert "Bearer" + " " + "tokA" + "" == "Bearer tokA";
    assert "Bearer" + " " + "tokB" + "" == "Bearer tokB";
    ExtractBearer("Bearer", "tokA", "");
    ExtractBearer("Bearer", "tokB", "");
  }

  /** The run sends no profile update; every address passes unchanged. */
  function RunEmails(email: string): Option<string> {
    Some(email)
  }

  /** A's token gets A through both gates, whatever the route. */
  lemma AdminAdmitted(users: map<UserId, User>, req: Request)
    requires "a" in users && users["a"] == AdminA()
    ensures Admit(Some("Bearer tokA"), RunTokens, users, req) == Ok(AdminA())
  {
    RunHeaders();
    assert RunTokens("tokA") == Verified("a");
  }

  /** Both states of the run keep the store's guarantees. */
  lemma RunStatesWellFormed()
    ensures WellFormed(map["a" := AdminA(), "b" := UserB()])
    ensures WellFormed(map["a" := AdminA(), "b" := UserB().(status := Inactive)])
  {
  }

  /** Before B is deactivated: A lists the users, B is refused as no admin. */
  lemma RunListing(initial: map<UserId, User>)
    requires initial == map["a" := AdminA(), "b" := UserB()]
    ensures Dispatch(initial, Some("Bearer tokA"), RunTokens, RunEmails, ListUsers(None, None, [])).response.status == 200
    ensures Dispatch(initial, Some("Bearer tokB"), RunTokens, RunEmails, ListUsers(None, None, []))
         == Step(Refuse(403, NotAdmin.Message()), initial)
  {
    RunHeaders();
    assert Authenticate(Some("Bearer tokA"), RunTokens, initial) == Ok(AdminA());
    assert Authenticate(Some("Bearer tokB"), RunTokens, initial) == Ok(UserB());
  }

  /** A deactivates B, and nothing else changes. */
  lemma RunDeactivation(initial: map<UserId, User>)
    requires initial == map["a" := AdminA(), "b" := UserB()]
    ensures Dispatch(initial, Some("Bearer tokA"), RunTokens, RunEmails, DeactivateUser("b")).users
         == initial["b" := UserB().(status := Inactive)]
    ensures Dispatch(initial, Some("Bearer tokA"), RunTokens, RunEmails, DeactivateUser("b")).response.status
         == 200
  {
    AdminAdmitted(initial, DeactivateUser("b"));
    var s := Dispatch(initial, Some("Bearer tokA"), RunTokens, RunEmails, DeactivateUser("b"));
    assert s == DeactivateStep(initial, "b", "a");
    assert "b" in initial && initial["b"] == UserB();
    DeactivateEffect(initial, "b", "a");
    assert s.response.Success();
  }

  /** Once B is inactive, B's token no longer gets through. */
  lemma RunInactiveUser(after: map<UserId, User>)
    requires after == map["a" := AdminA(), "b" := UserB().(status := Inactive)]
    ensures Dispatch(after, Some("Bearer tokB"), RunTokens, RunEmails, GetProfile)
         == Step(Refuse(403, AccountInactive.Message()), after)
  {
    RunHeaders();
    assert Authenticate(Some("Bearer tokB"), RunTokens, after) == Err(AccountInactive);
  }

  /** A cannot deactivate A. */
  lemma RunSelfDeactivation(after: map<UserId, User>)
    requires after == map["a" := AdminA(), "b" := UserB().(status := Inactive)]
    ensures Dispatch(after, Some("Bearer tokA"), RunTokens, RunEmails, DeactivateUser("a"))
         == Step(Refuse(400, "You cannot deactivate your own account"), after)
  {
    RunHeaders();
    RunStatesWellFormed();
    assert Admit(Some("Bearer tokA"), RunTokens, after, DeactivateUser("a")) == Ok(AdminA());
    SelfDeactivationRefused(after, Some("Bearer tokA"), RunTokens, RunEmails, "a");
  }

  /** The run on a store: A may list the users, B may not, a request without
      a token is refused; A deactivates B, after which B's token no longer
      gets through; A cannot deactivate A. */
  method AdminAndUserRun()
    returns (listByAdmin: Response, listByUser: Response, noToken: Response,
             deactivateUser: Response, afterDeactivation: Response, deactivateSelf: Response)
    ensures listByAdmin.status == 200
    ensures deactivateUser.status == 200
    ensures listByUser == Refuse(403, NotAdmin.Message())
    ensures noToken == Refuse(401, MissingToken.Message())
    ensures afterDeactivation == Refuse(403, AccountInactive.Message())
    ensures deactivateSelf == Refuse(400, "You cannot deactivate your own account")
  {
    var initial := map["a" := AdminA(), "b" := UserB()];
    var after := initial["b" := UserB().(status := Inactive)];
    assert after == map["a" := AdminA(), "b" := UserB().(status := Inactive)];
    RunStatesWellFormed();
    RunListing(initial);
    RunDeactivation(initial);
    RunInactiveUser(after);
    RunSelfDeactivation(after);
    var store := new UserStore(initial);
    var asAdmin, asUser := Some("Bearer tokA"), Some("Bearer tokB");
    listByAdmin := store.Handle(asAdmin, RunTokens, RunEmails, ListUsers(None, None, []));
    listByUser := store.Handle(asUser, RunTokens, RunEmails, ListUsers(None, None, []));
    noToken := store.Handle(None, RunTokens, RunEmails, GetProfile);
    deactivateUser := store.Handle(asAdmin, RunTokens, RunEmails, DeactivateUser("b"));
    afterDeactivation := store.Handle(asUser, RunTokens, RunEmails, GetProfile);
    deactivateSelf := store.Handle(asAdmin, RunTokens, RunEmails, DeactivateUser("a"));
  }
}
