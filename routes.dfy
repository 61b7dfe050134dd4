/** The `/api/users` routes: every route runs behind `authenticate`; the list,
    activate and deactivate routes also run behind `isAdmin`. Each handler is
    a step from the store's records before the request to the response and
    the records after it. */
module Routes {
  import opened Wrappers
  import opened Users
  import opened Auth
  import Strings

  // ---------------------------------------------------------------------
  // Responses

  /** The pagination block of the list response. */
  datatype Pagination = Pagination(
    currentPage: int,
    totalPages: int,
    totalUsers: nat,
    usersPerPage: int,
    hasNextPage: bool,
    hasPrevPage: bool)

  /** The `data` of a response, when it has one. */
  datatype Payload =
    | NoData
    | OneUser(user: PublicUser)
    | UserPage(users: seq<PublicUser>, pagination: Pagination)

  /** A JSON response: its status code, its `message` ("" when the body has
      none) and its `data`. Every handler sends `success: true` exactly with
      status 200. */
  datatype Response = Response(status: int, message: string, data: Payload) {
    predicate Success() { status == 200 }
  }

  /** The records a request leaves behind, with the response it gets. */
  datatype Step = Step(response: Response, users: map<UserId, User>)

  function Refuse(status: int, message: string): Response {
    Response(status, message, NoData)
  }

  // ---------------------------------------------------------------------
  // GET / : pagination arithmetic and projection

  /** `parseInt(param) || fallback`: a parse that gives NaN (`None`) or 0 is
      falsy and yields the fallback; any other integer, negative ones
      included, is kept. */
  function OrDefault(parsed: Option<int>, fallback: int): (n: int)
    ensures parsed.Some? && parsed.value != 0 ==> n == parsed.value
    ensures parsed.None? || parsed.value == 0 ==> n == fallback
  {
    if parsed.Some? && parsed.value != 0 then parsed.value else fallback
  }

  /** `(page - 1) * limit`: how many records the query skips. */
  function Skip(page: int, limit: int): int {
    (page - 1) * limit
  }

  /** `Math.ceil(total / limit)`: the least integer at or above the quotient. */
  function CeilDiv(total: nat, limit: int): (pages: int)
    requires limit != 0
    ensures limit > 0 ==> (pages - 1) * limit < total <= pages * limit
    ensures limit < 0 ==> pages * limit <= total < (pages - 1) * limit
  {
    if limit > 0 then
      var q := (total + limit - 1) / limit;
      var r := (total + limit - 1) % limit;
      assert total + limit - 1 == q * limit + r && 0 <= r < limit;
      assert (q - 1) * limit == q * limit - limit;
      q
    else
      var q := total / -limit;
      var r := total % -limit;
      assert total == q * -limit + r && 0 <= r < -limit;
      assert -q * limit == q * -limit;
      assert (-q - 1) * limit == -q * limit - limit;
      -q
  }

  /** The pagination block for the `page` and `limit` query parameters (as
      parsed) and the number of records in the store. */
  function Paginate(pageParam: Option<int>, limitParam: Option<int>, total: nat): (p: Pagination)
    ensures p.currentPage == OrDefault(pageParam, 1) && p.usersPerPage == OrDefault(limitParam, 10)
    ensures p.currentPage != 0 && p.usersPerPage != 0 && p.totalUsers == total
    ensures p.usersPerPage > 0 ==>
      (p.totalPages - 1) * p.usersPerPage < total <= p.totalPages * p.usersPerPage
    ensures p.usersPerPage < 0 ==>
      p.totalPages * p.usersPerPage <= total < (p.totalPages - 1) * p.usersPerPage && p.totalPages <= 0
    ensures p.hasNextPage <==> p.currentPage < p.totalPages
    ensures p.hasPrevPage <==> p.currentPage > 1
  {
    var page := OrDefault(pageParam, 1);
    var limit := OrDefault(limitParam, 10);
    var totalPages := CeilDiv(total, limit);
    Pagination(page, totalPages, total, limit, page < totalPages, page > 1)
  }

  /** With a positive limit and a page from 1 on, "there is a next page" means
      that records remain beyond this page's window, and "there is a previous
      page" means that the window skips some records. */
  lemma PageWindow(pageParam: Option<int>, limitParam: Option<int>, total: nat)
    requires Paginate(pageParam, limitParam, total).currentPage >= 1
    requires Paginate(pageParam, limitParam, total).usersPerPage > 0
    ensures var p := Paginate(pageParam, limitParam, total);
      && (p.hasNextPage <==> Skip(p.currentPage, p.usersPerPage) + p.usersPerPage < total)
      && (p.hasPrevPage <==> Skip(p.currentPage, p.usersPerPage) > 0)
  {
    var p := Paginate(pageParam, limitParam, total);
    var page, limit, pages := p.currentPage, p.usersPerPage, p.totalPages;
    assert Skip(page, limit) + limit == page * limit;
    if page < pages {
      MultiplyMonotone(page, pages - 1, limit);
    } else {
      MultiplyMonotone(pages, page, limit);
    }
    if page > 1 {
      MultiplyMonotone(1, page - 1, limit);
    }
  }

  lemma MultiplyMonotone(a: int, b: int, c: int)
    requires a <= b && c > 0
    ensures a * c <= b * c
  {
    assert b * c - a * c == (b - a) * c;
  }

  /** `users.map(user => ({ id: user._id.toString(), ... }))`: one entry per
      fetched record, in the same order, with no password. */
  function ListEntries(fetched: seq<User>): (entries: seq<PublicUser>)
    ensures |entries| == |fetched|
    ensures forall i :: 0 <= i < |fetched| ==> entries[i] == Project(fetched[i])
  {
    seq(|fetched|, i requires 0 <= i < |fetched| => Project(fetched[i]))
  }

  /** `GET /`: `fetched` stands for the records the database returns for the
      sorted, skipped and limited query; the count is the number of stored
      records. */
  function ListResponse(users: map<UserId, User>, pageParam: Option<int>, limitParam: Option<int>,
                        fetched: seq<User>): Response
  {
    Response(200, "", UserPage(ListEntries(fetched), Paginate(pageParam, limitParam, |users|)))
  }

  // ---------------------------------------------------------------------
  // PATCH /:id/activate and PATCH /:id/deactivate

  function ActivateStep(users: map<UserId, User>, targetId: UserId): Step {
    if targetId !in users then Step(Refuse(404, "User not found"), users)
    else if users[targetId].status == Active then Step(Refuse(400, "User is already active"), users)
    else
      var user := users[targetId].(status := Active);
      Step(Response(200, "User activated successfully", OneUser(Project(user))), users[targetId := user])
  }

  function DeactivateStep(users: map<UserId, User>, targetId: UserId, callerId: UserId): Step {
    if targetId !in users then Step(Refuse(404, "User not found"), users)
    else if users[targetId].status == Inactive then Step(Refuse(400, "User is already inactive"), users)
    else if targetId == callerId then Step(Refuse(400, "You cannot deactivate your own account"), users)
    else
      var user := users[targetId].(status := Inactive);
      Step(Response(200, "User deactivated successfully", OneUser(Project(user))), users[targetId := user])
  }

  /** Activation writes exactly when the target exists and is inactive; it
      then sets `status` to active and touches nothing else. Afterwards an
      existing target is active either way. */
  lemma ActivateEffect(users: map<UserId, User>, targetId: UserId)
    ensures var s := ActivateStep(users, targetId);
      && (targetId !in users ==> s.response.status == 404)
      && (s.response.Success() <==> targetId in users && users[targetId].status == Inactive)
      && (!s.response.Success() ==> s.users == users)
      && (s.response.Success() ==>
            s.users == users[targetId := users[targetId].(status := Active)]
            && s.response.data == OneUser(Project(s.users[targetId])))
      && (targetId in users ==> s.users[targetId].status == Active)
  {
  }

  /** Deactivation writes exactly when the target exists, is active and is
      not the caller; it then sets `status` to inactive and touches nothing
      else. */
  lemma DeactivateEffect(users: map<UserId, User>, targetId: UserId, callerId: UserId)
    ensures var s := DeactivateStep(users, targetId, callerId);
      && (targetId !in users ==> s.response.status == 404)
      && (targetId in users && users[targetId].status == Inactive ==>
            s.response == Refuse(400, "User is already inactive"))
      && (s.response.Success() <==>
            targetId in users && users[targetId].status == Active && targetId != callerId)
      && (!s.response.Success() ==> s.users == users)
      && (s.response.Success() ==>
            s.users == users[targetId := users[targetId].(status := Inactive)]
            && s.response.data == OneUser(Project(s.users[targetId])))
  {
  }

  /** "Already in that state" is reported, not applied: a second activation
      of the same account is refused with 400 and writes nothing. */
  lemma ActivateTwiceConflicts(users: map<UserId, User>, targetId: UserId)
    requires targetId in users
    ensures var again := ActivateStep(ActivateStep(users, targetId).users, targetId);
      again.response == Refuse(400, "User is already active")
      && again.users == ActivateStep(users, targetId).users
  {
  }

  /** Deactivation and activation undo each other: after a successful
      deactivation, activating the same account restores every record. */
  lemma DeactivateThenActivate(users: map<UserId, User>, targetId: UserId, callerId: UserId)
    requires DeactivateStep(users, targetId, callerId).response.Success()
    ensures var s := ActivateStep(DeactivateStep(users, targetId, callerId).users, targetId);
      s.response.Success() && s.users == users
  {
    var u := users[targetId];
    assert u.status == Active;
    assert u.(status := Inactive).(status := Active) == u;
    assert users[targetId := u] == users;
  }

  // ---------------------------------------------------------------------
  // PATCH /profile

  /** `body('fullName').optional().trim().isLength({ min: 2 })`: the library
      counts the trimmed name without variation selectors, one per character. */
  predicate FullNameAccepted(fullName: Option<string>) {
    fullName.None? || Strings.IsLengthCount(Strings.Trim(fullName.value)) >= 2
  }

  /** `body('email').optional().isEmail().normalizeEmail()`, from the
      validation library: `None` when `isEmail` refuses the address, otherwise
      the address `normalizeEmail` makes of it. */
  type EmailCheck = string -> Option<string>

  /** The body validators of `PATCH /profile` both pass. */
  predicate ProfileBodyValid(checkEmail: EmailCheck, fullName: Option<string>, email: Option<string>) {
    FullNameAccepted(fullName) && (email.None? || checkEmail(email.value).Some?)
  }

  /** `User.findOne({ email, _id: { $ne: req.user._id } })` finds a record. */
  predicate EmailTakenByOther(users: map<UserId, User>, callerId: UserId, email: string) {
    exists id :: id in users && id != callerId && users[id].email == email
  }

  /** The `updateData` object: the fields that will be written. */
  datatype ProfileUpdate = ProfileUpdate(fullName: Option<string>, email: Option<string>)

  /** A field given in the body goes into `updateData` only when truthy. */
  function Truthy(value: Option<string>): Option<string> {
    if value.Some? && value.value != "" then value else None
  }

  /** `findByIdAndUpdate(id, updateData)`: the given fields replace the
      stored ones. */
  function ApplyProfileUpdate(user: User, update: ProfileUpdate): User {
    user.(fullName := if update.fullName.Some? then update.fullName.value else user.fullName,
          email := if update.email.Some? then update.email.value else user.email)
  }

  /** The address `if (email)` sees once the sanitizer has run: the
      normalized address, when one was given and it is truthy. */
  function WrittenEmail(checkEmail: EmailCheck, email: Option<string>): Option<string> {
    if email.Some? then Truthy(checkEmail(email.value)) else None
  }

  /** `PATCH /profile`. The name is the one the validator's `trim()` leaves,
      and the e-mail the one `normalizeEmail()` leaves. */
  function UpdateProfileStep(users: map<UserId, User>, callerId: UserId, checkEmail: EmailCheck,
                             fullName: Option<string>, email: Option<string>): Step
  {
    if !ProfileBodyValid(checkEmail, fullName, email) then Step(Refuse(400, "Validation failed"), users)
    else
      var name := if fullName.Some? then Some(Strings.Trim(fullName.value)) else None;
      var mail := WrittenEmail(checkEmail, email);
      if mail.Some? && EmailTakenByOther(users, callerId, mail.value) then
        Step(Refuse(400, "Email is already taken by another user"), users)
      else if callerId !in users then
        Step(Refuse(500, "Server error while updating profile"), users)
      else
        var user := ApplyProfileUpdate(users[callerId], ProfileUpdate(Truthy(name), mail));
        Step(Response(200, "Profile updated successfully", OneUser(Project(user))), users[callerId := user])
  }

  /** An address `isEmail` refuses gets 400 "Validation failed". Otherwise
      the uniqueness check decides: the normalized address held by another
      record gets 400 and nothing is written, and one no other record holds
      lets an accepted update through. The caller's own address is never a
      conflict. */
  lemma EmailConflict(users: map<UserId, User>, callerId: UserId, checkEmail: EmailCheck,
                      fullName: Option<string>, email: string)
    requires WellFormed(users) && callerId in users
    ensures var s := UpdateProfileStep(users, callerId, checkEmail, fullName, Some(email));
      var mail := checkEmail(email);
      && (!s.response.Success() ==> s.users == users)
      && (mail.None? ==> s.response == Refuse(400, "Validation failed"))
      && (FullNameAccepted(fullName) && mail.Some? && mail.value != ""
          && EmailTakenByOther(users, callerId, mail.value) ==>
            s.response == Refuse(400, "Email is already taken by another user"))
      && (FullNameAccepted(fullName) && mail.Some?
          && (mail.value == "" || !EmailTakenByOther(users, callerId, mail.value)) ==>
            s.response.Success())
      && (mail == Some(users[callerId].email) ==> !EmailTakenByOther(users, callerId, mail.value))
  {
    var mail := checkEmail(email);
    assert ProfileBodyValid(checkEmail, fullName, Some(email)) <==> FullNameAccepted(fullName) && mail.Some?;
    assert WrittenEmail(checkEmail, Some(email)) == Truthy(mail);
  }

  /** A successful update writes only the caller's record, and in it only
      the name (trimmed) and the e-mail that were supplied and truthy;
      omitted fields, the password, role and status stay as they were. */
  lemma UpdateProfileWritesOnlySupplied(users: map<UserId, User>, callerId: UserId, checkEmail: EmailCheck,
                                        fullName: Option<string>, email: Option<string>)
    requires UpdateProfileStep(users, callerId, checkEmail, fullName, email).response.Success()
    ensures var s := UpdateProfileStep(users, callerId, checkEmail, fullName, email);
      var before, after := users[callerId], s.users[callerId];
      && s.users.Keys == users.Keys
      && (forall id :: id in users && id != callerId ==> s.users[id] == users[id])
      && after.id == before.id && after.password == before.password
      && after.role == before.role && after.status == before.status
      && after.fullName == (if fullName.Some? then Strings.Trim(fullName.value) else before.fullName)
      && after.email == (if WrittenEmail(checkEmail, email).Some? then WrittenEmail(checkEmail, email).value
                         else before.email)
      && (email.Some? ==> checkEmail(email.value).Some?)
      && s.response.data == OneUser(Project(after))
  {
    var name := if fullName.Some? then Some(Strings.Trim(fullName.value)) else None;
    var update := ProfileUpdate(Truthy(name), WrittenEmail(checkEmail, email));
    var after := ApplyProfileUpdate(users[callerId], update);
    assert callerId in users && ProfileBodyValid(checkEmail, fullName, email);
    assert UpdateProfileStep(users, callerId, checkEmail, fullName, email).users == users[callerId := after];
    assert fullName.Some? ==> Truthy(name) == name;
  }

  /** Writing back a record whose e-mail no other record holds keeps the
      store's guarantees. */
  lemma WriteKeepsWellFormed(users: map<UserId, User>, callerId: UserId, user: User)
    requires WellFormed(users) && callerId in users && user.id == callerId
    requires forall id :: id in users && id != callerId ==> users[id].email != user.email
    ensures WellFormed(users[callerId := user])
  {
  }

  /** The update keeps the store's guarantees: no two records end up sharing
      an e-mail address, because the new address is owned by no one else. */
  lemma UpdateProfileKeepsWellFormed(users: map<UserId, User>, callerId: UserId, checkEmail: EmailCheck,
                                     fullName: Option<string>, email: Option<string>)
    requires WellFormed(users)
    ensures WellFormed(UpdateProfileStep(users, callerId, checkEmail, fullName, email).users)
  {
    var s := UpdateProfileStep(users, callerId, checkEmail, fullName, email);
    if s.response.Success() {
      var name := if fullName.Some? then Some(Strings.Trim(fullName.value)) else None;
      var mail := WrittenEmail(checkEmail, email);
      var user := ApplyProfileUpdate(users[callerId], ProfileUpdate(Truthy(name), mail));
      assert s.users == users[callerId := user];
      assert mail.Some? ==> !EmailTakenByOther(users, callerId, mail.value);
      WriteKeepsWellFormed(users, callerId, user);
    }
  }

  // ---------------------------------------------------------------------
  // PATCH /profile/password

  /** `body('newPassword').isLength({ min: 6 }).matches(/^(?=.*[a-z])(?=.*[A-Z])(?=.*\d)/)`. */
  predicate NewPasswordAccepted(password: string) {
    Strings.IsLengthCount(password) >= 6 && Strings.MatchesStrengthPattern(password)
  }

  /** The body validators of `PATCH /profile/password`: `currentPassword`
      must be non-empty and `newPassword` must meet the policy. */
  predicate PasswordBodyValid(currentPassword: string, newPassword: string) {
    currentPassword != "" && NewPasswordAccepted(newPassword)
  }

  /** `PATCH /profile/password`: validate, load the caller, check the
      current password, then store the new one. */
  function ChangePasswordStep(users: map<UserId, User>, callerId: UserId,
                              currentPassword: string, newPassword: string): Step
  {
    if !PasswordBodyValid(currentPassword, newPassword) then Step(Refuse(400, "Validation failed"), users)
    else if callerId !in users then Step(Refuse(500, "Server error while changing password"), users)
    else if !ComparePassword(currentPassword, users[callerId].password) then
      Step(Refuse(401, "Current password is incorrect"), users)
    else
      var user := users[callerId].(password := HashPassword(newPassword));
      Step(Response(200, "Password changed successfully", NoData), users[callerId := user])
  }

  /** A body that fails validation gets 400 before the store is read: the
      answer is the same whatever the store holds, and nothing is written. */
  lemma WeakPasswordReadsNoStore(users: map<UserId, User>, other: map<UserId, User>, callerId: UserId,
                                 currentPassword: string, newPassword: string)
    requires !PasswordBodyValid(currentPassword, newPassword)
    ensures ChangePasswordStep(users, callerId, currentPassword, newPassword).response
         == ChangePasswordStep(other, callerId, currentPassword, newPassword).response
         == Refuse(400, "Validation failed")
    ensures ChangePasswordStep(users, callerId, currentPassword, newPassword).users == users
  {
  }

  /** A wrong current password gets 401 and the stored hash stays; a right
      one with a valid new password replaces only the hash, after which the
      new password verifies and the old one (if different) no longer does. */
  lemma ChangePasswordEffect(users: map<UserId, User>, callerId: UserId,
                             currentPassword: string, newPassword: string)
    requires callerId in users && PasswordBodyValid(currentPassword, newPassword)
    ensures var s := ChangePasswordStep(users, callerId, currentPassword, newPassword);
      && (!ComparePassword(currentPassword, users[callerId].password) ==>
            s.response.status == 401 && s.users == users)
      && (ComparePassword(currentPassword, users[callerId].password) ==>
            && s.response.Success()
            && s.users == users[callerId := users[callerId].(password := s.users[callerId].password)]
            && ComparePassword(newPassword, s.users[callerId].password)
            && (currentPassword != newPassword ==>
                  !ComparePassword(currentPassword, s.users[callerId].password)))
  {
    var s := ChangePasswordStep(users, callerId, currentPassword, newPassword);
    if ComparePassword(currentPassword, users[callerId].password) {
      CompareAgainstHash(newPassword, currentPassword);
    }
  }

  // ---------------------------------------------------------------------
  // The router: authenticate, then isAdmin where the route asks for it

  datatype Request =
    | ListUsers(page: Option<int>, limit: Option<int>, fetched: seq<User>)
    | GetProfile
    | UpdateProfile(fullName: Option<string>, email: Option<string>)
    | ChangePassword(currentPassword: string, newPassword: string)
    | ActivateUser(targetId: UserId)
    | DeactivateUser(targetId: UserId)
  {
    /** The routes registered with `isAdmin`. */
    predicate AdminOnly() {
      ListUsers? || ActivateUser? || DeactivateUser?
    }
  }

  /** `router.use(authenticate)` and, on the admin routes, `isAdmin`. */
  function Admit(header: Option<string>, verify: string -> VerifyResult,
                 users: map<UserId, User>, req: Request): (r: Result<User, AuthError>)
    ensures r.Ok? ==> r == Authenticate(header, verify, users)
    ensures r.Ok? <==> Authenticate(header, verify, users).Ok?
                       && (req.AdminOnly() ==> Authenticate(header, verify, users).value.role == Admin)
    ensures Authenticate(header, verify, users).Err? ==> r == Authenticate(header, verify, users)
    ensures (Authenticate(header, verify, users).Ok? && req.AdminOnly()
             && Authenticate(header, verify, users).value.role != Admin) ==> r == Err(NotAdmin)
  {
    match Authenticate(header, verify, users)
    case Err(e) => Err(e)
    case Ok(principal) => if req.AdminOnly() then IsAdmin(principal) else Ok(principal)
  }

  /** The handler of the route `req` names, for a caller the gates let in. */
  function Route(users: map<UserId, User>, caller: User, checkEmail: EmailCheck, req: Request): Step {
    match req
    case ListUsers(page, limit, fetched) => Step(ListResponse(users, page, limit, fetched), users)
    case GetProfile => Step(Response(200, "", OneUser(Project(caller))), users)
    case UpdateProfile(fullName, email) => UpdateProfileStep(users, caller.id, checkEmail, fullName, email)
    case ChangePassword(current, next) => ChangePasswordStep(users, caller.id, current, next)
    case ActivateUser(target) => ActivateStep(users, target)
    case DeactivateUser(target) => DeactivateStep(users, target, caller.id)
  }

  /** One request through the router. */
  function Dispatch(users: map<UserId, User>, header: Option<string>,
                    verify: string -> VerifyResult, checkEmail: EmailCheck, req: Request): Step
  {
    match Admit(header, verify, users, req)
    case Err(e) => Step(Refuse(e.Status(), e.Message()), users)
    case Ok(caller) => Route(users, caller, checkEmail, req)
  }

  /** A request the gates turn away writes nothing and gets the gate's
      answer: `authenticate`'s own error when it refuses, and `isAdmin`'s
      403 when an authenticated caller who is not an admin asks for an
      admin route. */
  lemma GateFailureWritesNothing(users: map<UserId, User>, header: Option<string>,
                                 verify: string -> VerifyResult, checkEmail: EmailCheck, req: Request)
    requires Admit(header, verify, users, req).Err?
    ensures var s := Dispatch(users, header, verify, checkEmail, req);
      var auth := Authenticate(header, verify, users);
      && s.users == users && !s.response.Success()
      && (auth.Err? ==> s.response == Refuse(auth.error.Status(), auth.error.Message()))
      && (auth.Ok? ==> s.response == Refuse(403, "Access denied. Admin privileges required."))
  {
    var e := Admit(header, verify, users, req).error;
    assert e.Status() != 200;
  }

  /** A caller whose role is not admin gets 403 on the list, activate and
      deactivate routes, and nothing is written. */
  lemma NonAdminRefused(users: map<UserId, User>, header: Option<string>,
                        verify: string -> VerifyResult, checkEmail: EmailCheck, req: Request)
    requires req.AdminOnly()
    requires Authenticate(header, verify, users).Ok?
    requires Authenticate(header, verify, users).value.role != Admin
    ensures Dispatch(users, header, verify, checkEmail, req) == Step(Refuse(403, NotAdmin.Message()), users)
  {
  }

  /** An inactive account is refused with 403 on every route, although its
      token verifies: the status is read from the store on each request. */
  lemma InactiveCallerRefusedEverywhere(users: map<UserId, User>, header: Option<string>,
                                        verify: string -> VerifyResult, checkEmail: EmailCheck, req: Request)
    requires ExtractToken(header) != "" && verify(ExtractToken(header)).Verified?
    requires verify(ExtractToken(header)).id in users
    requires users[verify(ExtractToken(header)).id].status == Inactive
    ensures Dispatch(users, header, verify, checkEmail, req) == Step(Refuse(403, AccountInactive.Message()), users)
  {
    InactiveAccountRejected(header, verify, users, verify(ExtractToken(header)).id);
  }

  /** An admin can never deactivate their own account: the gate only admits
      active callers, so the "already inactive" check passes and the self
      check refuses, with 400 and no write. */
  lemma SelfDeactivationRefused(users: map<UserId, User>, header: Option<string>,
                                verify: string -> VerifyResult, checkEmail: EmailCheck, callerId: UserId)
    requires WellFormed(users)
    requires Admit(header, verify, users, DeactivateUser(callerId)).Ok?
    requires Admit(header, verify, users, DeactivateUser(callerId)).value.id == callerId
    ensures Dispatch(users, header, verify, checkEmail, DeactivateUser(callerId))
         == Step(Refuse(400, "You cannot deactivate your own account"), users)
  {
    var caller := Admit(header, verify, users, DeactivateUser(callerId)).value;
    var id := verify(ExtractToken(header)).id;
    assert caller == users[id] && caller.status == Active;
    assert users[id].id == id;
    assert callerId in users && users[callerId].status == Active;
  }

  /** Every request keeps the store's guarantees. */
  lemma DispatchKeepsWellFormed(users: map<UserId, User>, header: Option<string>,
                                verify: string -> VerifyResult, checkEmail: EmailCheck, req: Request)
    requires WellFormed(users)
    ensures WellFormed(Dispatch(users, header, verify, checkEmail, req).users)
  {
    match Admit(header, verify, users, req)
    case Err(_) =>
    case Ok(caller) =>
      match req
      case UpdateProfile(fullName, email) =>
        UpdateProfileKeepsWellFormed(users, caller.id, checkEmail, fullName, email);
      case _ =>
  }
}
