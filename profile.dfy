/** The profile page's form checks: `validateProfile` and `validatePassword`
    each build a fresh map from form field to error message, and a submit
    with a non-empty map stops before any request is sent. The form measures
    strings with JavaScript's `.length`, in UTF-16 code units. */
module Profile {
  import opened Wrappers
  import Strings
  import Routes
  import opened Users

  /** The form fields an error can be filed under. */
  datatype Field = FullName | Email | CurrentPassword | NewPassword | ConfirmPassword

  type Errors = map<Field, string>

  const FullNameRequired := "Full name is required"
  const FullNameTooShort := "Full name must be at least 2 characters"
  const EmailRequired := "Email is required"
  const EmailInvalid := "Email is invalid"
  const CurrentPasswordRequired := "Current password is required"
  const NewPasswordRequired := "New password is required"
  const NewPasswordTooShort := "Password must be at least 6 characters"
  const NewPasswordTooWeak := "Password must contain uppercase, lowercase, and number"
  const PasswordsDiffer := "Passwords do not match"

  /** `validateProfile()` for the form's `fullName` and `email`. */
  function ValidateProfile(fullName: string, email: string): (errors: Errors)
    ensures errors.Keys <= {FullName, Email}
    ensures FullName in errors <==> Strings.Utf16Length(Strings.Trim(fullName)) < 2
    ensures FullName in errors ==>
      (errors[FullName] == FullNameRequired <==>
         forall k :: 0 <= k < |fullName| ==> Strings.IsWhitespace(fullName[k]))
    ensures FullName in errors ==> errors[FullName] in {FullNameRequired, FullNameTooShort}
    ensures Email in errors <==> !Strings.MatchesEmailPattern(email)
    ensures Email in errors ==> (errors[Email] == EmailRequired <==> email == "")
    ensures Email in errors ==> errors[Email] in {EmailRequired, EmailInvalid}
  {
    var name := Strings.Trim(fullName);
    var errors: Errors := map[];
    var errors :=
      if name == "" then errors[FullName := FullNameRequired]
      else if Strings.Utf16Length(name) < 2 then errors[FullName := FullNameTooShort]
      else errors;
    assert email == "" ==> !Strings.MatchesEmailPattern(email);
    if email == "" then errors[Email := EmailRequired]
    else if !Strings.MatchesEmailPattern(email) then errors[Email := EmailInvalid]
    else errors
  }

  /** `validatePassword()` for the form's three password fields. */
  function ValidatePassword(currentPassword: string, newPassword: string, confirmPassword: string)
    : (errors: Errors)
    ensures errors.Keys <= {CurrentPassword, NewPassword, ConfirmPassword}
    ensures CurrentPassword in errors <==> currentPassword == ""
    ensures CurrentPassword in errors ==> errors[CurrentPassword] == CurrentPasswordRequired
    ensures NewPassword in errors <==>
      Strings.Utf16Length(newPassword) < 6 || !Strings.MatchesStrengthPattern(newPassword)
    ensures ConfirmPassword in errors <==> newPassword != confirmPassword
    ensures ConfirmPassword in errors ==> errors[ConfirmPassword] == PasswordsDiffer
    ensures NewPassword in errors ==>
      errors[NewPassword] ==
        if newPassword == "" then NewPasswordRequired
        else if Strings.Utf16Length(newPassword) < 6 then NewPasswordTooShort
        else NewPasswordTooWeak
  {
    var errors: Errors := map[];
    var errors :=
      if currentPassword == "" then errors[CurrentPassword := CurrentPasswordRequired] else errors;
    var errors :=
      if newPassword == "" then errors[NewPassword := NewPasswordRequired]
      else if Strings.Utf16Length(newPassword) < 6 then errors[NewPassword := NewPasswordTooShort]
      else if !Strings.MatchesStrengthPattern(newPassword) then errors[NewPassword := NewPasswordTooWeak]
      else errors;
    if newPassword != confirmPassword then errors[ConfirmPassword := PasswordsDiffer] else errors
  }

  /** The client's name rule and the server's: a name the server accepts
      draws no error on the form, and where the two length counts agree the
      rules are the same. */
  lemma ClientNameRuleIsServerRule(fullName: string, email: string)
    ensures Routes.FullNameAccepted(Some(fullName)) ==> FullName !in ValidateProfile(fullName, email)
    ensures Strings.LengthsAgree(Strings.Trim(fullName)) ==>
      (FullName !in ValidateProfile(fullName, email) <==> Routes.FullNameAccepted(Some(fullName)))
  {
    Strings.LengthCounts(Strings.Trim(fullName));
  }

  /** The client's new-password rule and the server's: a password the server
      accepts draws no error on the form, and where the two length counts
      agree the rules are the same; then, with a matching confirmation, the
      whole form passes exactly when the body passes the server's validators. */
  lemma ClientPasswordRuleIsServerRule(currentPassword: string, newPassword: string, confirmPassword: string)
    ensures Routes.NewPasswordAccepted(newPassword) ==>
      NewPassword !in ValidatePassword(currentPassword, newPassword, confirmPassword)
    ensures Strings.LengthsAgree(newPassword) ==>
      (NewPassword !in ValidatePassword(currentPassword, newPassword, confirmPassword) <==>
       Routes.NewPasswordAccepted(newPassword))
    ensures Strings.LengthsAgree(newPassword) ==>
      (ValidatePassword(currentPassword, newPassword, newPassword) == map[] <==>
       Routes.PasswordBodyValid(currentPassword, newPassword))
  {
    Strings.LengthCounts(newPassword);
    var errors := ValidatePassword(currentPassword, newPassword, newPassword);
    if Strings.LengthsAgree(newPassword) {
      if Routes.PasswordBodyValid(currentPassword, newPassword) {
        assert errors.Keys == {};
      } else {
        assert CurrentPassword in errors || NewPassword in errors;
      }
    }
  }

  /** What pressing a submit button does: file the errors and stop, or send
      the request. */
  datatype Submission = Blocked(errors: Errors) | Sent(request: Routes.Request)

  /** `handleProfileSubmit`: the form is sent as it is, untrimmed. */
  function SubmitProfile(fullName: string, email: string): (s: Submission)
    ensures s.Blocked? <==> ValidateProfile(fullName, email) != map[]
    ensures s.Blocked? ==> s.errors == ValidateProfile(fullName, email)
    ensures s.Sent? ==> s.request == Routes.UpdateProfile(Some(fullName), Some(email))
  {
    var errors := ValidateProfile(fullName, email);
    if |errors| > 0 then Blocked(errors) else Sent(Routes.UpdateProfile(Some(fullName), Some(email)))
  }

  /** `handlePasswordSubmit`: the confirmation stays on the client. */
  function SubmitPassword(currentPassword: string, newPassword: string, confirmPassword: string)
    : (s: Submission)
    ensures s.Blocked? <==> ValidatePassword(currentPassword, newPassword, confirmPassword) != map[]
    ensures s.Blocked? ==> s.errors == ValidatePassword(currentPassword, newPassword, confirmPassword)
    ensures s.Sent? ==> s.request == Routes.ChangePassword(currentPassword, newPassword)
  {
    var errors := ValidatePassword(currentPassword, newPassword, confirmPassword);
    if |errors| > 0 then Blocked(errors) else Sent(Routes.ChangePassword(currentPassword, newPassword))
  }

  /** A profile the client sends passes the server's name validator when
      the two length counts agree on the trimmed name. If the server's e-mail
      check also accepts the address and no other record holds the
      normalized address, the caller's record gets the trimmed name and the
      normalized address. */
  lemma SentProfilePassesServerValidation(fullName: string, email: string, users: map<UserId, User>,
                                          callerId: UserId, checkEmail: Routes.EmailCheck)
    requires SubmitProfile(fullName, email).Sent?
    ensures Strings.LengthsAgree(Strings.Trim(fullName)) ==> Routes.FullNameAccepted(Some(fullName))
    ensures
      (&& Strings.LengthsAgree(Strings.Trim(fullName)) && callerId in users
       && checkEmail(email).Some? && checkEmail(email).value != ""
       && !Routes.EmailTakenByOther(users, callerId, checkEmail(email).value)) ==>
        var s := Routes.UpdateProfileStep(users, callerId, checkEmail, Some(fullName), Some(email));
        s.response.Success() && callerId in s.users
        && s.users[callerId].fullName == Strings.Trim(fullName)
        && s.users[callerId].email == checkEmail(email).value
  {
    var errors := ValidateProfile(fullName, email);
    assert FullName !in errors;
    ClientNameRuleIsServerRule(fullName, email);
  }

  /** A password change the client sends is never refused by the server's
      validators when the two length counts agree on the new password. */
  lemma SentPasswordPassesServerValidation(currentPassword: string, newPassword: string,
                                           confirmPassword: string)
    requires SubmitPassword(currentPassword, newPassword, confirmPassword).Sent?
    ensures Strings.LengthsAgree(newPassword) ==> Routes.PasswordBodyValid(currentPassword, newPassword)
    ensures Strings.LengthsAgree(newPassword) ==> forall users, callerId ::
      Routes.ChangePasswordStep(users, callerId, currentPassword, newPassword).response
        != Routes.Refuse(400, "Validation failed")
  {
    var errors := ValidatePassword(currentPassword, newPassword, confirmPassword);
    assert CurrentPassword !in errors && NewPassword !in errors;
    ClientPasswordRuleIsServerRule(currentPassword, newPassword, confirmPassword);
  }

  /** Where the counts part ways the form sends what the server refuses: the
      name "\U{1F600}" is two code units to the form and one character to
      `isLength`. */
  lemma AstralNameSentButRefused()
    ensures SubmitProfile("\U{1F600}", "a@b.co").Sent?
    ensures !Routes.FullNameAccepted(Some("\U{1F600}"))
  {
    Strings.LengthExamples();
    var name := "\U{1F600}";
    assert !Strings.IsWhitespace(name[0]);
    assert Strings.Trim(name) == name;
    var email := "a@b.co";
    assert email[2..3] == "b" && Strings.NoWhitespace(email[2..3]);
    assert Strings.EmailMatchAt(email, 1, 3);
  }

  /** The new password "aB1cd\U{FE0F}" is six code units to the form and five
      characters to `isLength`: the form sends it and the server answers
      "Validation failed". */
  lemma SelectorPasswordSentButRefused(users: map<UserId, User>, callerId: UserId)
    ensures SubmitPassword("x", "aB1cd\U{FE0F}", "aB1cd\U{FE0F}").Sent?
    ensures Routes.ChangePasswordStep(users, callerId, "x", "aB1cd\U{FE0F}").response
         == Routes.Refuse(400, "Validation failed")
  {
    Strings.LengthExamples();
    var p := "aB1cd\U{FE0F}";
    assert Strings.MatchesStrengthPattern(p) by {
      assert forall k :: 0 <= k < |p| ==> !Strings.IsLineTerminator(p[k]);
      Strings.StrengthPatternOnOneLine(p);
      assert Strings.IsAsciiLower(p[0]) && Strings.IsAsciiUpper(p[1]) && Strings.IsAsciiDigit(p[2]);
    }
    assert !Routes.NewPasswordAccepted(p);
    assert ValidatePassword("x", p, p) == map[];
  }
}
