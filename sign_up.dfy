/** Registration: the password rules checked in order, then the
    confirmation, then the remote steps (sign out, look for an existing
    profile, create the account, write the profile, file an admin request
    when one is asked for, sign out, redirect). The replies of the
    authentication service and of the tables are inputs; what the form
    asks of them is returned as a list of effects. */
module SignUp {
  import opened Wrappers
  import Text
  import Lists
  import Rbac

  const TooShort := "Password must be at least 6 characters long"
  const NoUpper := "Password must contain at least one uppercase letter"
  const NoLower := "Password must contain at least one lowercase letter"
  const NoDigit := "Password must contain at least one number"
  const Mismatch := "Passwords don't match"
  const AlreadyExists := "An account with this email already exists. Please sign in instead."
  const NoAccount := "Failed to create account"
  const NoProfile := "Failed to create user profile. Please try again."
  const AdminPending := "Your admin request has been submitted and is pending approval. You will receive an email notification once approved."
  const OwnerCreated := "Account created successfully! Please sign in."

  predicate HasUpper(p: string) { exists i :: 0 <= i < |p| && Text.IsAsciiUpper(p[i]) }
  predicate HasLower(p: string) { exists i :: 0 <= i < |p| && Text.IsAsciiLower(p[i]) }
  predicate HasDigit(p: string) { exists i :: 0 <= i < |p| && Text.IsDigit(p[i]) }

  datatype Validation = Validation(isValid: bool, message: string)

  /** `validatePassword`: the message of the first rule the password
      breaks, or a pass with no message. */
  function ValidatePassword(p: string): (r: Validation)
    ensures r.isValid <==> Text.Utf16Length(p) >= 6 && HasUpper(p) && HasLower(p) && HasDigit(p)
    ensures r.message == "" <==> r.isValid
  {
    if Text.Utf16Length(p) < 6 then Validation(false, TooShort)
    else if !HasUpper(p) then Validation(false, NoUpper)
    else if !HasLower(p) then Validation(false, NoLower)
    else if !HasDigit(p) then Validation(false, NoDigit)
    else Validation(true, "")
  }

  /** The length rule counts UTF-16 code units, as `password.length`
      does: two letters, a digit and two emoji make a valid password of
      five characters. */
  lemma SurrogatePairsCountTwice()
    ensures ValidatePassword("Ab1\U{1F600}\U{1F600}").isValid
  {
    var p := "Ab1\U{1F600}\U{1F600}";
    assert Text.IsAsciiUpper(p[0]) && Text.IsAsciiLower(p[1]) && Text.IsDigit(p[2]);
    Text.Utf16LengthAppend("Ab1", "\U{1F600}\U{1F600}");
    assert Text.Utf16Length("Ab1") == 3;
    assert Text.Utf16Length("\U{1F600}\U{1F600}") == 4;
  }

  /** One password rule: whether the password keeps it, and the message
      shown when it does not. */
  datatype Rule = Rule(kept: bool, message: string)

  /** The rules in the order they are checked. */
  function Rules(p: string): seq<Rule> {
    [Rule(Text.Utf16Length(p) >= 6, TooShort), Rule(HasUpper(p), NoUpper), Rule(HasLower(p), NoLower), Rule(HasDigit(p), NoDigit)]
  }

  predicate Broken(r: Rule) { !r.kept }

  /** The validation reports the first rule, in checking order, that the
      password breaks, and passes when it breaks none. */
  lemma ValidationIsFirstBrokenRule(p: string)
    ensures match Lists.FindFirst(Rules(p), Broken)
      case None => ValidatePassword(p) == Validation(true, "")
      case Some(rule) => ValidatePassword(p) == Validation(false, rule.message)
  {
    var rules := Rules(p);
    var found := Lists.FindFirst(rules, Broken);
    if found.Some? {
      var k :| 0 <= k < |rules| && rules[k] == found.value && Broken(rules[k])
        && forall i :: 0 <= i < k ==> !Broken(rules[i]);
      if k >= 1 { assert !Broken(rules[0]); }
      if k >= 2 { assert !Broken(rules[1]); }
      if k >= 3 { assert !Broken(rules[2]); }
      assert found.value.message == ValidatePassword(p).message;
    } else {
      assert !Broken(rules[0]) && !Broken(rules[1]) && !Broken(rules[2]) && !Broken(rules[3]);
    }
  }

  datatype Form = Form(email: string, password: string, confirmPassword: string,
                       role: Rbac.Role, companyName: string, phone: string)

  /** The reply of `auth.signUp`. */
  datatype SignUpReply = SignUpError(message: string) | NoUser | Created(userId: string)

  /** The replies the submission meets: whether a profile with the e-mail
      exists, the sign-up reply, and whether writing the profile fails. */
  datatype Replies = Replies(profileExists: bool, signUp: SignUpReply, profileFailed: bool)

  datatype ProfileRecord = ProfileRecord(id: string, email: string, companyName: string,
                                         phone: string, role: Rbac.Role, isAdmin: bool)

  /** What the submission asks of the services, in order. */
  datatype Effect =
    | SignOut
    | FindProfile(email: string)
    | CreateAccount(email: string, role: Rbac.Role)
    | UpsertProfile(profile: ProfileRecord)
    | RequestAdmin(userId: string, email: string)
    | NotifyAdmin(userId: string)

  /** The error shown, the effects, and the message of the redirect to the
      login page. */
  datatype Outcome = Outcome(error: Option<string>, effects: seq<Effect>, redirect: Option<string>)

  /** A thrown error: its message is shown and the session is signed out. */
  function Failed(done: seq<Effect>, message: string): Outcome {
    Outcome(Some(message), done + [SignOut], None)
  }

  /** The message the login page shows after registering. */
  function RedirectMessage(role: Rbac.Role): string {
    if role == Rbac.Admin then AdminPending else OwnerCreated
  }

  /** `handleSubmit`. */
  function Submit(form: Form, replies: Replies): Outcome {
    var check := ValidatePassword(form.password);
    if !check.isValid then Outcome(Some(check.message), [], None)
    else if form.password != form.confirmPassword then Outcome(Some(Mismatch), [], None)
    else
      var looked := [SignOut, FindProfile(form.email)];
      if replies.profileExists then Outcome(Some(AlreadyExists), looked, None)
      else
        var asked := looked + [CreateAccount(form.email, form.role)];
        match replies.signUp
          case SignUpError(message) =>
            if Text.Includes(message, "already registered") then Outcome(Some(AlreadyExists), asked, None)
            else Failed(asked, message)
          case NoUser => Failed(asked, NoAccount)
          case Created(id) =>
            var written := asked + [UpsertProfile(ProfileRecord(id, form.email, form.companyName, form.phone, form.role, false))];
            if replies.profileFailed then Failed(written + [SignOut], NoProfile)
            else
              var request := if form.role == Rbac.Admin then [RequestAdmin(id, form.email), NotifyAdmin(id)] else [];
              Outcome(None, written + request + [SignOut], Some(RedirectMessage(form.role)))
  }

  /** The password rules come first: a password that breaks one shows
      that rule's message whatever the confirmation, and nothing is sent.
      The confirmation is compared only for a password that keeps them
      all, and a mismatch stops the submission before anything is sent. */
  lemma RulesBeforeConfirmation(form: Form, replies: Replies)
    ensures !ValidatePassword(form.password).isValid ==>
      Submit(form, replies) == Outcome(Some(ValidatePassword(form.password).message), [], None)
    ensures Submit(form, replies) == Outcome(Some(Mismatch), [], None) <==>
      ValidatePassword(form.password).isValid && form.password != form.confirmPassword
    ensures Submit(form, replies).effects == [] <==>
      !ValidatePassword(form.password).isValid || form.password != form.confirmPassword
  {
  }

  /** A profile already registered with the e-mail stops the submission
      before any account is created. */
  lemma ExistingProfileStops(form: Form, replies: Replies)
    requires ValidatePassword(form.password).isValid && form.password == form.confirmPassword
    requires replies.profileExists
    ensures Submit(form, replies) == Outcome(Some(AlreadyExists), [SignOut, FindProfile(form.email)], None)
    ensures forall e :: e in Submit(form, replies).effects ==> !e.CreateAccount?
  {
  }

  /** The profile is always written with `is_admin` false and the role
      asked for: asking for the admin role grants nothing by itself. */
  lemma NeverSelfAdmin(form: Form, replies: Replies)
    ensures forall e :: e in Submit(form, replies).effects && e.UpsertProfile? ==>
      !e.profile.isAdmin && e.profile.role == form.role && e.profile.email == form.email
  {
    var effects := Submit(form, replies).effects;
    if replies.signUp.Created? && ValidatePassword(form.password).isValid
       && form.password == form.confirmPassword && !replies.profileExists {
      var profile := ProfileRecord(replies.signUp.userId, form.email, form.companyName, form.phone, form.role, false);
      assert forall e :: e in effects && e.UpsertProfile? ==> e.profile == profile;
    } else {
      assert forall e :: e in effects ==> !e.UpsertProfile?;
    }
  }

  /** A registration succeeds exactly when no error is shown; it then
      redirects with the message for the role asked for, and files an
      admin request (and its notification) exactly when that role is
      admin. */
  lemma SuccessByRole(form: Form, replies: Replies)
    ensures Submit(form, replies).redirect.Some? <==> Submit(form, replies).error.None?
    ensures Submit(form, replies).redirect.Some? ==>
      Submit(form, replies).redirect.value == (if form.role == Rbac.Admin then AdminPending else OwnerCreated)
    ensures (exists e :: e in Submit(form, replies).effects && e.RequestAdmin?) <==>
      Submit(form, replies).redirect.Some? && form.role == Rbac.Admin
  {
    var r := Submit(form, replies);
    if r.redirect.Some? && form.role == Rbac.Admin {
      var id := replies.signUp.userId;
      assert RequestAdmin(id, form.email) in r.effects;
    }
    if r.redirect.None? {
      RequestOnlyOnSuccess(form, replies);
    }
  }

  /** No failed or stopped submission files an admin request. */
  lemma RequestOnlyOnSuccess(form: Form, replies: Replies)
    requires Submit(form, replies).redirect.None?
    ensures forall e :: e in Submit(form, replies).effects ==> !e.RequestAdmin?
  {
  }

  /** The form's state: the error shown and the busy flag. */
  class SignUpForm {
    var error: Option<string>
    var loading: bool

    constructor()
      ensures error == None && !loading
    {
      error := None;
      loading := false;
    }

    /** `handleSubmit` on the form's state: the error is cleared and then
        set to the outcome's; a submission that gets past the local checks
        ends with loading false, one stopped by them leaves it alone. */
    method HandleSubmit(form: Form, replies: Replies) returns (effects: seq<Effect>, redirect: Option<string>)
      modifies this
      ensures error == Submit(form, replies).error
      ensures effects == Submit(form, replies).effects && redirect == Submit(form, replies).redirect
      ensures loading == (if effects == [] then old(loading) else false)
    {
      error := None;
      var outcome := Submit(form, replies);
      if outcome.effects != [] {
        loading := true;
      }
      error := outcome.error;
      effects := outcome.effects;
      redirect := outcome.redirect;
      if effects != [] {
        loading := false;
      }
    }
  }
}
