/** The account directory: the sign-up form's gating steps, account creation
    and sign-in. Accounts are filed under `user:` + the normalized name. */
module Accounts {
  import opened Text
  import opened Records
  import opened Gateway
  import opened Session

  /** The blocking browser alerts of the sign-up screens. */
  datatype Alert = IncompleteForm | SchoolNotGiven

  /** A form step that touches no storage: the forms afterwards, and the alert
      it raised, if any. */
  datatype Reply = Reply(forms: Forms, alert: Option<Alert>)

  const MinPasswordLength: nat := 6

  /** The school choice that asks for the school's name separately. */
  const OtherSchoolChoice: string := "other"

  predicate FormComplete(f: SignUpForm) {
    f.name != [] && f.grade != [] && f.teacher != [] && f.school != []
  }

  /** `handleContinue`: every field of the form must be filled in; choosing
      "other" as the school opens the school survey, any other choice moves on
      to the password step. */
  function Continue(f: Forms): (r: Reply)
    ensures r.alert.Some? <==> !FormComplete(f.form)
    ensures r.alert.Some? ==> r.forms == f
    ensures r.forms.needsPassword != f.needsPassword ==>
              FormComplete(f.form) && f.form.school != OtherSchoolChoice
    ensures r.forms.showOtherSchoolSurvey != f.showOtherSchoolSurvey ==>
              FormComplete(f.form) && f.form.school == OtherSchoolChoice
    ensures r.alert.None? ==> r.forms.needsPassword || r.forms.showOtherSchoolSurvey
    ensures r.forms.(needsPassword := f.needsPassword, showOtherSchoolSurvey := f.showOtherSchoolSurvey) == f
  {
    if !FormComplete(f.form) then Reply(f, Some(IncompleteForm))
    else if f.form.school == OtherSchoolChoice then Reply(f.(showOtherSchoolSurvey := true), None)
    else Reply(f.(needsPassword := true), None)
  }

  /** `handleSurveySubmit`: the school typed into the survey must not be blank. */
  function SurveySubmit(f: Forms): (r: Reply)
    ensures r.alert.Some? <==> Blank(f.otherSchool)
    ensures r.alert.Some? ==> r.forms == f
    ensures r.alert.None? ==> r.forms == f.(needsPassword := true)
  {
    if Blank(f.otherSchool) then Reply(f, Some(SchoolNotGiven))
    else Reply(f.(needsPassword := true), None)
  }

  /** Sign-in succeeds exactly for a non-empty name and password whose account
      record can be read and holds that password. */
  predicate CredentialsMatch(name: string, password: string, store: Store, faults: Faults) {
    var key := UserKey(name);
    && name != [] && password != []
    && key !in faults.readFails && key in store
    && store[key].UserRecord? && store[key].account.password == password
  }

  /** `handleSignIn`. Signing in never writes the store. */
  function SignIn(c: Client, store: Store, faults: Faults): (r: Client)
    // only the session and the notice change
    ensures r.forms == c.forms && r.chat == c.chat
    // an empty field is reported before the store is consulted
    ensures c.forms.signInName == [] || c.forms.signInPassword == [] ==>
              r == c.(error := Some(MissingCredentials))
    ensures r.error.None? <==> CredentialsMatch(c.forms.signInName, c.forms.signInPassword, store, faults)
    ensures r.error.None? ==>
              && r.loggedIn
              && r.currentUser == Some(store[UserKey(c.forms.signInName)].account)
              && r.currentUser.value.password == c.forms.signInPassword
    ensures r.error.Some? ==> r.loggedIn == c.loggedIn && r.currentUser == c.currentUser
    ensures r.error == Some(SignInFailed) <==>
              c.forms.signInName != [] && c.forms.signInPassword != [] && UserKey(c.forms.signInName) in faults.readFails
    ensures r.error == Some(AccountNotFound) <==>
              && c.forms.signInName != [] && c.forms.signInPassword != []
              && UserKey(c.forms.signInName) !in faults.readFails && UserKey(c.forms.signInName) !in store
    ensures r.error == Some(IncorrectPassword) <==>
              && c.forms.signInName != [] && c.forms.signInPassword != []
              && UserKey(c.forms.signInName) !in faults.readFails && UserKey(c.forms.signInName) in store
              && !CredentialsMatch(c.forms.signInName, c.forms.signInPassword, store, faults)
  {
    if c.forms.signInName == [] || c.forms.signInPassword == [] then
      c.(error := Some(MissingCredentials))
    else
      match Get(store, faults, UserKey(c.forms.signInName))
      case Failed => c.(error := Some(SignInFailed))
      case Missing => c.(error := Some(AccountNotFound))
      case Found(v) =>
        // a record of another shape has no `password` field, so it never matches
        if v.UserRecord? && v.account.password == c.forms.signInPassword then
          c.(loggedIn := true, currentUser := Some(v.account), error := None)
        else
          c.(error := Some(IncorrectPassword))
  }

  /** The first password rule the sign-up form breaks, checked in the order the
      handler checks them. */
  function PasswordProblem(password: string, confirm: string): (e: Option<AuthError>)
    ensures e.None? <==> password != [] && |password| >= MinPasswordLength && password == confirm
    ensures e == Some(MissingPasswordField) <==> password == [] || confirm == []
    ensures e == Some(PasswordTooShort) <==> password != [] && confirm != [] && |password| < MinPasswordLength
    ensures e == Some(PasswordMismatch) <==>
              password != [] && confirm != [] && |password| >= MinPasswordLength && password != confirm
  {
    if password == [] || confirm == [] then Some(MissingPasswordField)
    else if |password| < MinPasswordLength then Some(PasswordTooShort)
    else if password != confirm then Some(PasswordMismatch)
    else None
  }

  /** The school recorded for an account: the survey's answer when the form
      says "other". */
  function SchoolOf(c: Client): string {
    if c.forms.form.school == OtherSchoolChoice then c.forms.otherSchool else c.forms.form.school
  }

  /** `handleCreatePassword`. `now` is the ISO-8601 creation time. A failed
      existence check counts as "no such account". */
  function CreateAccount(c: Client, store: Store, faults: Faults, now: string): (r: Step)
    // password problems are reported in order and never reach the store
    ensures PasswordProblem(c.forms.password, c.forms.confirmPassword).Some? ==>
              r == Step(c.(error := PasswordProblem(c.forms.password, c.forms.confirmPassword)), store)
    // an account already filed under the normalized name is never replaced
    ensures var key := UserKey(c.forms.form.name);
            PasswordProblem(c.forms.password, c.forms.confirmPassword).None? && key !in faults.readFails && key in store ==>
              r == Step(c.(error := Some(DuplicateAccount)), store)
    ensures var key := UserKey(c.forms.form.name);
            r.client.error.None? <==>
              && PasswordProblem(c.forms.password, c.forms.confirmPassword).None?
              && (key in faults.readFails || key !in store)
              && key !in faults.writeFails
    // a write that throws is reported as a failed creation
    ensures var key := UserKey(c.forms.form.name);
            PasswordProblem(c.forms.password, c.forms.confirmPassword).None?
            && (key in faults.readFails || key !in store) && key in faults.writeFails ==>
              r == Step(c.(error := Some(CreationFailed)), store)
    // success writes exactly one record and signs its owner in
    ensures r.client.error.None? ==>
              && r.client.currentUser.Some?
              && var a := r.client.currentUser.value;
              && r.client == c.(loggedIn := true, currentUser := Some(a), error := None)
              && r.store == store[UserKey(c.forms.form.name) := UserRecord(a)]
              && a == Account(c.forms.form.name, c.forms.form.grade, c.forms.form.teacher, SchoolOf(c), c.forms.password, now)
    // every failure leaves the store and the session as they were
    ensures r.client.error.Some? ==> r == Step(c.(error := r.client.error), store)
  {
    var problem := PasswordProblem(c.forms.password, c.forms.confirmPassword);
    if problem.Some? then
      Step(c.(error := problem), store)
    else
      var key := UserKey(c.forms.form.name);
      if Get(store, faults, key).Found? then
        Step(c.(error := Some(DuplicateAccount)), store)
      else
        var account := Account(c.forms.form.name, c.forms.form.grade, c.forms.form.teacher, SchoolOf(c), c.forms.password, now);
        var w := Set(store, faults, key, UserRecord(account));
        if w.ok then
          Step(c.(loggedIn := true, currentUser := Some(account), error := None), w.store)
        else
          Step(c.(error := Some(CreationFailed)), store)
  }

  // ---------------------------------------------------------------------------
  // Lemmas relating the account handlers

  /** A password shorter than six characters never reaches the store, whatever
      the confirmation field holds. */
  lemma ShortPasswordNeverWrites(c: Client, store: Store, faults: Faults, now: string)
    requires |c.forms.password| < MinPasswordLength
    ensures CreateAccount(c, store, faults, now).store == store
    ensures CreateAccount(c, store, faults, now).client.error.Some?
  {
  }

  /** Signing in right after a successful sign-up, with any name that
      normalizes to the same key and the same password, returns the record
      that sign-up wrote. */
  lemma SignInAfterCreate(c: Client, store: Store, faults: Faults, now: string, d: Client, faults': Faults)
    // sign-up succeeds: no password problem, no readable record, the write goes through
    requires PasswordProblem(c.forms.password, c.forms.confirmPassword).None?
    requires UserKey(c.forms.form.name) in faults.readFails || UserKey(c.forms.form.name) !in store
    requires UserKey(c.forms.form.name) !in faults.writeFails
    requires d.forms.signInName != [] && Normalize(d.forms.signInName) == Normalize(c.forms.form.name)
    requires d.forms.signInPassword == c.forms.password
    requires UserKey(c.forms.form.name) !in faults'.readFails
    ensures var r := CreateAccount(c, store, faults, now);
            var s := SignIn(d, r.store, faults');
            s.error.None? && s.loggedIn && s.currentUser == r.client.currentUser
  {
    UserKeyInjective(d.forms.signInName, c.forms.form.name);
  }

  /** Creating the same account twice: the second attempt finds the first
      record and reports a duplicate without writing. */
  lemma CreateTwiceIsDuplicate(c: Client, store: Store, faults: Faults, now: string,
                               d: Client, faults': Faults, later: string)
    // sign-up succeeds: no password problem, no readable record, the write goes through
    requires PasswordProblem(c.forms.password, c.forms.confirmPassword).None?
    requires UserKey(c.forms.form.name) in faults.readFails || UserKey(c.forms.form.name) !in store
    requires UserKey(c.forms.form.name) !in faults.writeFails
    requires Normalize(d.forms.form.name) == Normalize(c.forms.form.name)
    requires PasswordProblem(d.forms.password, d.forms.confirmPassword).None?
    requires UserKey(c.forms.form.name) !in faults'.readFails
    ensures var r := CreateAccount(c, store, faults, now);
            CreateAccount(d, r.store, faults', later) == Step(d.(error := Some(DuplicateAccount)), r.store)
  {
    UserKeyInjective(d.forms.form.name, c.forms.form.name);
  }

  /** Because a failed existence check counts as "no such account", sign-up
      overwrites an existing account when that read throws and the write goes
      through. */
  lemma FailedCheckOverwrites(c: Client, store: Store, faults: Faults, now: string)
    requires PasswordProblem(c.forms.password, c.forms.confirmPassword).None?
    requires UserKey(c.forms.form.name) in store && store[UserKey(c.forms.form.name)].UserRecord?
    requires UserKey(c.forms.form.name) in faults.readFails && UserKey(c.forms.form.name) !in faults.writeFails
    requires store[UserKey(c.forms.form.name)].account.createdAt != now
    ensures var r := CreateAccount(c, store, faults, now);
            r.client.error.None? && r.store[UserKey(c.forms.form.name)] != store[UserKey(c.forms.form.name)]
  {
  }

  /** Following the sign-up screens in order (form, then the survey when the
      school is "other") and creating the account stores a complete profile;
      a school given through the survey is never blank. */
  lemma SignUpFlowRecordsSchool(c: Client, store: Store, faults: Faults, now: string)
    requires Continue(c.forms).alert.None?
    requires c.forms.form.school == OtherSchoolChoice ==> SurveySubmit(Continue(c.forms).forms).alert.None?
    ensures var f1 := Continue(c.forms).forms;
            var f2 := if c.forms.form.school == OtherSchoolChoice then SurveySubmit(f1).forms else f1;
            var r := CreateAccount(c.(forms := f2), store, faults, now);
            && f2.needsPassword
            && (r.client.error.None? ==>
                  var a := r.client.currentUser.value;
                  && a.name != [] && a.grade != [] && a.teacher != [] && a.school != []
                  && (c.forms.form.school == OtherSchoolChoice ==> !Blank(a.school)))
  {
  }
}
