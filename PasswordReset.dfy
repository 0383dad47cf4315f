/**
 * The handler of POST /api/auth/reset-password (server.js:127-193): validate
 * the request, then, through the administrative client, list the users, pick
 * the first whose email equals the request's, and update that user's
 * password. Each step runs only if every earlier one succeeded.
 *
 * Reset is the specification, a function from the request and the service's
 * answers to the response and the calls made; ResetPassword is the handler,
 * a method that makes those calls on a Client.
 */
module PasswordReset {
  import opened Wrappers
  import opened PasswordPolicy
  import opened AdminClient

  /** The handler's responses. */
  datatype Response =
    | Rejected(verdict: Verdict)  // a missing field or a broken password rule
    | NotConfigured               // the client was never created
    | LookupFailed                // listUsers answered with an error
    | UserNotFound                // no user has the request's email
    | UpdateFailed                // updateUserById answered with an error
    | PasswordChanged             // success

  /** The HTTP status of each response (server.js:130-190). */
  function Status(r: Response): (code: int)
    ensures code == 200 <==> r.PasswordChanged?
    ensures code == 404 <==> r.UserNotFound?
    ensures code == 400 <==> r.Rejected?
    ensures code == 500 <==> r.NotConfigured? || r.LookupFailed? || r.UpdateFailed?
  {
    match r
    case Rejected(_) => 400
    case NotConfigured => 500
    case LookupFailed => 500
    case UserNotFound => 404
    case UpdateFailed => 500
    case PasswordChanged => 200
  }

  /** The index of the first user whose email is exactly `email`, |users| if none. */
  function FirstMatch(users: seq<User>, email: string): (k: nat)
    ensures k <= |users|
    ensures forall j :: 0 <= j < k ==> users[j].email != email
    ensures k < |users| ==> users[k].email == email
  {
    if users == [] then 0
    else if users[0].email == email then 0
    else 1 + FirstMatch(users[1..], email)
  }

  /** `users.find(u => u.email === email)` (server.js:173): case-sensitive, first match. */
  function Find(users: seq<User>, email: string): (found: Option<User>)
    ensures found.None? <==> forall u :: u in users ==> u.email != email
    ensures found.Some? ==>
      exists i :: 0 <= i < |users| && users[i] == found.value && found.value.email == email
               && forall j :: 0 <= j < i ==> users[j].email != email
  {
    var k := FirstMatch(users, email);
    if k < |users| then Some(users[k]) else None
  }

  /** The outcome of one request: the response and the calls made to the service, in order. */
  datatype Run = Run(response: Response, calls: seq<Call>)

  /** The handler as a function of the request and of what the service answers. */
  function Reset(email: Option<string>, newPassword: Option<string>,
                 configured: bool, answers: Answers): (run: Run)
    ensures run.response.Rejected? ==> run.response.verdict != Ok
    ensures run.calls == [] <==> run.response.Rejected? || run.response.NotConfigured?
    ensures run.calls != [] ==> configured && run.calls[0] == ListUsers && |run.calls| <= 2
  {
    var verdict := Validate(email, newPassword);
    if verdict != Ok then Run(Rejected(verdict), [])
    else if !configured then Run(NotConfigured, [])
    else
      match answers.listing
      case ListError => Run(LookupFailed, [ListUsers])
      case Users(users) =>
        match Find(users, email.value)
        case None => Run(UserNotFound, [ListUsers])
        case Some(user) =>
          var update := UpdateUserById(user.id, newPassword.value);
          Run(if answers.updateSucceeds then PasswordChanged else UpdateFailed, [ListUsers, update])
  }

  /** The request gets through validation, the client exists, and the listing has a matching user. */
  predicate ReachesUpdate(email: Option<string>, newPassword: Option<string>,
                          configured: bool, answers: Answers)
  {
    && Validate(email, newPassword) == Ok
    && configured
    && answers.listing.Users?
    && exists u :: u in answers.listing.users && u.email == email.value
  }

  /** The update calls in a call log, in order. */
  function Updates(calls: seq<Call>): (us: seq<Call>)
    ensures |us| <= |calls|
    ensures forall c :: c in us ==> c in calls && c.UpdateUserById?
    ensures forall c :: c in calls && c.UpdateUserById? ==> c in us
  {
    if calls == [] then []
    else if calls[0].UpdateUserById? then [calls[0]] + Updates(calls[1..])
    else Updates(calls[1..])
  }

  /** The handler as a method on the client: it makes exactly the calls Reset lists. */
  method ResetPassword(client: Client, email: Option<string>, newPassword: Option<string>)
      returns (response: Response)
    modifies client
    ensures response == Reset(email, newPassword, client.configured, client.answers).response
    ensures client.calls == old(client.calls) + Reset(email, newPassword, client.configured, client.answers).calls
  {
    var verdict := Validate(email, newPassword);
    if verdict != Ok {
      return Rejected(verdict);
    }
    if !client.configured {
      return NotConfigured;
    }
    var listing := client.ListUsers();
    if listing.ListError? {
      return LookupFailed;
    }
    var user := Find(listing.users, email.value);
    if user.None? {
      return UserNotFound;
    }
    var ok := client.UpdateUserById(user.value.id, newPassword.value);
    if !ok {
      return UpdateFailed;
    }
    return PasswordChanged;
  }

  // ---------------------------------------------------------------------
  // Properties of the handler.

  /**
   * A missing or empty field is answered 400 FieldsMissing before any
   * password rule is looked at and before any call to the service.
   */
  lemma MissingFieldStopsEverything(email: Option<string>, newPassword: Option<string>,
                                    configured: bool, answers: Answers)
    requires !Filled(email) || !Filled(newPassword)
    ensures Reset(email, newPassword, configured, answers) == Run(Rejected(FieldsMissing), [])
    ensures Status(Reset(email, newPassword, configured, answers).response) == 400
  {
  }

  /**
   * A request is rejected with 400 exactly when validation fails, with the
   * validator's verdict, and then nothing is asked of the service.
   */
  lemma RejectedIffInvalid(email: Option<string>, newPassword: Option<string>,
                           configured: bool, answers: Answers)
    ensures var run := Reset(email, newPassword, configured, answers);
      && (run.response.Rejected? <==> Validate(email, newPassword) != Ok)
      && (run.response.Rejected? ==> run.response.verdict == Validate(email, newPassword) && run.calls == [])
  {
  }

  /**
   * "Not configured" is reported only once validation has passed, and an
   * unconfigured client is never called, whatever the request.
   */
  lemma NotConfiguredOnlyAfterValidation(email: Option<string>, newPassword: Option<string>,
                                         configured: bool, answers: Answers)
    ensures var run := Reset(email, newPassword, configured, answers);
      && (run.response.NotConfigured? <==> Validate(email, newPassword) == Ok && !configured)
      && (!configured ==> run.calls == [])
  {
  }

  /** A failed listing is answered 500 after the one listing call, with no update. */
  lemma ListingFailureSkipsUpdate(email: Option<string>, newPassword: Option<string>,
                                  configured: bool, answers: Answers)
    ensures var run := Reset(email, newPassword, configured, answers);
      && (run.response.LookupFailed? <==>
            Validate(email, newPassword) == Ok && configured && answers.listing.ListError?)
      && (run.response.LookupFailed? ==> run.calls == [ListUsers])
  {
  }

  /**
   * 404 is answered exactly when no listed user has the request's email
   * (compared exactly), and then no update is made.
   */
  lemma UnknownEmailIsNotFound(email: Option<string>, newPassword: Option<string>,
                               configured: bool, answers: Answers)
    ensures var run := Reset(email, newPassword, configured, answers);
      && (run.response.UserNotFound? <==>
            && Validate(email, newPassword) == Ok && configured && answers.listing.Users?
            && forall u :: u in answers.listing.users ==> u.email != email.value)
      && (run.response.UserNotFound? ==> run.calls == [ListUsers])
  {
  }

  /**
   * The update is invoked exactly once, with the id of the first user whose
   * email matches and the unchanged new password, when the handler gets that
   * far, and never otherwise.
   */
  lemma UpdateCalledOnceWithMatchedUser(email: Option<string>, newPassword: Option<string>,
                                        configured: bool, answers: Answers)
    ensures var run := Reset(email, newPassword, configured, answers);
      if ReachesUpdate(email, newPassword, configured, answers) then
        && var k := FirstMatch(answers.listing.users, email.value);
        && k < |answers.listing.users|
        && Updates(run.calls) == [UpdateUserById(answers.listing.users[k].id, newPassword.value)]
        && run.calls == [ListUsers, UpdateUserById(answers.listing.users[k].id, newPassword.value)]
      else
        Updates(run.calls) == []
  {
  }

  /** 200 exactly when the update is reached and succeeds; 500 when it is reached and fails. */
  lemma SuccessIffUpdateSucceeds(email: Option<string>, newPassword: Option<string>,
                                 configured: bool, answers: Answers)
    ensures var run := Reset(email, newPassword, configured, answers);
      && (run.response.PasswordChanged? <==>
            ReachesUpdate(email, newPassword, configured, answers) && answers.updateSucceeds)
      && (run.response.UpdateFailed? <==>
            ReachesUpdate(email, newPassword, configured, answers) && !answers.updateSucceeds)
  {
  }

  /** An email that no listed user has gives 404 and no update call. */
  lemma ExampleUnknownEmail()
    ensures var answers := Answers(Users([User("u1", "Test@example.com")]), true, QueryError);
      Reset(Some("test@example.com"), Some("Abcd123!"), true, answers) == Run(UserNotFound, [ListUsers])
  {
    ExampleStrongPassword();
    assert "Test@example.com" != "test@example.com" by {
      assert "Test@example.com"[0] != "test@example.com"[0];
    }
  }
}
