/**
 * PasswordResetChangePasswordServlet: the page a reset link opens. It shows
 * a form for a live token and, on submission, sets the new password and
 * invalidates every token of the user.
 */
module ChangePasswordServlet {
  import opened Base
  import opened Accounts
  import opened Properties
  import opened TokenManager
  import opened Web

  /** The submitted form. Error texts are message keys; "" means no error. */
  datatype Form = Form(
    userId: string,
    token: string,
    newPassword: string,
    newPasswordError: string,
    newPasswordConfirmation: string,
    newPasswordConfirmationError: string,
    valid: bool)

  /**
   * validateNewPassword: shorter than MIN_LENGTH is too short; when
   * MAX_LENGTH is positive, longer than it is too long; MAX_LENGTH 0 means
   * no upper bound.
   */
  function ValidateNewPassword(password: string, minLength: int, maxLength: int): (error: string)
    ensures |password| < minLength ==> error == "passwordreset.change-password.new-password-too-short"
    ensures |password| >= minLength && maxLength > 0 && |password| > maxLength ==>
      error == "passwordreset.change-password.new-password-too-long"
    ensures error == "" <==> minLength <= |password| && (maxLength <= 0 || |password| <= maxLength)
  {
    if |password| < minLength then "passwordreset.change-password.new-password-too-short"
    else if maxLength > 0 && |password| > maxLength then "passwordreset.change-password.new-password-too-long"
    else ""
  }

  /** validateNewPasswordConfirmation: the confirmation must repeat the password exactly. */
  function ValidateConfirmation(confirmation: string, password: string): (error: string)
    ensures error == "" <==> confirmation == password
    ensures error != "" ==> error == "passwordreset.change-password.password-confirmation-no-match"
  {
    if confirmation != password then "passwordreset.change-password.password-confirmation-no-match"
    else ""
  }

  /** Form(request): the submitted fields, validated against the configured lengths. */
  function FormFromRequest(params: Params, config: Config): (form: Form)
    ensures form.userId == Param(params, "userId") && form.token == Param(params, "token")
    ensures form.newPassword == Param(params, "newPassword")
    ensures form.newPasswordConfirmation == Param(params, "newPasswordConfirmation")
    ensures form.newPasswordError == ValidateNewPassword(form.newPassword, config.minLength, config.maxLength)
    ensures form.newPasswordConfirmationError == ValidateConfirmation(form.newPasswordConfirmation, form.newPassword)
    ensures form.valid <==>
      && config.minLength <= |form.newPassword|
      && (config.maxLength <= 0 || |form.newPassword| <= config.maxLength)
      && Param(params, "newPasswordConfirmation") == form.newPassword
  {
    var password := Param(params, "newPassword");
    var passwordError := ValidateNewPassword(password, config.minLength, config.maxLength);
    var confirmation := Param(params, "newPasswordConfirmation");
    var confirmationError := ValidateConfirmation(confirmation, password);
    Form(Param(params, "userId"), Param(params, "token"),
      password, passwordError, confirmation, confirmationError,
      passwordError == "" && confirmationError == "")
  }

  /** Form(user, token): the empty form shown for a live token. */
  function FormForUser(user: User, token: string): (form: Form)
    ensures form.valid && form.userId == user.username && form.token == token
    ensures form.newPassword == "" && form.newPasswordConfirmation == ""
  {
    Form(user.username, token, "", "", "", "", true)
  }

  /**
   * The guard handleUpdate applies before touching anything: the token
   * resolves, and to the account the form names.
   */
  predicate Authorizes(t: seq<TokenRecord>, users: seq<User>, form: Form, now: int)
    ensures Authorizes(t, users, form, now) ==>
      exists x :: x in t && x.token == form.token && x.userId == form.userId && x.expires >= now
  {
    ResolveSound(t, users, form.token, now);
    var owner := Resolve(t, users, form.token, now);
    owner.Some? && owner.value.username == form.userId
  }

  /** What the browser gets. */
  datatype Page =
    | ChangePasswordPage(form: Form, notice: Option<Flash>)
    | BadTokenPage
    | ErrorPage
    | Redirect(flash: Flash)

  const Failed: Flash := Flash(ErrorMessage, "passwordreset.change-password.failed")
  const PasswordChanged: Flash := Flash(SuccessMessage, "passwordreset.change-password.password-changed")

  /**
   * doGet: the form for a token that resolves, the bad-token page for one
   * that does not, the error page when the database fails.
   */
  method DoGet(manager: PasswordResetTokenManager, params: Params, users: seq<User>,
               now: int, fault: StorageFault)
    returns (page: Page)
    modifies manager
    ensures fault != Healthy ==> page == ErrorPage
    ensures
      var token := Param(params, "token");
      var owner := Resolve(old(manager.table), users, token, now);
      fault == Healthy ==>
        page == (if owner.Some? then ChangePasswordPage(FormForUser(owner.value, token), None) else BadTokenPage)
    ensures fault == FailsAtPurge ==> manager.table == old(manager.table)
    ensures fault != FailsAtPurge ==> manager.table == Purged(old(manager.table), now)
  {
    var token := Param(params, "token");
    var lookup := manager.GetUser(token, users, now, fault);
    match lookup
    case SqlFailure =>
      page := ErrorPage;
    case Success(owner) =>
      if owner.Some? {
        page := ChangePasswordPage(FormForUser(owner.value, token), None);
      } else {
        page := BadTokenPage;
      }
  }

  /**
   * handleUpdate: for a valid form whose token resolves to the named user,
   * set the password and then delete the user's tokens. Nothing is looked up
   * for an invalid form, and nothing is changed unless the guard holds. The
   * token lookup may fail (`lookupFault`), and so may the deletion
   * (`deleteFails`), which then comes after the password has been set.
   */
  method HandleUpdate(manager: PasswordResetTokenManager, directory: Directory, params: Params,
                      config: Config, now: int, lookupFault: StorageFault, deleteFails: bool)
    returns (page: Page)
    modifies manager, directory
    ensures
      var form := FormFromRequest(params, config);
      !form.valid ==>
        page == ChangePasswordPage(form, None)
        && manager.table == old(manager.table) && directory.passwords == old(directory.passwords)
    ensures
      var form := FormFromRequest(params, config);
      form.valid && lookupFault != Healthy ==>
        page == ChangePasswordPage(form, Some(Failed))
        && directory.passwords == old(directory.passwords)
        && manager.table == (if lookupFault == FailsAtPurge then old(manager.table) else Purged(old(manager.table), now))
    ensures
      var form := FormFromRequest(params, config);
      form.valid && lookupFault == Healthy && !Authorizes(old(manager.table), directory.users, form, now) ==>
        page == BadTokenPage
        && directory.passwords == old(directory.passwords)
        && manager.table == Purged(old(manager.table), now)
    ensures
      var form := FormFromRequest(params, config);
      var live := Purged(old(manager.table), now);
      form.valid && lookupFault == Healthy && Authorizes(old(manager.table), directory.users, form, now) ==>
        directory.passwords == old(directory.passwords)[form.userId := form.newPassword]
        && manager.table == (if deleteFails then live else WithoutUser(live, form.userId))
        && page == ChangePasswordPage(form, Some(if deleteFails then Failed else PasswordChanged))
    ensures directory.passwords != old(directory.passwords) ==>
      var form := FormFromRequest(params, config);
      form.valid && lookupFault == Healthy && Authorizes(old(manager.table), directory.users, form, now)
    ensures page == ChangePasswordPage(FormFromRequest(params, config), Some(PasswordChanged)) ==>
      forall later :: !Authorizes(manager.table, directory.users, FormFromRequest(params, config), later)
  {
    var form := FormFromRequest(params, config);
    if !form.valid {
      page := ChangePasswordPage(form, None);
      return;
    }
    var lookup := manager.GetUser(form.token, directory.users, now, lookupFault);
    if lookup.SqlFailure? {
      page := ChangePasswordPage(form, Some(Failed));
      return;
    }
    var owner := lookup.value;
    if owner.None? || owner.value.username != form.userId {
      page := BadTokenPage;
      return;
    }
    var user := owner.value;
    directory.SetPassword(user, form.newPassword);
    var deleted := manager.DeleteTokens(user, deleteFails);
    if deleted.SqlFailure? {
      page := ChangePasswordPage(form, Some(Failed));
    } else {
      page := ChangePasswordPage(form, Some(PasswordChanged));
      forall later | true
        ensures !Authorizes(manager.table, directory.users, form, later)
      {
        DeletedUserNeverResolves(Purged(old(manager.table), now), directory.users, user.username, form.token, later);
      }
    }
  }

  /** doPost: cancel, then update, then an unknown action. */
  method DoPost(manager: PasswordResetTokenManager, directory: Directory, params: Params,
                config: Config, now: int, lookupFault: StorageFault, deleteFails: bool)
    returns (page: Page)
    modifies manager, directory
    ensures "cancel" in params ==>
      page == Redirect(Flash(WarningMessage, "passwordreset.change-password.cancelled"))
    ensures "cancel" !in params && "update" !in params ==>
      page == Redirect(Flash(ErrorMessage, "passwordreset.change-password.unknown-action"))
    ensures "update" !in params || "cancel" in params ==>
      manager.table == old(manager.table) && directory.passwords == old(directory.passwords)
    ensures
      var form := FormFromRequest(params, config);
      var live := Purged(old(manager.table), now);
      "cancel" !in params && "update" in params ==>
        if !form.valid then
          page == ChangePasswordPage(form, None)
          && manager.table == old(manager.table) && directory.passwords == old(directory.passwords)
        else if lookupFault != Healthy then
          page == ChangePasswordPage(form, Some(Failed))
          && directory.passwords == old(directory.passwords)
          && manager.table == (if lookupFault == FailsAtPurge then old(manager.table) else live)
        else if !Authorizes(old(manager.table), directory.users, form, now) then
          page == BadTokenPage
          && directory.passwords == old(directory.passwords) && manager.table == live
        else
          directory.passwords == old(directory.passwords)[form.userId := form.newPassword]
          && manager.table == (if deleteFails then live else WithoutUser(live, form.userId))
          && page == ChangePasswordPage(form, Some(if deleteFails then Failed else PasswordChanged))
    ensures directory.passwords != old(directory.passwords) ==>
      var form := FormFromRequest(params, config);
      "cancel" !in params && "update" in params
      && form.valid && lookupFault == Healthy && Authorizes(old(manager.table), directory.users, form, now)
    ensures page == ChangePasswordPage(FormFromRequest(params, config), Some(PasswordChanged)) ==>
      forall later :: !Authorizes(manager.table, directory.users, FormFromRequest(params, config), later)
  {
    if "cancel" in params {
      page := Redirect(Flash(WarningMessage, "passwordreset.change-password.cancelled"));
    } else if "update" in params {
      page := HandleUpdate(manager, directory, params, config, now, lookupFault, deleteFails);
    } else {
      page := Redirect(Flash(ErrorMessage, "passwordreset.change-password.unknown-action"));
    }
  }

  // -----------------------------------------------------------------------
  // Properties of the rules
  // -----------------------------------------------------------------------

  /**
   * With the default lengths (at least 8, no maximum) a password is
   * acceptable exactly when it has eight characters or more.
   */
  lemma DefaultLengthsNeedEightCharacters(password: string)
    ensures ValidateNewPassword(password, Defaults.minLength, Defaults.maxLength) == "" <==> |password| >= 8
  {
  }

  /**
   * Once a link has changed a password, the user's tokens are gone: at any
   * later time the same token either resolves to nobody or to another user,
   * so resubmitting the form meets the bad-token page.
   */
  lemma SpentLinkNeverAuthorizesAgain(t: seq<TokenRecord>, users: seq<User>, form: Form, now: int, later: int)
    ensures !Authorizes(WithoutUser(Purged(t, now), form.userId), users, form, later)
  {
    DeletedUserNeverResolves(Purged(t, now), users, form.userId, form.token, later);
  }

  /** A form whose token belongs to someone else never authorizes a change for the named user. */
  lemma OtherUsersTokenRejected(t: seq<TokenRecord>, users: seq<User>, form: Form, now: int)
    requires forall x :: x in t && x.token == form.token ==> x.userId != form.userId
    ensures !Authorizes(t, users, form, now)
  {
    ResolveSound(t, users, form.token, now);
  }
}
