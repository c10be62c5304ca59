/**
 * PasswordResetSendEmailServlet: the public page where a user asks for a
 * reset link by username, JID or email address. Whether or not the
 * identifier names an account, the page reports the email as sent.
 */
module SendEmailServlet {
  import opened Base
  import opened Text
  import opened Accounts
  import opened Properties
  import opened TokenManager
  import opened Mailer
  import opened Web

  /** How many accounts one call to UserManager.getUsers returns at most. */
  const BatchSize: nat := 50

  // -----------------------------------------------------------------------
  // The form
  // -----------------------------------------------------------------------

  /** validateUser: the identifier must not be empty. */
  function ValidateUser(user: string): (error: string)
    ensures error == "" <==> user != ""
    ensures error != "" ==> error == "passwordreset.send-email.no-user"
  {
    if user == "" then "passwordreset.send-email.no-user" else ""
  }

  /** What the page shows of the form. */
  datatype View = View(enabled: bool, user: string, userError: string, emailSent: bool, valid: bool)

  /**
   * The form: fixed once built, except for `emailSent`, which handleSend
   * sets. It is enabled only when the plugin is enabled and the user
   * provider accepts password changes.
   */
  class Form {
    const enabled: bool
    const user: string
    const userError: string
    const valid: bool
    var emailSent: bool

    /** Form(): the blank form. */
    constructor Blank(enabledSetting: bool, readOnly: bool)
      ensures enabled == (enabledSetting && !readOnly)
      ensures user == "" && userError == "" && !emailSent
      ensures valid == enabled
    {
      enabled := enabledSetting && !readOnly;
      user := "";
      userError := "";
      valid := enabledSetting && !readOnly;
      emailSent := false;
    }

    /** Form(request): the submitted identifier, validated. */
    constructor FromRequest(params: Params, enabledSetting: bool, readOnly: bool)
      ensures enabled == (enabledSetting && !readOnly)
      ensures user == Param(params, "user") && userError == ValidateUser(user)
      ensures valid <==> enabledSetting && !readOnly && Param(params, "user") != ""
      ensures !emailSent
    {
      enabled := enabledSetting && !readOnly;
      user := Param(params, "user");
      userError := ValidateUser(Param(params, "user"));
      valid := (enabledSetting && !readOnly) && ValidateUser(Param(params, "user")) == "";
      emailSent := false;
    }

    function Shown(): (v: View)
      reads this
      ensures v.emailSent == emailSent && v.user == user && v.valid == valid
    {
      View(enabled, user, userError, emailSent, valid)
    }
  }

  // -----------------------------------------------------------------------
  // Finding the account
  // -----------------------------------------------------------------------

  /** The identifier equals the account's email, ignoring case. */
  predicate EmailMatches(identifier: string, u: User) {
    EqualsIgnoreCase(identifier, u.email)
  }

  /** The position of the first account whose email matches, in provider order. */
  function FirstMatchIndex(users: seq<User>, identifier: string): (r: Option<nat>)
    ensures r.Some? ==> r.value < |users| && EmailMatches(identifier, users[r.value])
    ensures r.Some? ==> forall j :: 0 <= j < r.value ==> !EmailMatches(identifier, users[j])
    ensures r.None? ==> forall j :: 0 <= j < |users| ==> !EmailMatches(identifier, users[j])
  {
    if users == [] then None
    else if EmailMatches(identifier, users[0]) then Some(0)
    else match FirstMatchIndex(users[1..], identifier)
      case None => None
      case Some(i) => Some(i + 1)
  }

  /** The account the email search finds: the first with a matching email. */
  function FirstWithEmail(users: seq<User>, identifier: string): (r: Option<User>)
    ensures r.Some? ==> r.value in users && EmailMatches(identifier, r.value)
    ensures r.None? ==> forall u :: u in users ==> !EmailMatches(identifier, u)
  {
    match FirstMatchIndex(users, identifier)
    case None => None
    case Some(i) => Some(users[i])
  }

  /** UserManager.getUsers(start, count): up to `count` accounts from position `start`. */
  function UsersPage(users: seq<User>, start: nat, count: nat): (batch: seq<User>)
    ensures batch == [] <==> start >= |users| || count == 0
    ensures |batch| <= count
    ensures forall j :: 0 <= j < |batch| ==> start + j < |users| && batch[j] == users[start + j]
  {
    if start >= |users| then []
    else if start + count <= |users| then users[start..start + count]
    else users[start..]
  }

  /** getUserFromEmail: pages through the accounts 50 at a time and stops at the first match. */
  method GetUserFromEmail(users: seq<User>, userEmail: string) returns (found: Option<User>)
    ensures found == FirstWithEmail(users, userEmail)
  {
    var currentIndex: nat := 0;
    var batch := UsersPage(users, currentIndex, BatchSize);
    while batch != []
      invariant batch == UsersPage(users, currentIndex, BatchSize)
      invariant forall k :: 0 <= k < currentIndex && k < |users| ==> !EmailMatches(userEmail, users[k])
      decreases |users| - currentIndex
    {
      var j := 0;
      while j < |batch|
        invariant 0 <= j <= |batch|
        invariant forall k :: 0 <= k < currentIndex + j && k < |users| ==> !EmailMatches(userEmail, users[k])
      {
        if EqualsIgnoreCase(userEmail, batch[j].email) {
          return Some(batch[j]);
        }
        j := j + 1;
      }
      currentIndex := currentIndex + BatchSize;
      batch := UsersPage(users, currentIndex, BatchSize);
    }
    return None;
  }

  /** The first position of character c in s. */
  function IndexOfChar(s: string, c: char): (r: Option<nat>)
    ensures r.Some? ==> r.value < |s| && s[r.value] == c && c !in s[..r.value]
    ensures r.None? <==> c !in s
  {
    if s == [] then None
    else if s[0] == c then Some(0)
    else match IndexOfChar(s[1..], c)
      case None => None
      case Some(i) =>
        assert s[..i + 1] == [s[0]] + s[1..][..i];
        Some(i + 1)
  }

  /** The parts of a JID that the lookup uses: the node, if any, and the domain. */
  datatype Jid = Jid(node: Option<string>, domain: string)

  /**
   * new JID(identifier) for an identifier containing '@': the node is the text
   * before the first '@' (none when that is empty), the domain the text after
   * it up to any '/' resource separator.
   */
  function ParseJid(identifier: string): (jid: Jid)
    requires '@' in identifier
    ensures jid.node.None? <==> identifier[0] == '@'
    ensures jid.node.Some? ==> '@' !in jid.node.value && StartsWith(identifier, jid.node.value + "@")
    ensures '/' !in jid.domain
    ensures
      var rest := identifier[IndexOfChar(identifier, '@').value + 1..];
      StartsWith(rest, jid.domain) && (|jid.domain| == |rest| || rest[|jid.domain|] == '/')
  {
    var at := IndexOfChar(identifier, '@').value;
    var node := if at > 0 then Some(identifier[..at]) else None;
    var rest := identifier[at + 1..];
    var domain := match IndexOfChar(rest, '/')
      case Some(k) => rest[..k]
      case None => rest;
    Jid(node, domain)
  }

  /** XMPPServer.isLocal: the JID's domain is this server's XMPP domain. */
  predicate IsLocal(jid: Jid, xmppDomain: string) {
    jid.domain == xmppDomain
  }

  /**
   * getUserFromIdentifier as a function: without '@', the account with that
   * username; with '@', the account named by the node of a local JID, and
   * failing that the email search.
   */
  function IdentifiedUser(users: seq<User>, identifier: string, xmppDomain: string): (r: Option<User>)
    ensures '@' !in identifier ==> r == LookupUser(users, identifier)
    ensures '@' in identifier && !IsLocal(ParseJid(identifier), xmppDomain) ==>
      r == FirstWithEmail(users, identifier)
    ensures r.Some? ==> r.value in users
  {
    if '@' in identifier then
      var jid := ParseJid(identifier);
      var fromJid := if IsLocal(jid, xmppDomain) && jid.node.Some? then LookupUser(users, jid.node.value) else None;
      if fromJid.Some? then fromJid else FirstWithEmail(users, identifier)
    else
      LookupUser(users, identifier)
  }

  /** getUserFromIdentifier. */
  method GetUserFromIdentifier(users: seq<User>, userIdentifier: string, xmppDomain: string)
    returns (found: Option<User>)
    ensures found == IdentifiedUser(users, userIdentifier, xmppDomain)
  {
    if '@' in userIdentifier {
      var jid := ParseJid(userIdentifier);
      if IsLocal(jid, xmppDomain) && jid.node.Some? {
        var fromJid := LookupUser(users, jid.node.value);
        if fromJid.Some? {
          return fromJid;
        }
      }
      found := GetUserFromEmail(users, userIdentifier);
    } else {
      found := LookupUser(users, userIdentifier);
    }
  }

  // -----------------------------------------------------------------------
  // The servlet
  // -----------------------------------------------------------------------

  /** The page rendered: the form and an optional flash message. */
  datatype Page = SendEmailPage(form: View, notice: Option<Flash>)

  const Failed: Flash := Flash(ErrorMessage, "passwordreset.send-email.failed")

  /**
   * handleSend: for an account found from the identifier, store a new token
   * and mail the link. The form reports the email as sent whether or not an
   * account was found; only a database failure while storing the token
   * leaves it unsent, with an error message.
   */
  method HandleSend(form: Form, manager: PasswordResetTokenManager, users: seq<User>,
                    xmppDomain: string, config: Config, remoteAddr: string, now: int,
                    randomToken: string, fault: StorageFault)
    returns (page: Page, sent: Option<Email>)
    requires |randomToken| == TokenLength
    modifies form, manager
    ensures
      var found := IdentifiedUser(users, form.user, xmppDomain);
      var failed := found.Some? && fault != Healthy;
      && form.emailSent == (if failed then old(form.emailSent) else true)
      && page == SendEmailPage(form.Shown(), if failed then Some(Failed) else None)
    ensures
      var found := IdentifiedUser(users, form.user, xmppDomain);
      found.None? ==> manager.table == old(manager.table) && sent == None
    ensures
      var found := IdentifiedUser(users, form.user, xmppDomain);
      found.Some? && fault == Healthy ==>
        manager.table == Purged(old(manager.table), now)
          + [TokenRecord(randomToken, found.value.username, remoteAddr, now + config.expiryMillis)]
        && sent == Outgoing(found.value, randomToken, config)
    ensures
      var found := IdentifiedUser(users, form.user, xmppDomain);
      found.Some? && fault != Healthy ==>
        sent == None
        && manager.table == (if fault == FailsAtPurge then old(manager.table) else Purged(old(manager.table), now))
  {
    var found := GetUserFromIdentifier(users, form.user, xmppDomain);
    sent := None;
    if found.Some? {
      var user := found.value;
      var token := manager.GenerateToken(user, remoteAddr, now, config.expiryMillis, randomToken, fault);
      if token.SqlFailure? {
        page := SendEmailPage(form.Shown(), Some(Failed));
        return;
      }
      assert token.value == randomToken;
      sent := SendEmail(user, token.value, config);
    }
    form.emailSent := true;
    page := SendEmailPage(form.Shown(), None);
  }

  /** doGet: the blank form. */
  method DoGet(enabledSetting: bool, readOnly: bool) returns (page: Page)
    ensures page == SendEmailPage(View(enabledSetting && !readOnly, "", "", false, enabledSetting && !readOnly), None)
  {
    var form := new Form.Blank(enabledSetting, readOnly);
    page := SendEmailPage(form.Shown(), None);
  }

  /**
   * doPost: a valid form goes to handleSend; an invalid one (the feature
   * disabled, or no identifier) is shown again and nothing else happens.
   */
  method DoPost(params: Params, enabledSetting: bool, readOnly: bool,
                manager: PasswordResetTokenManager, users: seq<User>, xmppDomain: string,
                config: Config, remoteAddr: string, now: int, randomToken: string, fault: StorageFault)
    returns (page: Page, sent: Option<Email>)
    requires |randomToken| == TokenLength
    modifies manager
    ensures !(enabledSetting && !readOnly && Param(params, "user") != "") ==>
      && page.form == View(enabledSetting && !readOnly, Param(params, "user"),
                           ValidateUser(Param(params, "user")), false, false)
      && page.notice == None && sent == None && manager.table == old(manager.table)
    ensures (fault == Healthy || IdentifiedUser(users, Param(params, "user"), xmppDomain).None?) ==>
      page.form.emailSent == page.form.valid && page.notice == None
    ensures
      var valid := enabledSetting && !readOnly && Param(params, "user") != "";
      valid && (fault == Healthy || IdentifiedUser(users, Param(params, "user"), xmppDomain).None?) ==>
        page == SendEmailPage(View(true, Param(params, "user"), "", true, true), None)
    ensures
      var valid := enabledSetting && !readOnly && Param(params, "user") != "";
      valid && IdentifiedUser(users, Param(params, "user"), xmppDomain).Some? && fault != Healthy ==>
        page == SendEmailPage(View(true, Param(params, "user"), "", false, true), Some(Failed))
    ensures
      var valid := enabledSetting && !readOnly && Param(params, "user") != "";
      var found := IdentifiedUser(users, Param(params, "user"), xmppDomain);
      valid && found.None? ==> manager.table == old(manager.table) && sent == None
    ensures
      var valid := enabledSetting && !readOnly && Param(params, "user") != "";
      var found := IdentifiedUser(users, Param(params, "user"), xmppDomain);
      valid && found.Some? && fault == Healthy ==>
        manager.table == Purged(old(manager.table), now)
          + [TokenRecord(randomToken, found.value.username, remoteAddr, now + config.expiryMillis)]
        && sent == Outgoing(found.value, randomToken, config)
    ensures
      var valid := enabledSetting && !readOnly && Param(params, "user") != "";
      var found := IdentifiedUser(users, Param(params, "user"), xmppDomain);
      valid && found.Some? && fault != Healthy ==>
        sent == None && page.notice == Some(Failed) && !page.form.emailSent
        && manager.table == (if fault == FailsAtPurge then old(manager.table) else Purged(old(manager.table), now))
  {
    var form := new Form.FromRequest(params, enabledSetting, readOnly);
    if form.valid {
      page, sent := HandleSend(form, manager, users, xmppDomain, config, remoteAddr, now, randomToken, fault);
    } else {
      page := SendEmailPage(form.Shown(), None);
      sent := None;
    }
  }

  // -----------------------------------------------------------------------
  // Properties of the lookup
  // -----------------------------------------------------------------------

  /** Upper- and lower-case forms of an address find the same account. */
  lemma {:induction false} EmailSearchIgnoresCase(users: seq<User>, a: string, b: string)
    requires ToLower(a) == ToLower(b)
    ensures FirstMatchIndex(users, a) == FirstMatchIndex(users, b)
    ensures FirstWithEmail(users, a) == FirstWithEmail(users, b)
  {
    if users != [] {
      EmailSearchIgnoresCase(users[1..], a, b);
    }
  }

  /** The search returns the earliest matching account in provider order. */
  lemma EmailSearchFindsEarliest(users: seq<User>, identifier: string, i: nat)
    requires i < |users| && EmailMatches(identifier, users[i])
    requires forall j :: 0 <= j < i ==> !EmailMatches(identifier, users[j])
    ensures FirstWithEmail(users, identifier) == Some(users[i])
  {
    assert FirstMatchIndex(users, identifier).Some?;
  }

  /**
   * A local JID whose node names an account resolves to that account, even
   * when another account has the identifier as its email.
   */
  lemma LocalJidPreferredToEmail(users: seq<User>, node: string, xmppDomain: string, u: User)
    requires node != "" && '@' !in node && '/' !in xmppDomain
    requires LookupUser(users, node) == Some(u)
    ensures IdentifiedUser(users, node + "@" + xmppDomain, xmppDomain) == Some(u)
  {
    var identifier := node + "@" + xmppDomain;
    assert identifier[|node|] == '@';
    assert '@' in identifier;
    var at := IndexOfChar(identifier, '@').value;
    assert identifier[..|node|] == node;
    assert at == |node|;
    assert identifier[at + 1..] == xmppDomain;
  }

  /**
   * The lookup rule for a local JID: the account its node names, and the
   * email search when there is no node or no such account.
   */
  lemma LocalJidLookup(users: seq<User>, identifier: string, xmppDomain: string)
    requires '@' in identifier && IsLocal(ParseJid(identifier), xmppDomain)
    ensures ParseJid(identifier).node.Some? && LookupUser(users, ParseJid(identifier).node.value).Some? ==>
      IdentifiedUser(users, identifier, xmppDomain) == LookupUser(users, ParseJid(identifier).node.value)
    ensures ParseJid(identifier).node.None? || LookupUser(users, ParseJid(identifier).node.value).None? ==>
      IdentifiedUser(users, identifier, xmppDomain) == FirstWithEmail(users, identifier)
  {
  }

  /** A local JID whose node names no account falls back to the email search. */
  lemma LocalJidFallsBackToEmail(users: seq<User>, node: string, xmppDomain: string)
    requires '@' !in node && '/' !in xmppDomain
    requires LookupUser(users, node).None?
    ensures IdentifiedUser(users, node + "@" + xmppDomain, xmppDomain) == FirstWithEmail(users, node + "@" + xmppDomain)
  {
    var identifier := node + "@" + xmppDomain;
    assert identifier[|node|] == '@';
    assert '@' in identifier;
    var at := IndexOfChar(identifier, '@').value;
    assert identifier[..|node|] == node;
    assert at == |node|;
    assert identifier[at + 1..] == xmppDomain;
  }

  /** An identifier without '@' is only ever a username: no email search. */
  lemma BareNameNeverSearchesEmail(users: seq<User>, identifier: string, xmppDomain: string)
    requires '@' !in identifier
    requires forall u :: u in users ==> u.username != identifier
    ensures IdentifiedUser(users, identifier, xmppDomain) == None
  {
  }
}
