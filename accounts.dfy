/**
 * The parts of Openfire's user store the plugin touches: accounts looked
 * up by username, listed in the provider's order, and their passwords.
 */
module Accounts {
  import opened Base

  /** An Openfire account: username, display name and an optional email. */
  datatype User = User(username: string, name: string, email: Option<string>)

  /**
   * UserManager.getUser(username): the account with that username, or
   * nothing where Openfire throws UserNotFoundException.
   */
  function LookupUser(users: seq<User>, username: string): (r: Option<User>)
    ensures r.Some? ==> r.value in users && r.value.username == username
    ensures r.None? ==> forall u :: u in users ==> u.username != username
  {
    if users == [] then None
    else if users[0].username == username then Some(users[0])
    else LookupUser(users[1..], username)
  }

  /**
   * The user provider: a fixed list of accounts, in the order that
   * UserManager.getUsers pages through them, and the stored passwords.
   */
  class Directory {
    const users: seq<User>
    var passwords: map<string, string>

    constructor (users: seq<User>, passwords: map<string, string>)
      ensures this.users == users && this.passwords == passwords
    {
      this.users := users;
      this.passwords := passwords;
    }

    /** User.setPassword: the user's stored password becomes `password`. */
    method SetPassword(user: User, password: string)
      modifies this
      ensures passwords == old(passwords)[user.username := password]
    {
      passwords := passwords[user.username := password];
    }
  }
}

/**
 * The plugin's configuration properties, as one value. The initial value is
 * each property's declared default.
 */
module Properties {

  /** Milliseconds in a minute, an hour and a day. */
  const Minute: int := 60_000
  const Hour: int := 3_600_000
  const Day: int := 86_400_000

  datatype Config = Config(
    enabled: bool,
    server: string,
    senderName: string,
    senderAddress: string,
    subject: string,
    body: string,
    expiryMillis: int,
    minLength: int,
    maxLength: int)

  /** The literal parts of the default email body, around its three placeholders. */
  const BodyGreeting: string := "Dear "
  const BodyIntro: string := "\n\nTo reset the password for your "
  const BodyMiddle: string := " Openfire account, simply go to "
  const BodyTail: string :=
    " at any time in the next five" + " hours. After this time, you"
    + " will need to request another" + " reset email is sent to you."

  const Defaults: Config := Config(
    false,
    "",
    "Openfire",
    "admin@example.com",
    "Openfire password reset",
    BodyGreeting + ("${userName}" + (BodyIntro + ("${userId}" + (BodyMiddle + ("${url}" + BodyTail))))),
    5 * Hour,
    8,
    0)
}
