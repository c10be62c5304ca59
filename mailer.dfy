/**
 * PasswordResetMailer: whether a reset email goes out, and what it says.
 * The email service is an output: SendEmail returns the message it would
 * hand to EmailService.sendMessage, or nothing.
 */
module Mailer {
  import opened Base
  import opened Text
  import opened Accounts
  import opened Properties

  /**
   * Domains mail is never sent to. The match is a plain suffix test on the
   * lower-cased address, not a test on whole domain labels.
   */
  const IgnoredDomains: seq<string> := [
    "example.com",
    "example.net",
    "example.org",
    "example.edu",
    "local",
    "example",
    "invalid",
    "localhost",
    "test"
  ]

  /** The message handed to the email service. */
  datatype Email = Email(
    toName: string,
    toAddress: string,
    fromName: string,
    fromAddress: string,
    subject: string,
    body: string)

  /** The address ends, ignoring case, with one of the ignored domains. */
  predicate HasIgnoredSuffix(email: string) {
    exists d :: d in IgnoredDomains && EndsWith(ToLower(email), d)
  }

  /** The send/skip decision: a non-empty email without an ignored suffix. */
  predicate ShouldSend(email: Option<string>) {
    email.Some? && email.value != "" && !HasIgnoredSuffix(email.value)
  }

  /** The link in the message: the configured server plus the change-password page. */
  function ResetUrl(server: string, token: string): (url: string)
    ensures StartsWith(url, server)
    ensures EndsWith(url, token)
    ensures |url| == |server| + |"/change-password?token="| + |token|
    ensures url[|server|..|url| - |token|] == "/change-password?token="
  {
    server + "/change-password?token=" + token
  }

  /** substitute: the four placeholders, replaced in this order. */
  function Substitute(template: string, user: User, email: string, url: string): string {
    var withUrl := ReplaceAll(template, "${url}", url);
    var withId := ReplaceAll(withUrl, "${userId}", user.username);
    var withName := ReplaceAll(withId, "${userName}", user.name);
    ReplaceAll(withName, "${userEmail}", email)
  }

  /**
   * The message sent to `user`: addressed to the user's name and email, from
   * the configured sender, with the templates filled in for this token.
   */
  function Compose(user: User, token: string, config: Config): (m: Email)
    requires user.email.Some?
    ensures m.toName == user.name && m.toAddress == user.email.value
    ensures m.fromName == config.senderName && m.fromAddress == config.senderAddress
    ensures m.subject == Substitute(config.subject, user, user.email.value, ResetUrl(config.server, token))
    ensures m.body == Substitute(config.body, user, user.email.value, ResetUrl(config.server, token))
  {
    var email := user.email.value;
    var url := ResetUrl(config.server, token);
    Email(user.name, email, config.senderName, config.senderAddress,
      Substitute(config.subject, user, email, url),
      Substitute(config.body, user, email, url))
  }

  /** What sendEmail hands to the email service: the composed message, or nothing. */
  function Outgoing(user: User, token: string, config: Config): Option<Email> {
    if ShouldSend(user.email) then Some(Compose(user, token, config)) else None
  }

  /**
   * sendEmail: nothing for a missing or empty address or an ignored domain;
   * otherwise exactly one message, the composed one.
   */
  method SendEmail(user: User, token: string, config: Config) returns (sent: Option<Email>)
    ensures sent.Some? <==> ShouldSend(user.email)
    ensures sent.Some? ==> sent.value == Compose(user, token, config)
    ensures sent == Outgoing(user, token, config)
  {
    if user.email.None? || user.email.value == "" {
      return None;
    }
    var email := user.email.value;
    var lowerCaseEmail := ToLower(email);
    var i := 0;
    while i < |IgnoredDomains|
      invariant 0 <= i <= |IgnoredDomains|
      invariant forall k :: 0 <= k < i ==> !EndsWith(lowerCaseEmail, IgnoredDomains[k])
    {
      if EndsWith(lowerCaseEmail, IgnoredDomains[i]) {
        return None;
      }
      i := i + 1;
    }
    var url := ResetUrl(config.server, token);
    var subject := Substitute(config.subject, user, email, url);
    var body := Substitute(config.body, user, email, url);
    sent := Some(Email(user.name, email, config.senderName, config.senderAddress, subject, body));
  }

  // -----------------------------------------------------------------------
  // Properties of the decision and of the substitution
  // -----------------------------------------------------------------------

  /** The decision depends on the address only up to case. */
  lemma DecisionIgnoresCase(email: string)
    ensures HasIgnoredSuffix(email) <==> HasIgnoredSuffix(ToLower(email))
  {
    ToLowerFixesLower(email);
  }

  /** An address in one of the reserved domains is never mailed, in any case. */
  lemma ReservedDomainsSuppressed(local: string, d: string)
    requires d in IgnoredDomains
    ensures !ShouldSend(Some(local + "@" + d))
  {
    var e := local + "@" + d;
    assert IsLower(d);
    ToLowerFixesLower(d);
    assert e[|e| - |d|..] == d;
    assert ToLower(e)[|e| - |d|..] == ToLower(d);
  }

  /** "user@EXAMPLE.COM" is suppressed: matching is case-insensitive. */
  lemma UpperCaseAddressSuppressed()
    ensures !ShouldSend(Some("user@EXAMPLE.COM"))
  {
    var e := "user@EXAMPLE.COM";
    assert ToLower(e)[|e| - 11..] == "example.com";
    assert "example.com" in IgnoredDomains && EndsWith(ToLower(e), "example.com");
  }

  /**
   * The suffix test does not look at label boundaries: an address in
   * notexample.com, or in a domain that merely ends in "test", is suppressed.
   */
  lemma SuffixMatchIgnoresLabels()
    ensures !ShouldSend(Some("user@notexample.com"))
    ensures !ShouldSend(Some("x@contest"))
  {
    var a := "user@notexample.com";
    assert ToLower(a)[|a| - 11..] == "example.com";
    assert "example.com" in IgnoredDomains && EndsWith(ToLower(a), "example.com");
    var b := "x@contest";
    assert ToLower(b)[|b| - 4..] == "test";
    assert "test" in IgnoredDomains && EndsWith(ToLower(b), "test");
  }

  /** An ordinary address is mailed: the test user at domain.com. */
  lemma OrdinaryAddressMailed()
    ensures ShouldSend(Some("test@domain.com"))
  {
    var e := "test@domain.com";
    ToLowerFixesLower(e);
    assert ToLower(e) == e;
    forall d | d in IgnoredDomains ensures !EndsWith(e, d) {
      if |d| <= |e| {
        assert e[|e| - |d|..] != d by {
          assert e[|e| - 1] == 'm';
          assert e[|e| - 3] == 'c';
          assert e[|e| - 4] == '.';
        }
      }
    }
  }

  /** A template without placeholders goes out verbatim. */
  lemma PlainTemplateUnchanged(template: string, user: User, email: string, url: string)
    requires !Contains(template, "${url}") && !Contains(template, "${userId}")
    requires !Contains(template, "${userName}") && !Contains(template, "${userEmail}")
    ensures Substitute(template, user, email, url) == template
  {
    ReplaceAbsent(template, "${url}", url);
    ReplaceAbsent(template, "${userId}", user.username);
    ReplaceAbsent(template, "${userName}", user.name);
    ReplaceAbsent(template, "${userEmail}", email);
  }

  /** Text free of '$' followed by a placeholder: the placeholder is replaced, the text kept. */
  lemma PlaceholderFilledAfter(prefix: string, placeholder: string, value: string)
    requires |placeholder| > 0 && placeholder[0] == '$' && '$' !in prefix
    ensures ReplaceAll(prefix + placeholder, placeholder, value) == prefix + value
  {
    assert placeholder == placeholder + "";
    ReplaceAfterPlain(prefix, placeholder + "", placeholder, value);
    ReplaceLeadingTarget("", placeholder, value);
    assert value + "" == value;
  }

  /** Text free of '$' followed by another placeholder is left alone by a replacement. */
  lemma OtherPlaceholderAfterPlainKept(prefix: string, p: string, target: string, value: string)
    requires p in Placeholders && target in Placeholders && p != target && '$' !in prefix
    ensures ReplaceAll(prefix + p, target, value) == prefix + p
  {
    PlaceholderShape(target);
    ReplaceAfterPlain(prefix, p, target, value);
    assert p == p + "";
    OtherPlaceholderKept(p, "", target, value);
  }

  /**
   * A placeholder filled with a value that is itself a later placeholder is
   * filled again by the later step.
   */
  lemma PlaceholderFilledTwice(prefix: string, first: string, second: string, value: string)
    requires |first| > 0 && first[0] == '$' && |second| > 0 && second[0] == '$' && '$' !in prefix
    ensures ReplaceAll(ReplaceAll(prefix + first, first, second), second, value) == prefix + value
  {
    PlaceholderFilledAfter(prefix, first, second);
    PlaceholderFilledAfter(prefix, second, value);
  }

  /**
   * The replacements run in order, so a placeholder inside an earlier
   * replacement is itself replaced: with the display name "${userEmail}",
   * "Dear ${userName}" comes out addressed to the email.
   */
  lemma LaterPlaceholdersApplyToEarlierValues(greeting: string, user: User, email: string, url: string)
    requires greeting == "Dear ${userName}"
    requires user.name == "${userEmail}"
    ensures Substitute(greeting, user, email, url) == "Dear " + email
  {
    var name := "${userName}";
    assert greeting == "Dear " + name;
    assert name in Placeholders && name != "${url}" && name != "${userId}";
    OtherPlaceholderAfterPlainKept("Dear ", name, "${url}", url);
    OtherPlaceholderAfterPlainKept("Dear ", name, "${userId}", user.username);
    assert greeting == "Dear " + "${userName}";
    PlaceholderFilledTwice("Dear ", "${userName}", "${userEmail}", email);
  }

  // -----------------------------------------------------------------------
  // Templates read as literal text and placeholders
  // -----------------------------------------------------------------------

  /** The four placeholders, in the order substitute replaces them. */
  const Placeholders: seq<string> := ["${url}", "${userId}", "${userName}", "${userEmail}"]

  /** A piece of a template: literal text, or one of the placeholders. */
  datatype Piece = Literal(text: string) | Placeholder(name: string)

  function PieceText(piece: Piece): string {
    match piece
    case Literal(t) => t
    case Placeholder(p) => p
  }

  /** The template text the pieces spell. */
  function Join(pieces: seq<Piece>): string {
    if pieces == [] then "" else PieceText(pieces[0]) + Join(pieces[1..])
  }

  /** Literal text without '$', or one of the four placeholders. */
  predicate PieceOk(piece: Piece) {
    match piece
    case Literal(t) => '$' !in t
    case Placeholder(p) => p in Placeholders
  }

  predicate WellFormed(pieces: seq<Piece>) {
    forall k :: 0 <= k < |pieces| ==> PieceOk(pieces[k])
  }

  /** One replacement step on the pieces: every `name` becomes literal `value`. */
  function FillOne(pieces: seq<Piece>, name: string, value: string): seq<Piece> {
    if pieces == [] then []
    else
      var head := if pieces[0] == Placeholder(name) then Literal(value) else pieces[0];
      [head] + FillOne(pieces[1..], name, value)
  }

  /** The value substitute puts in place of a placeholder. */
  function ValueOf(name: string, user: User, email: string, url: string): string {
    if name == "${url}" then url
    else if name == "${userId}" then user.username
    else if name == "${userName}" then user.name
    else email
  }

  /** A piece as it should read in the message. */
  function PieceValue(piece: Piece, user: User, email: string, url: string): string {
    match piece
    case Literal(t) => t
    case Placeholder(p) => ValueOf(p, user, email, url)
  }

  /** The intended message text: each placeholder replaced by its value. */
  function Filled(pieces: seq<Piece>, user: User, email: string, url: string): string {
    if pieces == [] then ""
    else PieceValue(pieces[0], user, email, url) + Filled(pieces[1..], user, email, url)
  }

  /** Every placeholder is '$' first, has no other '$', and '}' only last. */
  lemma PlaceholderShape(p: string)
    requires p in Placeholders
    ensures |p| >= 2 && p[0] == '$' && '$' !in p[1..]
    ensures p[|p| - 1] == '}' && '}' !in p[..|p| - 1]
  {
  }

  /**
   * Two different strings that each hold '}' only as their last character:
   * text starting with one never starts with the other.
   */
  lemma NotPrefixByClosingBrace(p: string, rest: string, target: string)
    requires |p| >= 1 && p[|p| - 1] == '}' && '}' !in p[..|p| - 1]
    requires |target| >= 1 && target[|target| - 1] == '}' && '}' !in target[..|target| - 1]
    requires p != target
    ensures !StartsWith(p + rest, target)
  {
    var s := p + rest;
    if |target| <= |s| {
      if |target| < |p| {
        assert p[..|p| - 1][|target| - 1] == p[|target| - 1];
        assert s[..|target|][|target| - 1] != target[|target| - 1];
      } else if |target| == |p| {
        assert s[..|target|] == p;
      } else {
        assert target[..|target| - 1][|p| - 1] == target[|p| - 1];
        assert s[..|target|][|p| - 1] != target[|p| - 1];
      }
    }
  }

  /** Splitting off the first character of a concatenation. */
  lemma ConcatHead(p: string, rest: string)
    requires |p| >= 1
    ensures (p + rest)[0] == p[0] && (p + rest)[1..] == p[1..] + rest
    ensures forall tail: string {:trigger p + tail} :: [p[0]] + (p[1..] + tail) == p + tail
  {
    forall tail: string ensures [p[0]] + (p[1..] + tail) == p + tail {
      assert p == [p[0]] + p[1..];
    }
  }

  /** Text that does not start with the target, and whose tail lacks its first character. */
  lemma KeptWhenNotPrefix(p: string, rest: string, target: string, value: string)
    requires |p| >= 1 && |target| > 0 && target[0] !in p[1..] && !StartsWith(p + rest, target)
    ensures ReplaceAll(p + rest, target, value) == p + ReplaceAll(rest, target, value)
  {
    var s := p + rest;
    var tail := ReplaceAll(rest, target, value);
    if |s| >= |target| {
      ConcatHead(p, rest);
      ReplaceSkipsFirst(s, target, value);
      ReplaceAfterPlain(p[1..], rest, target, value);
      assert ReplaceAll(s, target, value) == [p[0]] + (p[1..] + tail);
    } else {
      ReplaceShort(s, target, value);
      ReplaceShort(rest, target, value);
    }
  }

  /** A placeholder other than the target passes through a replacement unchanged. */
  lemma OtherPlaceholderKept(p: string, rest: string, target: string, value: string)
    requires p in Placeholders && target in Placeholders && p != target
    ensures ReplaceAll(p + rest, target, value) == p + ReplaceAll(rest, target, value)
  {
    PlaceholderShape(p);
    PlaceholderShape(target);
    NotPrefixByClosingBrace(p, rest, target);
    KeptWhenNotPrefix(p, rest, target, value);
  }

  lemma WellFormedTail(pieces: seq<Piece>)
    requires WellFormed(pieces) && pieces != []
    ensures PieceOk(pieces[0]) && WellFormed(pieces[1..])
  {
    forall k | 0 <= k < |pieces| - 1 ensures PieceOk(pieces[1..][k]) {
      assert pieces[1..][k] == pieces[k + 1];
    }
  }

  lemma FillOneTail(pieces: seq<Piece>, name: string, value: string)
    requires pieces != []
    ensures FillOne(pieces, name, value)[0] == (if pieces[0] == Placeholder(name) then Literal(value) else pieces[0])
    ensures FillOne(pieces, name, value)[1..] == FillOne(pieces[1..], name, value)
  {
  }

  /** Filling a placeholder with a value free of '$' keeps the template well formed. */
  lemma {:induction false} FillOneWellFormed(pieces: seq<Piece>, name: string, value: string)
    requires WellFormed(pieces) && '$' !in value
    ensures WellFormed(FillOne(pieces, name, value))
    decreases |pieces|
  {
    if pieces != [] {
      WellFormedTail(pieces);
      FillOneWellFormed(pieces[1..], name, value);
      FillOneTail(pieces, name, value);
      var filled := FillOne(pieces, name, value);
      forall k | 0 <= k < |filled| ensures PieceOk(filled[k]) {
        if k > 0 {
          assert filled[k] == filled[1..][k - 1];
        }
      }
    }
  }

  /**
   * One replacement step on a well-formed template, with a value free of
   * '$', fills exactly the occurrences of that placeholder.
   */
  lemma {:induction false} ReplaceJoin(pieces: seq<Piece>, name: string, value: string)
    requires WellFormed(pieces) && name in Placeholders && '$' !in value
    ensures ReplaceAll(Join(pieces), name, value) == Join(FillOne(pieces, name, value))
    ensures WellFormed(FillOne(pieces, name, value))
    decreases |pieces|
  {
    FillOneWellFormed(pieces, name, value);
    if pieces != [] {
      PlaceholderShape(name);
      var rest := pieces[1..];
      WellFormedTail(pieces);
      ReplaceJoin(rest, name, value);
      FillOneTail(pieces, name, value);
      var filled := FillOne(pieces, name, value);
      assert filled == [filled[0]] + filled[1..];
      JoinCons(filled[0], filled[1..]);
      match pieces[0]
      case Literal(t) =>
        ReplaceAfterPlain(t, Join(rest), name, value);
      case Placeholder(p) =>
        if p == name {
          ReplaceLeadingTarget(Join(rest), name, value);
        } else {
          OtherPlaceholderKept(p, Join(rest), name, value);
        }
    }
  }

  /** The four steps on the pieces give the intended text. */
  lemma {:induction false} FillAllSteps(pieces: seq<Piece>, user: User, email: string, url: string)
    requires WellFormed(pieces)
    ensures Join(FillOne(FillOne(FillOne(FillOne(pieces, "${url}", url), "${userId}", user.username),
                                 "${userName}", user.name), "${userEmail}", email))
            == Filled(pieces, user, email, url)
    decreases |pieces|
  {
    if pieces != [] {
      var rest := pieces[1..];
      WellFormedTail(pieces);
      FillAllSteps(rest, user, email, url);
      var f1 := FillOne(pieces, "${url}", url);
      var f2 := FillOne(f1, "${userId}", user.username);
      var f3 := FillOne(f2, "${userName}", user.name);
      var f4 := FillOne(f3, "${userEmail}", email);
      assert f1[1..] == FillOne(rest, "${url}", url);
      assert f2[1..] == FillOne(f1[1..], "${userId}", user.username);
      assert f3[1..] == FillOne(f2[1..], "${userName}", user.name);
      assert f4[1..] == FillOne(f3[1..], "${userEmail}", email);
    }
  }

  /**
   * substitute fills a template: when the template is literal text without
   * '$' and the four placeholders, and no value contains '$', each
   * placeholder is replaced by its value and nothing else changes.
   */
  lemma SubstituteFillsTemplate(pieces: seq<Piece>, user: User, email: string, url: string)
    requires WellFormed(pieces)
    requires '$' !in url && '$' !in user.username && '$' !in user.name && '$' !in email
    ensures Substitute(Join(pieces), user, email, url) == Filled(pieces, user, email, url)
  {
    var f1 := FillOne(pieces, "${url}", url);
    var f2 := FillOne(f1, "${userId}", user.username);
    var f3 := FillOne(f2, "${userName}", user.name);
    ReplaceJoin(pieces, "${url}", url);
    ReplaceJoin(f1, "${userId}", user.username);
    ReplaceJoin(f2, "${userName}", user.name);
    ReplaceJoin(f3, "${userEmail}", email);
    FillAllSteps(pieces, user, email, url);
  }

  lemma JoinCons(piece: Piece, rest: seq<Piece>)
    ensures Join([piece] + rest) == PieceText(piece) + Join(rest)
  {
    assert ([piece] + rest)[1..] == rest;
  }

  lemma FilledCons(piece: Piece, rest: seq<Piece>, user: User, email: string, url: string)
    ensures Filled([piece] + rest, user, email, url)
      == PieceValue(piece, user, email, url) + Filled(rest, user, email, url)
  {
    assert ([piece] + rest)[1..] == rest;
  }

  /** The default body read as pieces. */
  const DefaultBodyPieces: seq<Piece> := [
    Literal(BodyGreeting), Placeholder("${userName}"), Literal(BodyIntro), Placeholder("${userId}"),
    Literal(BodyMiddle), Placeholder("${url}"), Literal(BodyTail)
  ]

  lemma NoDollarInBodyTail()
    ensures '$' !in BodyTail
  {
    assert '$' !in " at any time in the next five" && '$' !in " hours. After this time, you";
    assert '$' !in " will need to request another" && '$' !in " reset email is sent to you.";
  }

  lemma NoDollarInBodyHead()
    ensures '$' !in BodyGreeting && '$' !in BodyIntro && '$' !in BodyMiddle
  {
  }

  lemma DefaultBodyWellFormed()
    ensures WellFormed(DefaultBodyPieces)
  {
    NoDollarInBodyTail();
    NoDollarInBodyHead();
    forall k | 0 <= k < |DefaultBodyPieces|
      ensures PieceOk(DefaultBodyPieces[k])
    {
    }
  }

  lemma DefaultBodyJoin()
    ensures Join(DefaultBodyPieces) == Defaults.body
  {
    var p6 := [Literal(BodyTail)];
    var p5 := [Placeholder("${url}")] + p6;
    var p4 := [Literal(BodyMiddle)] + p5;
    var p3 := [Placeholder("${userId}")] + p4;
    var p2 := [Literal(BodyIntro)] + p3;
    var p1 := [Placeholder("${userName}")] + p2;
    assert DefaultBodyPieces == [Literal(BodyGreeting)] + p1;
    JoinCons(Literal(BodyTail), []);
    JoinCons(Placeholder("${url}"), p6);
    JoinCons(Literal(BodyMiddle), p5);
    JoinCons(Placeholder("${userId}"), p4);
    JoinCons(Literal(BodyIntro), p3);
    JoinCons(Placeholder("${userName}"), p2);
    JoinCons(Literal(BodyGreeting), p1);
    assert BodyTail + "" == BodyTail;
  }

  lemma DefaultBodyFilledText(user: User, email: string, url: string)
    ensures Filled(DefaultBodyPieces, user, email, url)
      == BodyGreeting + (user.name + (BodyIntro + (user.username + (BodyMiddle + (url + BodyTail)))))
  {
    assert BodyTail + "" == BodyTail;
    var p6 := [Literal(BodyTail)];
    var p5 := [Placeholder("${url}")] + p6;
    var p4 := [Literal(BodyMiddle)] + p5;
    var p3 := [Placeholder("${userId}")] + p4;
    var p2 := [Literal(BodyIntro)] + p3;
    var p1 := [Placeholder("${userName}")] + p2;
    assert DefaultBodyPieces == [Literal(BodyGreeting)] + p1;
    FilledCons(Literal(BodyTail), [], user, email, url);
    FilledCons(Placeholder("${url}"), p6, user, email, url);
    FilledCons(Literal(BodyMiddle), p5, user, email, url);
    FilledCons(Placeholder("${userId}"), p4, user, email, url);
    FilledCons(Literal(BodyIntro), p3, user, email, url);
    FilledCons(Placeholder("${userName}"), p2, user, email, url);
    FilledCons(Literal(BodyGreeting), p1, user, email, url);
  }

  /**
   * The default body, filled in for a user whose name, username, email and
   * link hold no '$': the greeting by display name, the username, and the link.
   */
  lemma DefaultBodyFilled(user: User, email: string, url: string)
    requires '$' !in url && '$' !in user.username && '$' !in user.name && '$' !in email
    ensures Substitute(Defaults.body, user, email, url)
      == BodyGreeting + (user.name + (BodyIntro + (user.username + (BodyMiddle + (url + BodyTail)))))
  {
    DefaultBodyWellFormed();
    DefaultBodyJoin();
    SubstituteFillsTemplate(DefaultBodyPieces, user, email, url);
    DefaultBodyFilledText(user, email, url);
  }
}
