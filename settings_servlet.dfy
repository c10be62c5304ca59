/**
 * PasswordResetSettingsServlet: the admin console page that shows and
 * updates the plugin's configuration, and sends a test email.
 *
 * The form (`Dto`) is a value built either from the stored configuration or
 * from the submitted request parameters; its validators are pure functions
 * of the submitted strings. Error texts are the message keys that the
 * servlet hands to `localize`.
 */
module SettingsServlet {
  import opened Base
  import opened Text
  import opened Accounts
  import opened Properties
  import opened Mailer
  import opened Web

  /** The longest value a text property may hold. */
  const MaxPropLength: int := 4000

  /** The token in the test email: it does not resolve to any user. */
  const TestToken: string := "for-test-use-only"

  /** The names java.time.temporal.ChronoUnit.valueOf accepts. */
  const ChronoUnitNames: seq<string> := [
    "NANOS", "MICROS", "MILLIS", "SECONDS", "MINUTES", "HOURS", "HALF_DAYS", "DAYS",
    "WEEKS", "MONTHS", "YEARS", "DECADES", "CENTURIES", "MILLENNIA", "ERAS", "FOREVER"
  ]

  /** The expiry units the form accepts. */
  const SupportedUnits: seq<string> := ["MINUTES", "HOURS", "DAYS"]

  /** Length of one supported unit in milliseconds. */
  function UnitMillis(unit: string): (ms: int)
    requires unit in SupportedUnits
    ensures ms > 0 && ms % Minute == 0
  {
    if unit == "DAYS" then Day else if unit == "HOURS" then Hour else Minute
  }

  /** Optional.orElse. */
  function OrElse(o: Option<int>, fallback: int): int {
    if o.Some? then o.value else fallback
  }

  // -----------------------------------------------------------------------
  // Field validators; "" means the field is acceptable
  // -----------------------------------------------------------------------

  /** validateServer: present, at most 4000 characters, an http or https URL. */
  function ValidateServer(server: string): (error: string)
    ensures server == "" ==> error == "passwordreset.settings.no-server"
    ensures server != "" && |server| > MaxPropLength ==> error == "passwordreset.settings.server-too-long"
    ensures (server != "" && |server| <= MaxPropLength
      && !StartsWith(server, "http://") && !StartsWith(server, "https://")) ==>
      error == "passwordreset.settings.server-no-http"
    ensures error == "" <==>
      server != "" && |server| <= MaxPropLength
      && (StartsWith(server, "http://") || StartsWith(server, "https://"))
  {
    if server == "" then "passwordreset.settings.no-server"
    else if |server| > MaxPropLength then "passwordreset.settings.server-too-long"
    else if !StartsWith(server, "http://") && !StartsWith(server, "https://") then "passwordreset.settings.server-no-http"
    else ""
  }

  /**
   * The shared shape of validateSenderName, validateSubject and validateBody:
   * the first key when empty, the second when over 4000 characters.
   */
  function ValidatePresentAndShort(value: string, missing: string, tooLong: string): (error: string)
    requires missing != "" && tooLong != ""
    ensures value == "" ==> error == missing
    ensures value != "" && |value| > MaxPropLength ==> error == tooLong
    ensures error == "" <==> value != "" && |value| <= MaxPropLength
  {
    if value == "" then missing
    else if |value| > MaxPropLength then tooLong
    else ""
  }

  function ValidateSenderName(senderName: string): (error: string)
    ensures senderName == "" ==> error == "passwordreset.settings.no-sender-name"
    ensures senderName != "" && |senderName| > MaxPropLength ==> error == "passwordreset.settings.sender-name-too-long"
    ensures error == "" <==> senderName != "" && |senderName| <= MaxPropLength
  {
    ValidatePresentAndShort(senderName,
      "passwordreset.settings.no-sender-name", "passwordreset.settings.sender-name-too-long")
  }

  function ValidateSubject(subject: string): (error: string)
    ensures subject == "" ==> error == "passwordreset.settings.no-subject"
    ensures subject != "" && |subject| > MaxPropLength ==> error == "passwordreset.settings.subject-too-long"
    ensures error == "" <==> subject != "" && |subject| <= MaxPropLength
  {
    ValidatePresentAndShort(subject,
      "passwordreset.settings.no-subject", "passwordreset.settings.subject-too-long")
  }

  function ValidateBody(body: string): (error: string)
    ensures body == "" ==> error == "passwordreset.settings.no-body"
    ensures body != "" && |body| > MaxPropLength ==> error == "passwordreset.settings.body-too-long"
    ensures error == "" <==> body != "" && |body| <= MaxPropLength
  {
    ValidatePresentAndShort(body,
      "passwordreset.settings.no-body", "passwordreset.settings.body-too-long")
  }

  /**
   * validateSenderAddress: present, at most 4000 characters, and accepted by
   * the strict email address validator, which is a parameter here.
   */
  function ValidateSenderAddress(address: string, isValidStrict: string -> bool): (error: string)
    ensures address == "" ==> error == "passwordreset.settings.no-sender-address"
    ensures address != "" && |address| > MaxPropLength ==> error == "passwordreset.settings.sender-address-too-long"
    ensures address != "" && |address| <= MaxPropLength && !isValidStrict(address) ==>
      error == "passwordreset.settings.sender-address-invalid"
    ensures error == "" <==> address != "" && |address| <= MaxPropLength && isValidStrict(address)
  {
    if address == "" then "passwordreset.settings.no-sender-address"
    else if |address| > MaxPropLength then "passwordreset.settings.sender-address-too-long"
    else if !isValidStrict(address) then "passwordreset.settings.sender-address-invalid"
    else ""
  }

  /**
   * validateExpiry: the count must be an int of at least 1; then the period
   * must name a ChronoUnit, and one of the supported three.
   */
  function ValidateExpiry(count: string, period: string): (error: string)
    ensures OrElse(ParseInteger(count), 0) < 1 ==> error == "passwordreset.settings.expiry-count-integer"
    ensures OrElse(ParseInteger(count), 0) >= 1 && period !in SupportedUnits ==>
      error == "passwordreset.settings.expiry-period-invalid"
    ensures error == "" <==>
      ParseInteger(count).Some? && ParseInteger(count).value >= 1 && period in SupportedUnits
  {
    if OrElse(ParseInteger(count), 0) < 1 then "passwordreset.settings.expiry-count-integer"
    else if period !in ChronoUnitNames then "passwordreset.settings.expiry-period-invalid"
    else if period !in SupportedUnits then "passwordreset.settings.expiry-period-invalid"
    else ""
  }

  /** validateMinLength: an int of at least 1. */
  function ValidateMinLength(minLength: string): (error: string)
    ensures error == "" <==> ParseInteger(minLength).Some? && ParseInteger(minLength).value >= 1
    ensures error != "" ==> error == "passwordreset.settings.min-length-integer"
  {
    if OrElse(ParseInteger(minLength), -1) < 1 then "passwordreset.settings.min-length-integer"
    else ""
  }

  /**
   * validateMaxLength: a non-negative int; a positive maximum must not be
   * below the minimum, and an unparsable minimum counts as Integer.MAX_VALUE.
   */
  function ValidateMaxLength(maxLength: string, minLength: string): (error: string)
    ensures ParseInteger(maxLength).None? || ParseInteger(maxLength).value < 0 ==>
      error == "passwordreset.settings.max-length-integer"
    ensures (ParseInteger(maxLength).Some?
      && 0 < ParseInteger(maxLength).value < OrElse(ParseInteger(minLength), IntMax)) ==>
      error == "passwordreset.settings.max-length-too-short"
    ensures error == "" <==>
      ParseInteger(maxLength).Some? && ParseInteger(maxLength).value >= 0
      && (ParseInteger(maxLength).value == 0
          || ParseInteger(maxLength).value >= OrElse(ParseInteger(minLength), IntMax))
  {
    var max := OrElse(ParseInteger(maxLength), -1);
    if max < 0 then "passwordreset.settings.max-length-integer"
    else if max > 0 && max < OrElse(ParseInteger(minLength), IntMax) then "passwordreset.settings.max-length-too-short"
    else ""
  }

  // -----------------------------------------------------------------------
  // The form
  // -----------------------------------------------------------------------

  /** PasswordResetSettingsServlet.Dto, without the list of pending requests. */
  datatype Dto = Dto(
    notSupported: bool,
    enabled: bool,
    server: string, serverError: string,
    senderName: string, senderNameError: string,
    senderAddress: string, senderAddressError: string,
    subject: string, subjectError: string,
    body: string, bodyError: string,
    expiryCount: string, expiryPeriod: string, expiryError: string,
    minLength: string, minLengthError: string,
    maxLength: string, maxLengthError: string,
    valid: bool)

  /** allValid: every error string is empty. */
  predicate AllValid(serverError: string, senderNameError: string, senderAddressError: string,
                     subjectError: string, bodyError: string, expiryError: string,
                     minLengthError: string, maxLengthError: string)
  {
    serverError == "" && senderNameError == "" && senderAddressError == "" && subjectError == ""
    && bodyError == "" && expiryError == "" && minLengthError == "" && maxLengthError == ""
  }

  /**
   * The display of a stored expiry: whole days if the milliseconds divide by
   * a day, else whole hours if they divide by an hour, else minutes (rounded
   * toward zero, as Java's long division does).
   */
  function DecomposeExpiry(expiryMillis: int): (shown: (string, string))
    ensures shown.1 in SupportedUnits
    ensures shown.1 == "DAYS" <==> JavaRem(expiryMillis, Day) == 0
    ensures shown.1 == "HOURS" <==> JavaRem(expiryMillis, Day) != 0 && JavaRem(expiryMillis, Hour) == 0
    ensures ParseDecimal(shown.0) == Some(JavaDiv(expiryMillis, UnitMillis(shown.1)))
  {
    var unit :=
      if JavaRem(expiryMillis, Day) == 0 then "DAYS"
      else if JavaRem(expiryMillis, Hour) == 0 then "HOURS"
      else "MINUTES";
    var count := JavaDiv(expiryMillis, UnitMillis(unit));
    ParseDecimalOfIntToString(count);
    (IntToString(count), unit)
  }

  /**
   * getExpiry: Long.parseLong of the count times the unit. It is called only
   * on valid forms; an unparsable count or an unsupported unit gives None.
   */
  function GetExpiry(count: string, period: string): (expiry: Option<int>)
    ensures expiry.Some? <==> ParseLong(count).Some? && period in SupportedUnits
    ensures expiry.Some? ==> expiry.value % Minute == 0
  {
    match ParseLong(count)
    case Some(n) =>
      if period in SupportedUnits then
        assert (n * UnitMillis(period)) % Minute == 0 by {
          MultipleOfMinute(n, UnitMillis(period) / Minute);
        }
        Some(n * UnitMillis(period))
      else None
    case None => None
  }

  /** A whole number of units is a whole number of minutes. */
  lemma MultipleOfMinute(n: int, k: int)
    ensures (n * (k * Minute)) % Minute == 0
  {
    assert n * (k * Minute) == (n * k) * Minute;
  }

  /** Dto(): the form showing the stored configuration, with no errors. */
  function DtoFromConfig(config: Config, readOnly: bool): (d: Dto)
    ensures d.valid && d.notSupported == readOnly && d.enabled == config.enabled
    ensures (d.expiryCount, d.expiryPeriod) == DecomposeExpiry(config.expiryMillis)
    ensures d.server == config.server && d.senderName == config.senderName
    ensures d.senderAddress == config.senderAddress
    ensures d.subject == config.subject && d.body == config.body
    ensures ParseDecimal(d.minLength) == Some(config.minLength)
    ensures ParseDecimal(d.maxLength) == Some(config.maxLength)
  {
    var expiry := DecomposeExpiry(config.expiryMillis);
    ParseDecimalOfIntToString(config.minLength);
    ParseDecimalOfIntToString(config.maxLength);
    Dto(readOnly, config.enabled,
      config.server, "", config.senderName, "", config.senderAddress, "",
      config.subject, "", config.body, "",
      expiry.0, expiry.1, "",
      IntToString(config.minLength), "", IntToString(config.maxLength), "",
      AllValid("", "", "", "", "", "", "", ""))
  }

  /** Dto(request): the submitted form, every field validated. */
  function DtoFromRequest(params: Params, readOnly: bool, isValidStrict: string -> bool): (d: Dto)
    ensures d.server == Param(params, "server") && d.senderName == Param(params, "sender-name")
    ensures d.senderAddress == Param(params, "sender-address")
    ensures d.subject == Param(params, "subject") && d.body == Param(params, "body")
    ensures d.expiryCount == Param(params, "expiryCount") && d.expiryPeriod == Param(params, "expiryPeriod")
    ensures d.minLength == Param(params, "minLength") && d.maxLength == Param(params, "maxLength")
    ensures d.notSupported == readOnly && d.enabled == BoolParam(params, "enabled")
    ensures d.serverError == ValidateServer(d.server) && d.senderNameError == ValidateSenderName(d.senderName)
    ensures d.senderAddressError == ValidateSenderAddress(d.senderAddress, isValidStrict)
    ensures d.subjectError == ValidateSubject(d.subject) && d.bodyError == ValidateBody(d.body)
    ensures d.expiryError == ValidateExpiry(d.expiryCount, d.expiryPeriod)
    ensures d.minLengthError == ValidateMinLength(d.minLength)
    ensures d.maxLengthError == ValidateMaxLength(d.maxLength, d.minLength)
    ensures d.valid <==> Acceptable(d, isValidStrict)
  {
    var server := Param(params, "server");
    var senderName := Param(params, "sender-name");
    var senderAddress := Param(params, "sender-address");
    var subject := Param(params, "subject");
    var body := Param(params, "body");
    var expiryCount := Param(params, "expiryCount");
    var expiryPeriod := Param(params, "expiryPeriod");
    var minLength := Param(params, "minLength");
    var maxLength := Param(params, "maxLength");
    var serverError := ValidateServer(server);
    var senderNameError := ValidateSenderName(senderName);
    var senderAddressError := ValidateSenderAddress(senderAddress, isValidStrict);
    var subjectError := ValidateSubject(subject);
    var bodyError := ValidateBody(body);
    var expiryError := ValidateExpiry(expiryCount, expiryPeriod);
    var minLengthError := ValidateMinLength(minLength);
    var maxLengthError := ValidateMaxLength(maxLength, minLength);
    Dto(readOnly, BoolParam(params, "enabled"),
      server, serverError, senderName, senderNameError, senderAddress, senderAddressError,
      subject, subjectError, body, bodyError,
      expiryCount, expiryPeriod, expiryError,
      minLength, minLengthError, maxLength, maxLengthError,
      AllValid(serverError, senderNameError, senderAddressError, subjectError, bodyError,
        expiryError, minLengthError, maxLengthError))
  }

  /**
   * What a valid form demands of the submitted values, stated field by field
   * without the validators.
   */
  predicate Acceptable(d: Dto, isValidStrict: string -> bool) {
    && d.server != "" && |d.server| <= MaxPropLength
    && (StartsWith(d.server, "http://") || StartsWith(d.server, "https://"))
    && d.senderName != "" && |d.senderName| <= MaxPropLength
    && d.senderAddress != "" && |d.senderAddress| <= MaxPropLength && isValidStrict(d.senderAddress)
    && d.subject != "" && |d.subject| <= MaxPropLength
    && d.body != "" && |d.body| <= MaxPropLength
    && ParseInteger(d.expiryCount).Some? && ParseInteger(d.expiryCount).value >= 1
    && d.expiryPeriod in SupportedUnits
    && ParseInteger(d.minLength).Some? && ParseInteger(d.minLength).value >= 1
    && ParseInteger(d.maxLength).Some?
    && (ParseInteger(d.maxLength).value == 0
        || ParseInteger(d.maxLength).value >= ParseInteger(d.minLength).value)
  }

  // -----------------------------------------------------------------------
  // Writing the configuration
  // -----------------------------------------------------------------------

  /**
   * handleUpdate as written: every property is set from the form except the
   * sender name, which keeps its stored value.
   */
  function ApplyUpdateAsWritten(config: Config, d: Dto): (updated: Config)
    requires ParseLong(d.expiryCount).Some? && d.expiryPeriod in SupportedUnits
    requires ParseInteger(d.minLength).Some? && ParseInteger(d.maxLength).Some?
    ensures updated.senderName == config.senderName
  {
    Config(d.enabled, d.server, config.senderName, d.senderAddress, d.subject, d.body,
      GetExpiry(d.expiryCount, d.expiryPeriod).value,
      ParseInteger(d.minLength).value, ParseInteger(d.maxLength).value)
  }

  /**
   * handleUpdate as intended: every field of the form is stored, the sender
   * name included. It differs from the code as written in that field only.
   */
  function ApplyUpdate(config: Config, d: Dto): (updated: Config)
    requires ParseLong(d.expiryCount).Some? && d.expiryPeriod in SupportedUnits
    requires ParseInteger(d.minLength).Some? && ParseInteger(d.maxLength).Some?
    ensures updated.senderName == d.senderName
    ensures ApplyUpdateAsWritten(config, d) == updated.(senderName := config.senderName)
  {
    Config(d.enabled, d.server, d.senderName, d.senderAddress, d.subject, d.body,
      GetExpiry(d.expiryCount, d.expiryPeriod).value,
      ParseInteger(d.minLength).value, ParseInteger(d.maxLength).value)
  }

  /**
   * As written, saving a valid form whose sender name differs from the
   * stored one reports success, yet the page then shows the old name: the
   * submitted sender name is lost.
   */
  lemma SenderNameLostAsWritten(config: Config, d: Dto, isValidStrict: string -> bool, readOnly: bool)
    requires Acceptable(d, isValidStrict)
    requires d.senderName != config.senderName
    ensures DtoFromConfig(ApplyUpdateAsWritten(config, d), readOnly).senderName != d.senderName
  {
  }

  /** The same with the default configuration and the sender name "Support". */
  lemma DefaultSenderNameSticks(d: Dto, isValidStrict: string -> bool)
    requires Acceptable(d, isValidStrict) && d.senderName == "Support"
    ensures DtoFromConfig(ApplyUpdateAsWritten(Defaults, d), false).senderName == "Openfire"
  {
  }

  /** A valid form carries everything ApplyUpdate reads. */
  lemma ValidFormIsApplicable(d: Dto, isValidStrict: string -> bool)
    requires Acceptable(d, isValidStrict)
    ensures ParseLong(d.expiryCount).Some? && d.expiryPeriod in SupportedUnits
    ensures ParseInteger(d.minLength).Some? && ParseInteger(d.maxLength).Some?
  {
  }

  /**
   * After saving a valid form, the page shows what was submitted: the same
   * texts, and numerals and an expiry that read back to the same values.
   */
  lemma {:induction false} SavedFormShowsSubmittedValues(config: Config, d: Dto, isValidStrict: string -> bool, readOnly: bool)
    requires Acceptable(d, isValidStrict)
    ensures
      var shown := DtoFromConfig(ApplyUpdate(config, d), readOnly);
      && shown.enabled == d.enabled && shown.server == d.server
      && shown.senderName == d.senderName && shown.senderAddress == d.senderAddress
      && shown.subject == d.subject && shown.body == d.body
      && GetExpiry(shown.expiryCount, shown.expiryPeriod) == GetExpiry(d.expiryCount, d.expiryPeriod)
      && ParseInteger(shown.minLength) == ParseInteger(d.minLength)
      && ParseInteger(shown.maxLength) == ParseInteger(d.maxLength)
  {
    var expiry := GetExpiry(d.expiryCount, d.expiryPeriod).value;
    AcceptedExpiryFitsLong(d, isValidStrict);
    ExpiryRoundTrip(expiry);
  }

  /** An accepted count of at most a day per unit gives an expiry that fits a long. */
  lemma AcceptedExpiryFitsLong(d: Dto, isValidStrict: string -> bool)
    requires Acceptable(d, isValidStrict)
    ensures GetExpiry(d.expiryCount, d.expiryPeriod).Some?
    ensures LongMin <= GetExpiry(d.expiryCount, d.expiryPeriod).value <= LongMax
  {
    var n := ParseInteger(d.expiryCount).value;
    assert 1 <= n <= IntMax;
    assert GetExpiry(d.expiryCount, d.expiryPeriod).value == n * UnitMillis(d.expiryPeriod);
    assert UnitMillis(d.expiryPeriod) <= Day;
  }

  /**
   * What the page shows after a valid update as the code is written: every
   * submitted field reads back except the sender name, which stays the
   * stored one.
   */
  lemma SavedFormAsWritten(config: Config, d: Dto, isValidStrict: string -> bool, readOnly: bool)
    requires Acceptable(d, isValidStrict)
    ensures
      var shown := DtoFromConfig(ApplyUpdateAsWritten(config, d), readOnly);
      && shown.senderName == config.senderName
      && shown.enabled == d.enabled && shown.server == d.server
      && shown.senderAddress == d.senderAddress
      && shown.subject == d.subject && shown.body == d.body
      && GetExpiry(shown.expiryCount, shown.expiryPeriod) == GetExpiry(d.expiryCount, d.expiryPeriod)
      && ParseInteger(shown.minLength) == ParseInteger(d.minLength)
      && ParseInteger(shown.maxLength) == ParseInteger(d.maxLength)
  {
    SavedFormShowsSubmittedValues(config, d, isValidStrict, readOnly);
  }

  /**
   * The display round-trips with getExpiry for every stored expiry that is
   * a whole number of minutes and fits a long.
   */
  lemma ExpiryRoundTrip(expiryMillis: int)
    requires JavaRem(expiryMillis, Minute) == 0
    requires LongMin <= expiryMillis <= LongMax
    ensures
      var shown := DecomposeExpiry(expiryMillis);
      GetExpiry(shown.0, shown.1) == Some(expiryMillis)
  {
    var shown := DecomposeExpiry(expiryMillis);
    var unit := UnitMillis(shown.1);
    var q := JavaDiv(expiryMillis, unit);
    assert JavaRem(expiryMillis, unit) == 0;
    assert expiryMillis == q * unit;
    QuotientWithinLong(expiryMillis, unit);
  }

  /** A quotient by a positive divisor is no larger in magnitude than the dividend. */
  lemma QuotientWithinLong(a: int, b: int)
    requires b > 0 && LongMin <= a <= LongMax
    ensures LongMin <= JavaDiv(a, b) <= LongMax
  {
    if a >= 0 {
      QuotientAtMost(a, b);
    } else {
      QuotientAtMost(-a, b);
    }
  }

  lemma QuotientAtMost(a: int, b: int)
    requires a >= 0 && b > 0
    ensures 0 <= a / b <= a
  {
    var q := a / b;
    assert q * b == q * (b - 1) + q;
    ProductNonNegative(q, b - 1);
    assert a == q * b + a % b;
  }

  lemma ProductNonNegative(x: int, y: int)
    requires x >= 0 && y >= 0
    ensures x * y >= 0
  {
  }

  /**
   * An expiry that is not a whole number of minutes is shown, and saved back,
   * rounded toward zero to whole minutes.
   */
  lemma PartialMinuteTruncated(expiryMillis: int)
    requires JavaRem(expiryMillis, Minute) != 0
    requires LongMin <= expiryMillis <= LongMax
    ensures
      var shown := DecomposeExpiry(expiryMillis);
      shown.1 == "MINUTES"
      && GetExpiry(shown.0, shown.1) == Some(expiryMillis - JavaRem(expiryMillis, Minute))
  {
    var shown := DecomposeExpiry(expiryMillis);
    if JavaRem(expiryMillis, Day) == 0 {
      var q := JavaDiv(expiryMillis, Day);
      assert expiryMillis == (q * 1440) * Minute;
      JavaRemOfMultiple(q * 1440, Minute);
    } else if JavaRem(expiryMillis, Hour) == 0 {
      var q := JavaDiv(expiryMillis, Hour);
      assert expiryMillis == (q * 60) * Minute;
      JavaRemOfMultiple(q * 60, Minute);
    }
    assert shown.1 == "MINUTES";
    QuotientWithinLong(expiryMillis, Minute);
  }

  /** Java's remainder of an exact multiple is zero. */
  lemma JavaRemOfMultiple(k: int, b: int)
    requires b > 0
    ensures JavaRem(k * b, b) == 0
  {
    var q := JavaDiv(k * b, b);
    var r := JavaRem(k * b, b);
    assert (k - q) * b == r by {
      assert k * b == q * b + r;
      assert (k - q) * b == k * b - q * b;
    }
    SmallMultipleIsZero(k - q, b);
  }

  /** The only multiple of b strictly between -b and b is zero. */
  lemma SmallMultipleIsZero(m: int, b: int)
    requires b > 0 && -b < m * b < b
    ensures m == 0
  {
    if m >= 1 {
      assert m * b == (m - 1) * b + b;
      ProductNonNegative(m - 1, b);
    } else if m <= -1 {
      assert m * b == -((-m - 1) * b) - b;
      ProductNonNegative(-m - 1, b);
    }
  }

  /** The default configuration shows an expiry of 5 HOURS. */
  lemma DefaultExpiryShownInHours()
    ensures DecomposeExpiry(Defaults.expiryMillis).1 == "HOURS"
    ensures ParseDecimal(DecomposeExpiry(Defaults.expiryMillis).0) == Some(5)
  {
    assert JavaRem(5 * Hour, Day) != 0;
    JavaRemOfMultiple(5, Hour);
  }

  // -----------------------------------------------------------------------
  // The servlet
  // -----------------------------------------------------------------------

  /** What the browser gets: a redirect to the page, or the page rendered with a form. */
  datatype Response =
    | Redirect(flash: Flash)
    | Render(dto: Dto, notice: Option<Flash>)

  /** The plugin's stored configuration (the PasswordResetPlugin system properties). */
  class PluginProperties {
    var config: Config

    constructor (config: Config)
      ensures this.config == config
    {
      this.config := config;
    }

    /** Store a new configuration. */
    method Set(config: Config)
      modifies this
      ensures this.config == config
    {
      this.config := config;
    }
  }

  /**
   * doPost: read-only provider, then cancel, then update, then test, then an
   * unknown action. Only a valid update changes the configuration, and it
   * stores what handleUpdate stores as written (not the sender name); a test
   * sends the reset email for the signed-in admin, using the stored
   * configuration rather than the submitted one.
   */
  method DoPost(properties: PluginProperties, params: Params, readOnly: bool,
                isValidStrict: string -> bool, admin: User)
    returns (response: Response, testMail: Option<Email>)
    modifies properties
    ensures readOnly ==>
      response == Redirect(Flash(ErrorMessage, "passwordreset.settings.update-read-only"))
    ensures !readOnly && "cancel" in params ==>
      response == Redirect(Flash(WarningMessage, "passwordreset.settings.cancelled"))
    ensures !readOnly && "cancel" !in params && "update" !in params && "test" !in params ==>
      response == Redirect(Flash(ErrorMessage, "passwordreset.settings.unknown-action"))
    ensures
      var d := DtoFromRequest(params, readOnly, isValidStrict);
      if !readOnly && "cancel" !in params && "update" in params && d.valid then
        properties.config == ApplyUpdateAsWritten(old(properties.config), d)
        && response == Redirect(Flash(SuccessMessage, "passwordreset.settings.updated"))
      else
        properties.config == old(properties.config)
    ensures (!readOnly && "cancel" !in params && "update" in params
      && !DtoFromRequest(params, readOnly, isValidStrict).valid) ==>
      response == Render(DtoFromRequest(params, readOnly, isValidStrict), None)
    ensures
      var d := DtoFromRequest(params, readOnly, isValidStrict);
      !readOnly && "cancel" !in params && "update" !in params && "test" in params ==>
      response == Render(d, Some(if d.valid
        then Flash(SuccessMessage, "passwordreset.settings.server-good-test")
        else Flash(WarningMessage, "passwordreset.settings.server-bad-test")))
    ensures testMail.Some? <==>
      !readOnly && "cancel" !in params && "update" !in params && "test" in params
      && DtoFromRequest(params, readOnly, isValidStrict).valid && ShouldSend(admin.email)
    ensures testMail.Some? ==> testMail.value == Compose(admin, TestToken, old(properties.config))
  {
    testMail := None;
    if readOnly {
      response := Redirect(Flash(ErrorMessage, "passwordreset.settings.update-read-only"));
    } else if "cancel" in params {
      response := Redirect(Flash(WarningMessage, "passwordreset.settings.cancelled"));
    } else if "update" in params {
      var d := DtoFromRequest(params, readOnly, isValidStrict);
      if d.valid {
        ValidFormIsApplicable(d, isValidStrict);
        properties.Set(ApplyUpdateAsWritten(properties.config, d));
        response := Redirect(Flash(SuccessMessage, "passwordreset.settings.updated"));
      } else {
        response := Render(d, None);
      }
    } else if "test" in params {
      var d := DtoFromRequest(params, readOnly, isValidStrict);
      if d.valid {
        testMail := SendEmail(admin, TestToken, properties.config);
        response := Render(d, Some(Flash(SuccessMessage, "passwordreset.settings.server-good-test")));
      } else {
        response := Render(d, Some(Flash(WarningMessage, "passwordreset.settings.server-bad-test")));
      }
    } else {
      response := Redirect(Flash(ErrorMessage, "passwordreset.settings.unknown-action"));
    }
  }

  // -----------------------------------------------------------------------
  // Properties of the validators
  // -----------------------------------------------------------------------

  /** A maximum of 0 means "no limit" and is accepted whatever the minimum says. */
  lemma ZeroMaximumAlwaysAccepted(minLength: string)
    ensures ValidateMaxLength("0", minLength) == ""
  {
    assert ParseInteger("0") == Some(0) by {
      ParseDecimalOfIntToString(0);
      assert IntToString(0) == "0";
    }
  }

  /**
   * With an unparsable minimum, a positive maximum is compared against
   * Integer.MAX_VALUE, so every positive maximum below it is too short.
   */
  lemma UnparsableMinimumRejectsPositiveMaximum(maxLength: string, minLength: string)
    requires ParseInteger(minLength).None?
    requires ParseInteger(maxLength).Some? && 0 < ParseInteger(maxLength).value < IntMax
    ensures ValidateMaxLength(maxLength, minLength) == "passwordreset.settings.max-length-too-short"
  {
  }

  /** A unit name that ChronoUnit knows but the form does not support is rejected. */
  lemma UnsupportedUnitRejected(count: string)
    requires ParseInteger(count).Some? && ParseInteger(count).value >= 1
    ensures ValidateExpiry(count, "SECONDS") == "passwordreset.settings.expiry-period-invalid"
    ensures ValidateExpiry(count, "minutes") == "passwordreset.settings.expiry-period-invalid"
  {
  }
}
