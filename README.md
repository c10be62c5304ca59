# Openfire password-reset plugin: a Dafny model

This project models the core of the Openfire password-reset plugin. A user who has forgotten their password asks for a reset link on a public page, by username, JID or email address. The plugin stores a random 32-character token in the `ofPasswordResetToken` table and mails a link carrying the token. The link opens a page where the user picks a new password. On success, every token of the user is deleted. Administrators configure the feature on a settings page, which also lists the pending requests and can send a test email.

Each core Java file becomes one Dafny module:

- `token_manager.dfy` — `TokenManager`. The token table is a `seq<TokenRecord>` field of the class `PasswordResetTokenManager`. Each SQL statement is a function of the table: purge the expired rows, delete one user's rows, find a token's owner, and list the rows ordered by user and then expiry. Each method's `ensures` ties the new table and the result to these functions. The listing loop is proved to return the sorted permutation of the live rows, without their tokens.
- `mailer.dfy` — `Mailer`. This module has three parts:
  - the send/skip decision, a case-insensitive suffix test against the nine ignored domains;
  - the reset URL;
  - the four `String.replace` steps that fill in the templates.

  `SendEmail` keeps the source's loop over the ignored domains. It returns the message it would hand to the email service, or nothing.
- `settings_servlet.dfy` — `SettingsServlet`. This module covers the admin form (`Dto`) and its validators, the display of the stored expiry as a count and unit, and `getExpiry`. The configuration is a `Config` held by the class `PluginProperties`. `DoPost` chooses an action in the source's order: read-only provider, cancel, update, test, unknown.
- `change_password_servlet.dfy` — `ChangePasswordServlet`. This module covers the password length and confirmation rules. `HandleUpdate` checks, in order, that the form is valid, that the token resolves and that it resolves to the named user. It then sets the password and deletes the user's tokens.
- `send_email_servlet.dfy` — `SendEmailServlet`. This module covers the request form, a class whose `emailSent` flag changes, and how an identifier is resolved: a username, a local JID, or a search through the accounts by email, 50 at a time. `HandleSend` reports the email as sent whether or not an account was found.

Shared modules:
- `base.dfy` — `Option`, the `Result` of a database call, where a call fails (`StorageFault`), and Java's truncating `/` and `%`.
- `text.dfy` — the `java.lang.String` operations the code relies on. Case mapping covers ASCII letters only. Decimal printing and parsing are proved to round-trip.
- `web.dfy` — request parameters and flash messages.
- `accounts.dfy` — user accounts and the configuration with its declared defaults.

The model uses these conventions:

- The clock (`now`, in milliseconds) is a parameter.
- The random token is a parameter of 32 characters.
- A database failure is a `StorageFault` or a `bool` argument. A purge runs on its own connection, so a failure of the statement that follows it leaves the table already purged, as in the code.
- Message texts are their localization keys.

## Model

| member | source | states |
|---|---|---|
| Base.JavaDiv | src/main/java/org/jivesoftware/openfire/plugin/passwordreset/servlet/admin/PasswordResetSettingsServlet.java:197-205 | for a non-negative dividend `q*b <= a < q*b + b`, for a negative one `q*b - b < a <= q*b`: the quotient rounds toward zero, unlike Euclidean division |
| Base.JavaRem | src/main/java/org/jivesoftware/openfire/plugin/passwordreset/servlet/admin/PasswordResetSettingsServlet.java:197-205 | `a == (a / b) * b + a % b`, the remainder lies strictly between `-b` and `b`, and its sign follows the dividend |
| Text.ToLowerFixesLower | src/main/java/org/jivesoftware/openfire/plugin/passwordreset/PasswordResetMailer.java:47 | lower-casing leaves no upper-case letter, keeps every other character and maps each upper-case letter to its lower-case form; it is idempotent and leaves lower-case text unchanged |
| Text.EqualsIgnoreCase | src/main/java/org/jivesoftware/openfire/plugin/passwordreset/servlet/client/PasswordResetSendEmailServlet.java:148 | false for a null argument; otherwise true exactly when the lengths agree and the characters agree up to case at every position |
| Text.ReplaceAbsent | src/main/java/org/jivesoftware/openfire/plugin/passwordreset/PasswordResetMailer.java:65-71 | `replace` leaves a text with no occurrence of the target unchanged |
| Text.ReplaceAll | src/main/java/org/jivesoftware/openfire/plugin/passwordreset/PasswordResetMailer.java:65-71 | `String.replace`: replacing a target by itself changes nothing, and a replacement as long as the target keeps the length |
| Text.ReplaceAfterPlain | src/main/java/org/jivesoftware/openfire/plugin/passwordreset/PasswordResetMailer.java:65-71 | a prefix that lacks the target's first character passes through unchanged, and the rest is replaced on its own |
| Text.ReplaceLeadingTarget | src/main/java/org/jivesoftware/openfire/plugin/passwordreset/PasswordResetMailer.java:65-71 | an occurrence at the start is replaced, and scanning resumes after it |
| Text.NatToString | src/main/java/org/jivesoftware/openfire/plugin/passwordreset/servlet/admin/PasswordResetSettingsServlet.java:198-210 | `String.valueOf` of a natural number: non-empty, digits only, no leading zero |
| Text.IntToString | src/main/java/org/jivesoftware/openfire/plugin/passwordreset/servlet/admin/PasswordResetSettingsServlet.java:198-210 | `String.valueOf` of a long gives a non-empty numeral |
| Text.ParseDecimal | src/main/java/org/jivesoftware/openfire/plugin/passwordreset/servlet/admin/PasswordResetSettingsServlet.java:247 | a non-empty digit string parses to its decimal value, leading zeros allowed; a '+' or '-' followed by digits parses to the value or its negation; nothing else parses (empty, a lone sign, any non-digit) |
| Text.ParseInteger | src/main/java/org/jivesoftware/openfire/plugin/passwordreset/servlet/admin/PasswordResetSettingsServlet.java:247-266 | `StringUtils.parseInteger`: a value exactly when the numeral denotes an int in range |
| Text.ParseLong | src/main/java/org/jivesoftware/openfire/plugin/passwordreset/servlet/admin/PasswordResetSettingsServlet.java:336-338 | `Long.parseLong`: a value exactly when the numeral denotes a long in range |
| Text.DigitsValueOfNatToString | src/main/java/org/jivesoftware/openfire/plugin/passwordreset/servlet/admin/PasswordResetSettingsServlet.java:198-210 | the digits of a printed natural number read back as that number |
| Text.ParseDecimalOfNatToString | src/main/java/org/jivesoftware/openfire/plugin/passwordreset/servlet/admin/PasswordResetSettingsServlet.java:198-210 | parsing the printed form of a natural number gives it back |
| Text.ParseDecimalOfNegative | src/main/java/org/jivesoftware/openfire/plugin/passwordreset/servlet/admin/PasswordResetSettingsServlet.java:198-210 | parsing '-' followed by the numeral of a positive number gives its negation |
| Text.ParseDecimalOfIntToString | src/main/java/org/jivesoftware/openfire/plugin/passwordreset/servlet/admin/PasswordResetSettingsServlet.java:198-210 | printing then parsing any integer gives it back |
| Accounts.LookupUser | src/main/java/org/jivesoftware/openfire/plugin/passwordreset/PasswordResetTokenManager.java:103-107 | `UserManager.getUser`: the account with that username, or none exactly when no account has it |
| Accounts.Directory.SetPassword | src/main/java/org/jivesoftware/openfire/plugin/passwordreset/servlet/client/PasswordResetChangePasswordServlet.java:103 | the user's stored password becomes the new one and no other password changes |
| TokenManager.Purged | src/main/java/org/jivesoftware/openfire/plugin/passwordreset/PasswordResetTokenManager.java:30-31 | a row survives the purge exactly when its expiry is not before now |
| TokenManager.WithoutUser | src/main/java/org/jivesoftware/openfire/plugin/passwordreset/PasswordResetTokenManager.java:34-35 | a row survives exactly when it belongs to another user |
| TokenManager.IndexOfToken | src/main/java/org/jivesoftware/openfire/plugin/passwordreset/PasswordResetTokenManager.java:32-33 | the first row carrying the token, or none exactly when no row carries it |
| TokenManager.OwnerOf | src/main/java/org/jivesoftware/openfire/plugin/passwordreset/PasswordResetTokenManager.java:32-33 | the userId of a row with the token; none exactly when no row has it |
| TokenManager.Resolve | src/main/java/org/jivesoftware/openfire/plugin/passwordreset/PasswordResetTokenManager.java:95-110 | a resolved account exists and is the owner of a live row with the token; a token no live row carries resolves to nobody; ResolveComplete gives the converse |
| TokenManager.ResolveComplete | src/main/java/org/jivesoftware/openfire/plugin/passwordreset/PasswordResetTokenManager.java:95-110 | when the first live row with the token belongs to an existing account, the token resolves to that account |
| TokenManager.LiveRowResolves | src/main/java/org/jivesoftware/openfire/plugin/passwordreset/PasswordResetTokenManager.java:95-110 | a token held by one user only, in an unexpired row, resolves to that user's account whenever it exists |
| TokenManager.ResolveSound | src/main/java/org/jivesoftware/openfire/plugin/passwordreset/PasswordResetTokenManager.java:95-110 | a resolved account exists and owns a live row carrying the token |
| TokenManager.ExpiredTokenNeverResolves | src/main/java/org/jivesoftware/openfire/plugin/passwordreset/PasswordResetTokenManager.java:95-96 | a token whose rows have all expired resolves to nobody |
| TokenManager.UnknownTokenNeverResolves | src/main/java/org/jivesoftware/openfire/plugin/passwordreset/PasswordResetTokenManager.java:108-110 | a token that no row carries resolves to nobody |
| TokenManager.PurgedAppend | src/main/java/org/jivesoftware/openfire/plugin/passwordreset/PasswordResetTokenManager.java:30-31 | purging a concatenation is the concatenation of the purged parts |
| TokenManager.PurgeKeepsLiveTable | src/main/java/org/jivesoftware/openfire/plugin/passwordreset/PasswordResetTokenManager.java:30-31 | purging a table with no expired rows changes nothing |
| TokenManager.PurgeIdempotent | src/main/java/org/jivesoftware/openfire/plugin/passwordreset/PasswordResetTokenManager.java:80-86 | a second purge at the same time changes nothing |
| TokenManager.PurgeLaterSubsumes | src/main/java/org/jivesoftware/openfire/plugin/passwordreset/PasswordResetTokenManager.java:80-86 | a purge then a later purge equals the later purge alone |
| TokenManager.OwnerOfAppendAbsent | src/main/java/org/jivesoftware/openfire/plugin/passwordreset/PasswordResetTokenManager.java:32-33 | rows without the token in front do not change who owns it |
| TokenManager.GeneratedTokenResolves | src/main/java/org/jivesoftware/openfire/plugin/passwordreset/PasswordResetTokenManager.java:64-78 | after `generateToken`, the new token resolves to its user until it expires, if it was not already live and the account exists |
| TokenManager.PurgeDeleteCommute | src/main/java/org/jivesoftware/openfire/plugin/passwordreset/PasswordResetTokenManager.java:30-35 | purging and deleting a user's rows commute |
| TokenManager.OwnerOfWithoutOther | src/main/java/org/jivesoftware/openfire/plugin/passwordreset/PasswordResetTokenManager.java:121-128 | deleting one user's rows keeps the owner of another user's token |
| TokenManager.DeletedUserNeverResolves | src/main/java/org/jivesoftware/openfire/plugin/passwordreset/PasswordResetTokenManager.java:121-128 | after `deleteTokens(u)`, no token resolves to `u` |
| TokenManager.DeleteKeepsOtherUsersTokens | src/main/java/org/jivesoftware/openfire/plugin/passwordreset/PasswordResetTokenManager.java:121-128 | after `deleteTokens(u)`, every token of another user resolves as before |
| TokenManager.DeleteWithoutRowsIsNoOp | src/main/java/org/jivesoftware/openfire/plugin/passwordreset/PasswordResetTokenManager.java:121-128 | deleting for a user without rows changes nothing |
| TokenManager.DeleteIdempotent | src/main/java/org/jivesoftware/openfire/plugin/passwordreset/PasswordResetTokenManager.java:121-128 | a second delete for the same user changes nothing |
| TokenManager.LexTotal | src/main/java/org/jivesoftware/openfire/plugin/passwordreset/PasswordResetTokenManager.java:36-37 | any two userIds are ordered one way or the other |
| TokenManager.LexAntisymmetric | src/main/java/org/jivesoftware/openfire/plugin/passwordreset/PasswordResetTokenManager.java:36-37 | userIds ordered both ways are equal |
| TokenManager.LexTransitive | src/main/java/org/jivesoftware/openfire/plugin/passwordreset/PasswordResetTokenManager.java:36-37 | the userId order is transitive |
| TokenManager.RowLeTotal | src/main/java/org/jivesoftware/openfire/plugin/passwordreset/PasswordResetTokenManager.java:36-37 | the (userId, expires) order is total |
| TokenManager.RowLeTransitive | src/main/java/org/jivesoftware/openfire/plugin/passwordreset/PasswordResetTokenManager.java:36-37 | the (userId, expires) order is transitive |
| TokenManager.InsertRow | src/main/java/org/jivesoftware/openfire/plugin/passwordreset/PasswordResetTokenManager.java:36-37 | inserting into a sorted list keeps it sorted and adds exactly that row |
| TokenManager.OrderedRows | src/main/java/org/jivesoftware/openfire/plugin/passwordreset/PasswordResetTokenManager.java:36-37 | `ORDER BY userId, expires` gives a sorted permutation of the rows |
| TokenManager.OrderedRowsKeepMembers | src/main/java/org/jivesoftware/openfire/plugin/passwordreset/PasswordResetTokenManager.java:36-37 | every listed row is a row of the table |
| TokenManager.PurgedCounts | src/main/java/org/jivesoftware/openfire/plugin/passwordreset/PasswordResetTokenManager.java:30-31 | the purge keeps every live row as many times as it occurs, and no expired row |
| TokenManager.ListingIsOrderedLiveRows | src/main/java/org/jivesoftware/openfire/plugin/passwordreset/PasswordResetTokenManager.java:135-151 | the listing is sorted and holds exactly the live rows, each with its multiplicity |
| TokenManager.PasswordResetTokenManager.constructor | src/main/java/org/jivesoftware/openfire/plugin/passwordreset/PasswordResetTokenManager.java:49-54 | the manager starts over the given table |
| TokenManager.PasswordResetTokenManager.PurgeOldTokens | src/main/java/org/jivesoftware/openfire/plugin/passwordreset/PasswordResetTokenManager.java:80-86 | the table becomes its purge, and no remaining row has expired |
| TokenManager.PasswordResetTokenManager.GenerateToken | src/main/java/org/jivesoftware/openfire/plugin/passwordreset/PasswordResetTokenManager.java:64-78 | purge, then append exactly one row (token, username, source, now + expiry) and return the 32-character token; a failure leaves the table unchanged or only purged, depending on the failing step |
| TokenManager.PasswordResetTokenManager.GetUser | src/main/java/org/jivesoftware/openfire/plugin/passwordreset/PasswordResetTokenManager.java:95-113 | purge, then the owner of the token's first live row if that account exists, else none; a result comes from a live row with that token |
| TokenManager.PasswordResetTokenManager.DeleteTokens | src/main/java/org/jivesoftware/openfire/plugin/passwordreset/PasswordResetTokenManager.java:121-128 | every row of the user goes, expired or not, and nothing else changes; a failure changes nothing |
| TokenManager.PasswordResetTokenManager.GetResetRequests | src/main/java/org/jivesoftware/openfire/plugin/passwordreset/PasswordResetTokenManager.java:135-157 | purge, then the ordered live rows as (userId, sourceAddress, expires) without tokens; on a database failure, the empty list |
| Mailer.ResetUrl | src/main/java/org/jivesoftware/openfire/plugin/passwordreset/PasswordResetMailer.java:54-55 | the URL starts with the server, ends with the token, and has `/change-password?token=` between them |
| Mailer.Compose | src/main/java/org/jivesoftware/openfire/plugin/passwordreset/PasswordResetMailer.java:54-62 | the message goes to the user's name and email, comes from the configured sender name and address, and its subject and body are the configured templates filled by `substitute` with the user, the email and the reset URL |
| Mailer.SendEmail | src/main/java/org/jivesoftware/openfire/plugin/passwordreset/PasswordResetMailer.java:39-63 | a message is sent exactly when the email is present, non-empty and outside the ignored domains, and it is the composed message |
| Mailer.DecisionIgnoresCase | src/main/java/org/jivesoftware/openfire/plugin/passwordreset/PasswordResetMailer.java:47-52 | the suffix test gives the same answer for an address and its lower-case form |
| Mailer.ReservedDomainsSuppressed | src/main/java/org/jivesoftware/openfire/plugin/passwordreset/PasswordResetMailer.java:15-52 | no address `local@d` with `d` an ignored domain is ever mailed |
| Mailer.UpperCaseAddressSuppressed | src/main/java/org/jivesoftware/openfire/plugin/passwordreset/PasswordResetMailer.java:47-52 | `user@EXAMPLE.COM` is not mailed |
| Mailer.SuffixMatchIgnoresLabels | src/main/java/org/jivesoftware/openfire/plugin/passwordreset/PasswordResetMailer.java:48-52 | `user@notexample.com` and `x@contest` are not mailed: the test is on a plain suffix, not on a whole domain label |
| Mailer.OrdinaryAddressMailed | src/main/java/org/jivesoftware/openfire/plugin/passwordreset/PasswordResetMailer.java:40-52 | `test@domain.com` is mailed |
| Mailer.PlainTemplateUnchanged | src/main/java/org/jivesoftware/openfire/plugin/passwordreset/PasswordResetMailer.java:65-71 | a template without placeholders is sent verbatim |
| Mailer.PlaceholderFilledAfter | src/main/java/org/jivesoftware/openfire/plugin/passwordreset/PasswordResetMailer.java:67-70 | text free of `$` followed by a placeholder: the placeholder becomes its value and the text is kept |
| Mailer.OtherPlaceholderAfterPlainKept | src/main/java/org/jivesoftware/openfire/plugin/passwordreset/PasswordResetMailer.java:67-70 | text free of `$` followed by one placeholder passes unchanged through the replacement of another |
| Mailer.PlaceholderFilledTwice | src/main/java/org/jivesoftware/openfire/plugin/passwordreset/PasswordResetMailer.java:67-70 | a placeholder replaced by a later placeholder is replaced again by the later step |
| Mailer.LaterPlaceholdersApplyToEarlierValues | src/main/java/org/jivesoftware/openfire/plugin/passwordreset/PasswordResetMailer.java:65-71 | the replacements run in order, so with the display name `${userEmail}`, `Dear ${userName}` comes out as `Dear <email>` |
| Mailer.OtherPlaceholderKept | src/main/java/org/jivesoftware/openfire/plugin/passwordreset/PasswordResetMailer.java:67-70 | a placeholder other than the target passes through a replacement, and the text after it is replaced on its own |
| Mailer.FillOneWellFormed | src/main/java/org/jivesoftware/openfire/plugin/passwordreset/PasswordResetMailer.java:67-70 | filling a placeholder with a value free of `$` keeps the template made of `$`-free text and the four placeholders |
| Mailer.ReplaceJoin | src/main/java/org/jivesoftware/openfire/plugin/passwordreset/PasswordResetMailer.java:67-70 | one `replace` step on such a template fills exactly the occurrences of that placeholder and changes nothing else |
| Mailer.FillAllSteps | src/main/java/org/jivesoftware/openfire/plugin/passwordreset/PasswordResetMailer.java:65-71 | filling the four placeholders in the order `substitute` uses gives each placeholder its own value |
| Mailer.SubstituteFillsTemplate | src/main/java/org/jivesoftware/openfire/plugin/passwordreset/PasswordResetMailer.java:65-71 | for any template of `$`-free text and the four placeholders, and values without `$`, `substitute` replaces every placeholder by its value and keeps the rest |
| Mailer.DefaultBodyJoin | src/main/java/org/jivesoftware/openfire/plugin/passwordreset/PasswordResetPlugin.java:60-66 | the declared default body is the greeting, `${userName}`, the intro, `${userId}`, the middle text, `${url}` and the closing text |
| Mailer.DefaultBodyFilled | src/main/java/org/jivesoftware/openfire/plugin/passwordreset/PasswordResetMailer.java:65-71 | the default body comes out with the display name, the username and the URL in place of its three placeholders and the rest of the text unchanged |
| SettingsServlet.UnitMillis | src/main/java/org/jivesoftware/openfire/plugin/passwordreset/servlet/admin/PasswordResetSettingsServlet.java:156-160 | each supported unit is a positive whole number of minutes |
| SettingsServlet.ValidateServer | src/main/java/org/jivesoftware/openfire/plugin/passwordreset/servlet/admin/PasswordResetSettingsServlet.java:323-334 | checks run in this order: empty, then over 4000 characters, then missing `http://` or `https://` (the server-no-http key); the result is empty exactly when all three checks pass |
| SettingsServlet.ValidatePresentAndShort | src/main/java/org/jivesoftware/openfire/plugin/passwordreset/servlet/admin/PasswordResetSettingsServlet.java:280-321 | the missing key when empty, the too-long key above 4000 characters, otherwise no error |
| SettingsServlet.ValidateSenderName | src/main/java/org/jivesoftware/openfire/plugin/passwordreset/servlet/admin/PasswordResetSettingsServlet.java:313-321 | an empty name gives `no-sender-name`, one over 4000 characters `sender-name-too-long`, and there is no error exactly when the name is non-empty and at most 4000 characters |
| SettingsServlet.ValidateSubject | src/main/java/org/jivesoftware/openfire/plugin/passwordreset/servlet/admin/PasswordResetSettingsServlet.java:290-298 | an empty subject gives `no-subject`, one over 4000 characters `subject-too-long`, and there is no error exactly when the subject is non-empty and at most 4000 characters |
| SettingsServlet.ValidateBody | src/main/java/org/jivesoftware/openfire/plugin/passwordreset/servlet/admin/PasswordResetSettingsServlet.java:280-288 | an empty body gives `no-body`, one over 4000 characters `body-too-long`, and there is no error exactly when the body is non-empty and at most 4000 characters |
| SettingsServlet.ValidateSenderAddress | src/main/java/org/jivesoftware/openfire/plugin/passwordreset/servlet/admin/PasswordResetSettingsServlet.java:300-311 | checks run in this order: empty, then too long, then rejected by the strict address validator (the sender-address-invalid key); no error exactly when all pass |
| SettingsServlet.ValidateExpiry | src/main/java/org/jivesoftware/openfire/plugin/passwordreset/servlet/admin/PasswordResetSettingsServlet.java:265-278 | the count error when the count is unparsable or below 1, then the period error for any name outside MINUTES/HOURS/DAYS; no error exactly when count ≥ 1 and the unit is supported |
| SettingsServlet.ValidateMinLength | src/main/java/org/jivesoftware/openfire/plugin/passwordreset/servlet/admin/PasswordResetSettingsServlet.java:258-263 | no error exactly when the minimum parses as an int ≥ 1 |
| SettingsServlet.ValidateMaxLength | src/main/java/org/jivesoftware/openfire/plugin/passwordreset/servlet/admin/PasswordResetSettingsServlet.java:246-256 | unparsable or negative is rejected; a positive maximum below the minimum gives the max-length-too-short key, an unparsable minimum counting as Integer.MAX_VALUE; no error exactly when the maximum is 0 or at least the minimum |
| SettingsServlet.DecomposeExpiry | src/main/java/org/jivesoftware/openfire/plugin/passwordreset/servlet/admin/PasswordResetSettingsServlet.java:196-206 | DAYS exactly when the milliseconds divide by a day, HOURS exactly when they divide by an hour but not a day, otherwise MINUTES; the count reads back as the truncated quotient |
| SettingsServlet.GetExpiry | src/main/java/org/jivesoftware/openfire/plugin/passwordreset/servlet/admin/PasswordResetSettingsServlet.java:336-338 | a duration exactly when the count parses as a long and the unit is supported, always a whole number of minutes |
| SettingsServlet.DtoFromConfig | src/main/java/org/jivesoftware/openfire/plugin/passwordreset/servlet/admin/PasswordResetSettingsServlet.java:183-214 | the stored texts and the enabled flag are shown as they are, the expiry as its decomposed count and unit, the lengths as numerals that read back to the stored values, and the form is valid |
| SettingsServlet.DtoFromRequest | src/main/java/org/jivesoftware/openfire/plugin/passwordreset/servlet/admin/PasswordResetSettingsServlet.java:216-244 | each field is the submitted parameter, or "" when it is absent, each of the eight error fields the page shows is its validator's verdict on the submitted value, and the form is valid exactly when every field meets its rule, stated without the validators |
| SettingsServlet.ApplyUpdateAsWritten | src/main/java/org/jivesoftware/openfire/plugin/passwordreset/servlet/admin/PasswordResetSettingsServlet.java:122-131 | handleUpdate as written keeps the stored sender name |
| SettingsServlet.ApplyUpdate | src/main/java/org/jivesoftware/openfire/plugin/passwordreset/servlet/admin/PasswordResetSettingsServlet.java:122-131 | the corrected update stores the submitted sender name and otherwise agrees with the code as written |
| SettingsServlet.SenderNameLostAsWritten | src/main/java/org/jivesoftware/openfire/plugin/passwordreset/servlet/admin/PasswordResetSettingsServlet.java:122-131 | as written, after saving a valid form with a new sender name, the page shows the old name |
| SettingsServlet.DefaultSenderNameSticks | src/main/java/org/jivesoftware/openfire/plugin/passwordreset/servlet/admin/PasswordResetSettingsServlet.java:122-131 | as written, saving "Support" over the defaults still shows "Openfire" |
| SettingsServlet.ValidFormIsApplicable | src/main/java/org/jivesoftware/openfire/plugin/passwordreset/servlet/admin/PasswordResetSettingsServlet.java:129-131 | on a valid form, `getExpiry` and both `Integer.valueOf` calls succeed |
| SettingsServlet.SavedFormShowsSubmittedValues | src/main/java/org/jivesoftware/openfire/plugin/passwordreset/servlet/admin/PasswordResetSettingsServlet.java:120-135 | after a valid update, the page shows the submitted texts, and an expiry and lengths that read back to the submitted values |
| SettingsServlet.SavedFormAsWritten | src/main/java/org/jivesoftware/openfire/plugin/passwordreset/servlet/admin/PasswordResetSettingsServlet.java:120-135 | as written, after a valid update the page shows the stored sender name and otherwise the submitted values |
| SettingsServlet.ExpiryRoundTrip | src/main/java/org/jivesoftware/openfire/plugin/passwordreset/servlet/admin/PasswordResetSettingsServlet.java:196-206 | for a stored expiry of whole minutes that fits a long, `getExpiry` of the displayed count and unit is that expiry |
| SettingsServlet.QuotientWithinLong | src/main/java/org/jivesoftware/openfire/plugin/passwordreset/servlet/admin/PasswordResetSettingsServlet.java:198-204 | the displayed count of a long expiry is itself in long range |
| SettingsServlet.PartialMinuteTruncated | src/main/java/org/jivesoftware/openfire/plugin/passwordreset/servlet/admin/PasswordResetSettingsServlet.java:203-205 | an expiry that is not a whole number of minutes is shown in MINUTES, rounded toward zero |
| SettingsServlet.JavaRemOfMultiple | src/main/java/org/jivesoftware/openfire/plugin/passwordreset/servlet/admin/PasswordResetSettingsServlet.java:197-200 | an exact multiple of a unit passes the `% unit == 0` test |
| SettingsServlet.DefaultExpiryShownInHours | src/main/java/org/jivesoftware/openfire/plugin/passwordreset/servlet/admin/PasswordResetSettingsServlet.java:196-202 | the default of five hours is shown as 5 HOURS |
| SettingsServlet.PluginProperties.Set | src/main/java/org/jivesoftware/openfire/plugin/passwordreset/servlet/admin/PasswordResetSettingsServlet.java:124-131 | the stored configuration becomes the given one |
| SettingsServlet.DoPost | src/main/java/org/jivesoftware/openfire/plugin/passwordreset/servlet/admin/PasswordResetSettingsServlet.java:69-109 | actions are taken in this order: read-only, cancel, update, test, unknown. Only a valid update changes the configuration, and it stores what handleUpdate stores as written: every field but the sender name. A test sends the composed email to the admin with the stored configuration, and only when the form is valid and the address is mailable |
| SettingsServlet.ZeroMaximumAlwaysAccepted | src/main/java/org/jivesoftware/openfire/plugin/passwordreset/servlet/admin/PasswordResetSettingsServlet.java:246-256 | a maximum of "0" is accepted whatever the minimum |
| SettingsServlet.UnparsableMinimumRejectsPositiveMaximum | src/main/java/org/jivesoftware/openfire/plugin/passwordreset/servlet/admin/PasswordResetSettingsServlet.java:251-253 | with an unparsable minimum, every positive maximum below Integer.MAX_VALUE is too short |
| SettingsServlet.UnsupportedUnitRejected | src/main/java/org/jivesoftware/openfire/plugin/passwordreset/servlet/admin/PasswordResetSettingsServlet.java:269-276 | SECONDS, a real ChronoUnit, and "minutes", which is not one, both give the period error |
| ChangePasswordServlet.ValidateNewPassword | src/main/java/org/jivesoftware/openfire/plugin/passwordreset/servlet/client/PasswordResetChangePasswordServlet.java:164-174 | too short below MIN_LENGTH; too long above a positive MAX_LENGTH; no error exactly when neither applies |
| ChangePasswordServlet.ValidateConfirmation | src/main/java/org/jivesoftware/openfire/plugin/passwordreset/servlet/client/PasswordResetChangePasswordServlet.java:157-162 | no error exactly when the confirmation equals the password |
| ChangePasswordServlet.FormFromRequest | src/main/java/org/jivesoftware/openfire/plugin/passwordreset/servlet/client/PasswordResetChangePasswordServlet.java:146-155 | userId, token, password and confirmation are the submitted parameters; the two error fields are the verdicts of validateNewPassword and validateNewPasswordConfirmation; the form is valid exactly when the length rules hold and the confirmation matches |
| ChangePasswordServlet.Authorizes | src/main/java/org/jivesoftware/openfire/plugin/passwordreset/servlet/client/PasswordResetChangePasswordServlet.java:91-102 | the guard holds only when a live row carries the token for the named user |
| ChangePasswordServlet.DoGet | src/main/java/org/jivesoftware/openfire/plugin/passwordreset/servlet/client/PasswordResetChangePasswordServlet.java:38-57 | the change-password form when the token resolves, the bad-token page when it does not, the error page when the database fails |
| ChangePasswordServlet.HandleUpdate | src/main/java/org/jivesoftware/openfire/plugin/passwordreset/servlet/client/PasswordResetChangePasswordServlet.java:83-117 | An invalid form touches nothing. A failed lookup sets the failed message. A token that does not resolve to the named user gives the bad-token page and no change. Otherwise the password is set and then the user's tokens are deleted. A password changes only on the full guard, and after a change the link never authorizes again |
| ChangePasswordServlet.DoPost | src/main/java/org/jivesoftware/openfire/plugin/passwordreset/servlet/client/PasswordResetChangePasswordServlet.java:68-81 | cancel before update before unknown; only update may change state, and then exactly as handleUpdate: the page, the table and the passwords of each branch, a password change only under the full guard, and a spent link after success |
| ChangePasswordServlet.DefaultLengthsNeedEightCharacters | src/main/java/org/jivesoftware/openfire/plugin/passwordreset/servlet/client/PasswordResetChangePasswordServlet.java:164-174 | with the default lengths, a password is acceptable exactly when it has at least 8 characters |
| ChangePasswordServlet.SpentLinkNeverAuthorizesAgain | src/main/java/org/jivesoftware/openfire/plugin/passwordreset/servlet/client/PasswordResetChangePasswordServlet.java:97-104 | after the tokens are deleted, the same form fails the guard at any later time |
| ChangePasswordServlet.OtherUsersTokenRejected | src/main/java/org/jivesoftware/openfire/plugin/passwordreset/servlet/client/PasswordResetChangePasswordServlet.java:91-102 | a token that belongs to someone else never authorizes a change for the named user |
| SendEmailServlet.ValidateUser | src/main/java/org/jivesoftware/openfire/plugin/passwordreset/servlet/client/PasswordResetSendEmailServlet.java:192-197 | no error exactly when the identifier is non-empty |
| SendEmailServlet.Form.Blank | src/main/java/org/jivesoftware/openfire/plugin/passwordreset/servlet/client/PasswordResetSendEmailServlet.java:173-178 | enabled exactly when ENABLED holds and the provider is writable; valid exactly when enabled |
| SendEmailServlet.Form.FromRequest | src/main/java/org/jivesoftware/openfire/plugin/passwordreset/servlet/client/PasswordResetSendEmailServlet.java:180-189 | valid exactly when enabled and the identifier is non-empty; not yet sent |
| SendEmailServlet.FirstMatchIndex | src/main/java/org/jivesoftware/openfire/plugin/passwordreset/servlet/client/PasswordResetSendEmailServlet.java:146-151 | the first position whose email equals the identifier ignoring case; none exactly when no account matches |
| SendEmailServlet.FirstWithEmail | src/main/java/org/jivesoftware/openfire/plugin/passwordreset/servlet/client/PasswordResetSendEmailServlet.java:142-155 | a matching account, or none exactly when no account matches |
| SendEmailServlet.UsersPage | src/main/java/org/jivesoftware/openfire/plugin/passwordreset/servlet/client/PasswordResetSendEmailServlet.java:146 | `getUsers(start, n)`: at most n accounts, in order from `start`, empty exactly past the end |
| SendEmailServlet.GetUserFromEmail | src/main/java/org/jivesoftware/openfire/plugin/passwordreset/servlet/client/PasswordResetSendEmailServlet.java:142-155 | the batch loop returns exactly the first matching account in provider order |
| SendEmailServlet.ParseJid | src/main/java/org/jivesoftware/openfire/plugin/passwordreset/servlet/client/PasswordResetSendEmailServlet.java:126 | the node is the text before the first '@' (none when that text is empty); the domain is the text after that '@' up to the first '/' or the end |
| SendEmailServlet.IdentifiedUser | src/main/java/org/jivesoftware/openfire/plugin/passwordreset/servlet/client/PasswordResetSendEmailServlet.java:123-140 | without '@', by username only; with '@' and a non-local JID, by the email search; with a local JID, the lookup `LocalJidLookup` states; any result is an existing account |
| SendEmailServlet.GetUserFromIdentifier | src/main/java/org/jivesoftware/openfire/plugin/passwordreset/servlet/client/PasswordResetSendEmailServlet.java:123-140 | the account the identifier rules pick |
| SendEmailServlet.HandleSend | src/main/java/org/jivesoftware/openfire/plugin/passwordreset/servlet/client/PasswordResetSendEmailServlet.java:84-110 | A token is stored and mail composed only for a found account, and the table is untouched otherwise. `emailSent` becomes true unless storing the token failed. On that failure the error message is shown |
| SendEmailServlet.DoGet | src/main/java/org/jivesoftware/openfire/plugin/passwordreset/servlet/client/PasswordResetSendEmailServlet.java:62-68 | the blank form, enabled exactly when ENABLED holds and the provider is writable |
| SendEmailServlet.DoPost | src/main/java/org/jivesoftware/openfire/plugin/passwordreset/servlet/client/PasswordResetSendEmailServlet.java:70-82 | an invalid form is shown again and nothing happens. For a valid form and no account found, the table is unchanged and nothing is sent; for a found account, a token row is stored after the purge and the composed email is sent when the address is mailable; for a valid form without a database failure, the whole page (identifier, no error, email sent, no notice) is the same whether or not the account exists; a failure to store the token shows the failed notice |
| SendEmailServlet.EmailSearchIgnoresCase | src/main/java/org/jivesoftware/openfire/plugin/passwordreset/servlet/client/PasswordResetSendEmailServlet.java:148 | identifiers equal up to case find the same account |
| SendEmailServlet.EmailSearchFindsEarliest | src/main/java/org/jivesoftware/openfire/plugin/passwordreset/servlet/client/PasswordResetSendEmailServlet.java:142-155 | the search returns the earliest matching account |
| SendEmailServlet.LocalJidLookup | src/main/java/org/jivesoftware/openfire/plugin/passwordreset/servlet/client/PasswordResetSendEmailServlet.java:124-135 | for an identifier with '@' whose JID is local: the account its node names when there is one, and otherwise (no node, or no such account) the email search |
| SendEmailServlet.LocalJidFallsBackToEmail | src/main/java/org/jivesoftware/openfire/plugin/passwordreset/servlet/client/PasswordResetSendEmailServlet.java:124-135 | `node@xmppDomain` whose node names no account is looked up by the email search on the whole identifier |
| SendEmailServlet.LocalJidPreferredToEmail | src/main/java/org/jivesoftware/openfire/plugin/passwordreset/servlet/client/PasswordResetSendEmailServlet.java:124-132 | `node@xmppDomain` names the account with that username, ahead of any email match |
| SendEmailServlet.BareNameNeverSearchesEmail | src/main/java/org/jivesoftware/openfire/plugin/passwordreset/servlet/client/PasswordResetSendEmailServlet.java:136-139 | an identifier without '@' that is no username finds nobody, even when it matches an email |

## Findings

| source | as written | input that shows it | evidently intended | confidence | as-written member | corrected member |
|---|---|---|---|---|---|---|
| src/main/java/org/jivesoftware/openfire/plugin/passwordreset/servlet/admin/PasswordResetSettingsServlet.java:122-131 | handleUpdate validates the submitted sender name and reports "settings updated". It sets every property except SENDER_NAME. | A valid form with sender-name "Support" over the default configuration: the page then shows "Openfire" again. | SENDER_NAME is set from the form like the other fields. | high (not executed) | SettingsServlet.ApplyUpdateAsWritten, SettingsServlet.SavedFormAsWritten, SettingsServlet.SenderNameLostAsWritten, SettingsServlet.DefaultSenderNameSticks, SettingsServlet.DoPost | SettingsServlet.ApplyUpdate, SettingsServlet.SavedFormShowsSubmittedValues |

`SettingsServlet.DoPost` follows the code as written. `ApplyUpdate` and `SavedFormShowsSubmittedValues` state the corrected behaviour.

## Left out

- Database access (JDBC connections, statements, `SqlExceptionSupplier`) is not modelled. The table is a sequence, and a failure is an explicit argument saying which step fails.
- The `SELECT userId … WHERE token = ?` query has no ORDER BY. The model takes the first matching row in storage order; with unique tokens this makes no difference.
- Timestamps are modelled as milliseconds compared with `<`. `NOW()` on the database and `Instant.now()` in Java are assumed to be the same clock, `now`.
- `ORDER BY userId, expires` is modelled with code-point order on userIds. The database's collation is not modelled.
- `StringUtils.randomString` is a parameter of 32 characters. The property that two calls give different tokens belongs to the random generator and is not modelled.
- TokenManager.PasswordResetTokenManager.GenerateToken does not model the `long` overflow of `now + expiry`.
- Mailer.SendEmail: `EmailService.sendMessage` is an output value, not a delivery.
- Mailer.ResetUrl: `URI.create`, which may reject or escape a malformed server URL, is not modelled. The URL is the plain concatenation.
- `EmailAddressValidator.isValidStrict` is a function parameter.
- The mailer's ignored-domain test follows the code: a plain `endsWith` on the lower-cased address. A label-aware domain match would not suppress `notexample.com`, but the code does; `Mailer.SuffixMatchIgnoresLabels` proves this.
- Text.ToLowerFixesLower: `toLowerCase(Locale.ENGLISH)` is modelled on the ASCII letters only.
- Text.EqualsIgnoreCase: `equalsIgnoreCase` is modelled on the ASCII letters only.
- ParseDecimal accepts the ASCII digits '0' to '9' only. Java's parsers accept every Unicode decimal digit (`Character.digit`), so a numeral such as "٣" (ARABIC-INDIC DIGIT THREE) parses in Java and not in the model.
- ParseInteger inherits the ASCII-only digit set of ParseDecimal: `StringUtils.parseInteger` and `Integer.valueOf` accept other Unicode decimal digits.
- ParseLong inherits the ASCII-only digit set of ParseDecimal: `Long.parseLong` accepts other Unicode decimal digits.
- SubstituteFillsTemplate covers templates made of `$`-free text and the four placeholders, with values free of `$`. Other inputs are covered only step by step through `ReplaceAll`; LaterPlaceholdersApplyToEarlierValues shows a value that is itself a placeholder being replaced again.
- `String.length()` is modelled as the number of characters, not UTF-16 code units.
- Accounts.LookupUser: `UserManager.getUser` normalizes usernames (trimming, lower-casing) and may query a remote provider; the model compares usernames exactly. A null display name is not modelled.
- SendEmailServlet.ParseJid keeps only the split at the first '@' and the first following '/'. Stringprep and the exceptions that `new JID` throws on malformed input are not modelled. `XMPPServer.isLocal` is modelled as equality with the server's XMPP domain.
- Servlet plumbing is not modelled: request dispatching, JSP rendering, sessions, `localize` (message keys stand for texts, and the length arguments of the password messages are dropped), `WebManager` (the admin account is a parameter), and the audit-log entry written by `logEvent`.
- The settings form's list of pending requests (`Dto.resetRequests`) is not part of the modelled `Dto`. That listing, and the purge it runs, is modelled by `GetResetRequests` on its own.
- SettingsServlet.GetExpiry gives none for units other than MINUTES, HOURS and DAYS, where `Duration.of` would compute or throw. The servlet calls it only on valid forms, whose unit is one of the three. For a supported unit, `Duration.of` throws `ArithmeticException` when the count times the unit overflows a long number of seconds (e.g. Long.MAX_VALUE MINUTES); the model returns that duration instead.
- SettingsServlet.DtoFromConfig takes the stored expiry as milliseconds. The `Duration` arithmetic (nanoseconds, `toMillis` overflow) is not modelled.
- The bounds `SystemProperty` enforces (`MIN_LENGTH` at least 1, `MAX_LENGTH` at least 0) are not modelled: the configuration holds any integers.
- `ParamUtils.getBooleanParameter` is modelled as true for "true" or "on".
- Concurrency between requests is not modelled: the code takes no locks, and each operation is one atomic step.
