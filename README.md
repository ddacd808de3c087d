# UserManagement registration core, in Dafny

This project models the registration path of the UserManagement PHP application:

- the flat-file user store `FileUserRepository`: a `|`-separated record codec, and `save` / `findByEmail` / `existsByEmail` over `users.txt`;
- the input validator `UserValidator`: four checks in a fixed order, where the first failure decides the error;
- the registration transaction `UserRegistrationService`: validate, refuse a known email, hash, build the `User`, save, then notify, with notification failures swallowed;
- the `User` value and its `toArray`;
- the string work of `EmailNotificationService`: header sanitising, the two mail bodies, recipients and subjects, and the 100-byte body preview;
- the legacy `UserManager`, an older variant of the same registration that writes unescaped comma-separated lines and has no duplicate check.

Modules and files:

| file | module | models |
|---|---|---|
| `outcomes.dfy` | `Outcomes` | `Option`, `Result`, `Outcome`, and the application's exceptions as one `Error` datatype |
| `php.dfy` | `Php` | the PHP runtime the code relies on: a file (`Absent` or `Present(content)`), `empty`, `trim`, `explode` (`Split`), `implode` (`Join`) |
| `entity.dfy` | `Entity` | `DateTime` and its `Y-m-d H:i:s` rendering, the `User` datatype, `toArray` |
| `validation.dfy` | `Validation` | `UserValidator` |
| `repository.dfy` | `Repository` | `FileUserRepository`: the codec as functions, the store as a class over a `File` field |
| `notification.dfy` | `Notification` | `EmailNotificationService`, and `NotificationServiceInterface` as the recording class `NotificationPort` |
| `registration.dfy` | `Registration` | `UserRegistrationService` |
| `legacy.dfy` | `Legacy` | `UserManager.php` |

How the effects are represented:

- A PHP string is a byte string. Each `char` stands for one byte, so `strlen` is `|s|`, and `PHP_EOL` is `"\n"`.
- The store's state is the whole content of `users.txt`, not a list of lines. `findByEmail` trims the whole content before it splits it, so the content is what decides which lines it sees.
- Each imperative operation is a method proved against a function of the old state: `Save` against `SaveEffect`, `FindByEmail` against `FindResult`, `RegisterUser` against `Register`, `RegisterUserAndNotify` against `LegacyRegister`. The properties are proved as lemmas about those functions.
- Collaborators the model cannot see are parameters:
  - `isEmail` for `filter_var(..., FILTER_VALIDATE_EMAIL)`;
  - `hash` for the Argon2id hasher, which returns `None` when it throws;
  - `md5`;
  - `parseDate` for `new DateTimeImmutable($s)`, which returns `None` when it throws;
  - `now` for the clock.
- Faults are boolean parameters of the call they affect:
  - `fopen` failing;
  - `flock` failing;
  - `file_get_contents` failing;
  - a notification throwing.

What the codec in `FileUserRepository` does, as the model states it:

- `escapeField` puts a backslash in front of every `|` and never escapes the backslash itself. `unescapeField` undoes it for every string (`Repository.UnescapeEscape`).
- `parseRecord` splits with a plain `explode` that ignores escapes. A record whose fields hold `|` therefore splits into more than four pieces and does not parse back (`Repository.RecordRoundTrip`), so `findByEmail` never finds it (`Repository.SeparatorHidesRecord`).
- The name rule bans `,` but not `|`: the name `John|Doe` passes validation (`Validation.SeparatorPassesNameCheck`, `Registration.JohnPipeDoeIsAccepted`). Valid data whose name holds `|` registers twice with the same email (`Registration.SeparatorInNameRegistersTwice`).
- `save` ignores the result of `fwrite` (src/Repository/FileUserRepository.php:41).

## Model

| member | source | states |
|---|---|---|
| Php.Trim | src/Repository/FileUserRepository.php:81 | `trim` leaves no default trim character at either end of its result |
| Php.TrimRightDrops | src/Repository/FileUserRepository.php:81 | what `rtrim` drops from the end are all trim characters |
| Php.TrimStripsOnlyTrimChars | src/Repository/FileUserRepository.php:81 | `trim` keeps a contiguous middle part of its input and drops nothing but trim characters from either end |
| Php.Join | src/Repository/FileUserRepository.php:106 | `implode`, defined by its body; `Php.JoinSplit` and `Php.SplitJoin` state that it is the inverse of `explode` |
| Php.Split | src/Repository/FileUserRepository.php:116 | `explode` with a one-character delimiter gives one more piece than there are delimiters, and no piece holds the delimiter |
| Php.JoinSplit | src/Repository/FileUserRepository.php:106-116 | `implode` with the delimiter undoes `explode` on every string |
| Php.SplitJoin | src/Repository/FileUserRepository.php:106-116 | `explode` undoes `implode` when no part holds the delimiter |
| Php.AppendedLine | UserManager.php:28-34 | a line appended to a file that ends in a line break is the last non-empty piece when the file is split on line breaks |
| Entity.Decimal | src/Entity/User.php:48 | the zero-padded decimal of a date field is all digits and at least as wide as asked |
| Entity.DecimalValue | src/Entity/User.php:48 | reading the printed digits back gives the number |
| Entity.DecimalLength | src/Entity/User.php:48 | a number below 10^w is printed in exactly w digits |
| Entity.Format | src/Entity/User.php:48 | `format('Y-m-d H:i:s')` is at least 19 characters of digits, `-`, space and `:`, and starts and ends with a digit |
| Entity.FormatHasNo | src/Repository/FileUserRepository.php:110 | the rendering never holds the pipe, a line break or any other non-timestamp character |
| Entity.FormatFields | src/Entity/User.php:48 | each field of a calendar time is read back from its fixed place in the 19-character rendering |
| Entity.FormatInjective | src/Entity/User.php:48 | two calendar times with the same rendering are equal |
| Entity.ToArray | src/Entity/User.php:42-50 | `toArray` has exactly the keys name, email, hashedPassword and registeredAt, with the field values and the formatted time |
| Entity.ToArrayInjective | src/Entity/User.php:42-50 | users with calendar times and the same `toArray` are the same user |
| Validation.MissingAmong | src/Validation/UserValidator.php:29-33 | a field is listed exactly when it is required and `empty` |
| Validation.MissingRequired | src/Validation/UserValidator.php:29-33 | the missing fields are listed in the order name, email, password |
| Validation.CollectMissingFields | src/Validation/UserValidator.php:27-33 | the `foreach` loop collects exactly the missing fields, in order |
| Validation.RequiredFieldsCheck | src/Validation/UserValidator.php:25-40 | passes exactly when all three keys are present and none is "" or "0" |
| Validation.ContainsInRange | src/Validation/UserValidator.php:58-68 | `preg_match('/[x-y]/')` holds exactly when some byte lies in the range |
| Validation.EmailCheck | src/Validation/UserValidator.php:42-47 | passes exactly when the email filter accepts, and otherwise fails with "Invalid email format: " plus the value |
| Validation.PasswordCheck | src/Validation/UserValidator.php:49-69 | passes exactly when the password has at least 8 bytes, an uppercase letter, a lowercase letter and a digit; otherwise the first rule broken, in the order length, uppercase, lowercase, digit, gives its own message |
| Validation.ContainsForbidden | src/Validation/UserValidator.php:84 | the name regex matches exactly when a byte is `,`, `"`, CR or LF |
| Validation.NameCheck | src/Validation/UserValidator.php:71-87 | passes exactly when the trimmed name has 2 to 100 bytes and no forbidden character; a too short, too long, or (within the length bounds) forbidden-character name gets its own message |
| Validation.ValidationOutcome | src/Validation/UserValidator.php:17-23 | `validate` passes exactly when every rule holds, and every failure is a validation error |
| Validation.Validate | src/Validation/UserValidator.php:17-23 | the method runs the four checks in order and returns the outcome of the specification function |
| Validation.MissingFieldsComeFirst | src/Validation/UserValidator.php:17-40 | any missing field is reported first, with all missing fields listed |
| Validation.EmailBeforePassword | src/Validation/UserValidator.php:42-47 | once the fields are present, a bad email is reported as "Invalid email format: " plus the value, whatever the password and name |
| Validation.LengthBeforeCharacterClasses | src/Validation/UserValidator.php:51-55 | a short password gets the length message before the character classes or the name are checked |
| Validation.PasswordBeforeName | src/Validation/UserValidator.php:17-23 | with the fields present and the email accepted, a password that breaks any password rule fails `validate` with that rule's message, whatever the name is |
| Validation.NameLengthBoundary | src/Validation/UserValidator.php:73-81 | a trimmed name of 100 bytes is accepted and one of 101 bytes is refused with the length message |
| Validation.SeparatorPassesNameCheck | src/Validation/UserValidator.php:84-86 | `John,Doe` is refused as having invalid characters, while `John` + pipe + `Doe` passes |
| Validation.TestPasswordIsStrong | tests/Unit/Validation/UserValidatorTest.php:23-34 | the tests' password `SecurePass123` meets every password rule |
| Validation.NameDecides | src/Validation/UserValidator.php:17-23 | when the fields are present and the email and password pass, the name check alone decides |
| Validation.NameAndEmailReportedMissing | tests/Unit/Validation/UserValidatorTest.php:47-55 | with only a password, the error is "Missing required fields: name, email" |
| Validation.OneLetterNameRefused | tests/Unit/Validation/UserValidatorTest.php:117-127 | the name `J` is refused as shorter than 2 characters |
| Validation.CommaNameRefused | tests/Unit/Validation/UserValidatorTest.php:129-139 | the name `John,Doe` is refused as holding invalid characters |
| Repository.Escape | src/Repository/FileUserRepository.php:134-138 | escaping lengthens a field by exactly one byte per pipe; `Repository.UnescapeEscape` states that it is undone by unescaping |
| Repository.Unescape | src/Repository/FileUserRepository.php:140-143 | unescaping never lengthens a field |
| Repository.EscapeCount | src/Repository/FileUserRepository.php:134-138 | the escaped field holds as many pipes as the field |
| Repository.EscapeKeeps | src/Repository/FileUserRepository.php:134-138 | escaping adds no character other than the backslash and drops none |
| Repository.EscapeIdentity | src/Repository/FileUserRepository.php:134-138 | a field without a pipe is written as it is |
| Repository.UnescapeEscape | src/Repository/FileUserRepository.php:134-143 | `unescapeField(escapeField(s)) == s` for every string |
| Repository.CreateRecord | src/Repository/FileUserRepository.php:104-112 | `createRecord`, defined by its body; `Repository.RecordShape`, `Repository.RecordSeparators` and `Repository.RecordRoundTrip` state its properties |
| Repository.ParseRecord | src/Repository/FileUserRepository.php:114-132 | `parseRecord`, defined by its body: none unless the line splits into four pieces and the timestamp parses; `Repository.RecordRoundTrip` states what it gives back for a written record |
| Repository.RecordShape | src/Repository/FileUserRepository.php:104-112 | a record is the escaped name, email, hash and timestamp, in that order, with a pipe between each two |
| Repository.RecordSeparators | src/Repository/FileUserRepository.php:104-112 | a record holds three separators plus every pipe of its fields |
| Repository.RecordFields | src/Repository/FileUserRepository.php:104-116 | a record with no pipe in its fields splits into exactly its four escaped fields |
| Repository.RecordRoundTrip | src/Repository/FileUserRepository.php:104-132 | a written record parses back exactly when no field holds a pipe and the timestamp parses, and then gives back the name, email and hash |
| Repository.Lines | src/Repository/FileUserRepository.php:81 | the lines `findByEmail` reads, defined by its body as `explode` of the trimmed content; `Repository.AppendedRecordIsLastLine` states where a saved record lands |
| Repository.Matches | src/Repository/FileUserRepository.php:84-89 | a line that is not `empty`, parses, and holds exactly the email; defined by its body and used by `Repository.LookupNone` and `Repository.LookupFirst` |
| Repository.Lookup | src/Repository/FileUserRepository.php:83-92 | a user found for an email has exactly that email |
| Repository.LookupNone | src/Repository/FileUserRepository.php:83-94 | nothing is found exactly when no non-empty line parses to a user with that email |
| Repository.LookupFirst | src/Repository/FileUserRepository.php:83-92 | otherwise the user of the first matching line is returned |
| Repository.SaveEffect | src/Repository/FileUserRepository.php:27-60 | a save succeeds exactly when open and lock succeed, and then appends `createRecord(user)` plus a line break; a failure is a storage error whose message starts with "Failed to save user: " and that leaves the content as it was |
| Repository.FindResult | src/Repository/FileUserRepository.php:67-102 | a missing file finds nothing, an unreadable one is a storage error whose message starts with "Failed to find user: ", and a found user has the email asked for |
| Repository.ExistsResult | src/Repository/FileUserRepository.php:62-65 | `existsByEmail` fails exactly when the file is unreadable, and otherwise holds exactly when some line of the file matches |
| Repository.FileUserRepository.constructor | src/Repository/FileUserRepository.php:20-25 | the store starts over the given directory, date parser and file |
| Repository.FileUserRepository.Save | src/Repository/FileUserRepository.php:27-60 | the method's result and new file are those of `SaveEffect` |
| Repository.FileUserRepository.FindByEmail | src/Repository/FileUserRepository.php:67-102 | the scan returns what `FindResult` specifies and changes nothing, so repeated lookups agree |
| Repository.FileUserRepository.ExistsByEmail | src/Repository/FileUserRepository.php:62-65 | the method returns what `ExistsResult` specifies |
| Repository.RecordIsOneLine | src/Repository/FileUserRepository.php:41 | a user with single-line fields and a trimmed name is written as one line with no trim character at either end |
| Repository.TrimRightDropsBreak | src/Repository/FileUserRepository.php:81 | `trim` drops the final line break after a record |
| Repository.TrimLeftAppended | src/Repository/FileUserRepository.php:81 | `ltrim` does not reach into an appended record |
| Repository.TrimAppended | src/Repository/FileUserRepository.php:81 | trimming the file after an append keeps the record whole at its end |
| Repository.TrimLeftKeepsBreak | src/Repository/FileUserRepository.php:81 | `ltrim` keeps a final line break |
| Repository.AppendedRecordIsLastLine | src/Repository/FileUserRepository.php:41-81 | a one-line record appended by `save` is the last line `findByEmail` reads |
| Repository.SavedUserIsFound | src/Repository/FileUserRepository.php:27-102 | after a successful save of a user with no pipe and no line break, `findByEmail` finds a user with that email |
| Repository.SeparatorHidesRecord | src/Repository/FileUserRepository.php:106-127 | saved into an empty file, a user with a pipe in any field is never found again |
| Notification.ReplaceChar | src/Service/EmailNotificationService.php:96 | `str_replace` of one character keeps the length and replaces exactly that character |
| Notification.Sanitize | src/Service/EmailNotificationService.php:93-97 | `sanitizeForEmail` keeps the length, turns every CR, LF and TAB into a space and keeps every other byte |
| Notification.SanitizedHasNoBreak | src/Service/EmailNotificationService.php:93-97 | no CR, LF or TAB survives sanitising |
| Notification.SanitizeIdempotent | src/Service/EmailNotificationService.php:93-97 | sanitising twice is sanitising once |
| Notification.SanitizeClean | src/Service/EmailNotificationService.php:93-97 | text without CR, LF or TAB is unchanged |
| Notification.WelcomeFirstLine | src/Service/EmailNotificationService.php:49-63 | the welcome body's first line is exactly "Hi " plus the sanitised name plus ",", whatever the name holds |
| Notification.AdminNameLine | src/Service/EmailNotificationService.php:65-76 | the admin body's first three lines are the header, a blank line and "Name: " plus the sanitised name |
| Notification.WelcomeBody | src/Service/EmailNotificationService.php:49-63 | the welcome body, defined by its body as the template lines joined by line breaks; `Notification.WelcomeFirstLine` states its first line |
| Notification.AdminBody | src/Service/EmailNotificationService.php:65-76 | the admin body, defined by its body as the template lines joined by line breaks; `Notification.AdminNameLine` states its first three lines |
| Notification.WelcomeEmail | src/Service/EmailNotificationService.php:23-28 | the welcome mail goes to the user's email under "Welcome to OurPlatform!", opening with the sanitised greeting |
| Notification.AdminEmail | src/Service/EmailNotificationService.php:36-41 | the admin mail goes to admin@ourplatform.com under "New User Registration", with the sanitised name on line 3 |
| Notification.Preview | src/Service/EmailNotificationService.php:89 | the preview is the first min(length of the body, 100) bytes plus "...", and is the whole body plus "..." when the body is short |
| Notification.Record | src/Service/EmailNotificationService.php:78-91 | the `EMAIL_SENT` entry keeps the recipient and subject, and its preview is at most 103 bytes |
| Notification.EmailNotificationService.constructor | src/Service/EmailNotificationService.php:18-21 | a new notifier has sent nothing |
| Notification.EmailNotificationService.SendEmail | src/Service/EmailNotificationService.php:78-91 | `sendEmail` adds exactly one entry for the mail to the outbox |
| Notification.EmailNotificationService.SendWelcomeNotification | src/Service/EmailNotificationService.php:23-34 | adds exactly the entry of the welcome mail |
| Notification.EmailNotificationService.SendAdminNotification | src/Service/EmailNotificationService.php:36-47 | adds exactly the entry of the admin mail |
| Notification.NotificationPort.constructor | src/Service/NotificationServiceInterface.php:12-23 | a new port has been asked for nothing |
| Notification.NotificationPort.SendWelcomeNotification | src/Service/NotificationServiceInterface.php:17 | the call is recorded and succeeds unless it throws |
| Notification.NotificationPort.SendAdminNotification | src/Service/NotificationServiceInterface.php:22 | the call is recorded and succeeds unless it throws |
| Registration.NoticesFor | src/Service/UserRegistrationService.php:68-77 | the welcome is sent first, and the admin notification follows exactly when the welcome did not throw |
| Registration.Register | src/Service/UserRegistrationService.php:36-85 | `registerUser` as a function of the file, defined by its body; `Registration.RegisterContract` states what it promises |
| Registration.Admit | src/Service/UserRegistrationService.php:46-62 | the steps after validation, defined by its body; `Registration.AdmitContract` states them |
| Registration.Persist | src/Service/UserRegistrationService.php:65-77 | the steps from `save` on, defined by its body; `Registration.PersistContract` states them |
| Registration.PersistContract | src/Service/UserRegistrationService.php:65-77 | from `save` on: a failed save is a storage error that notifies nobody and keeps the content; a good one appends the record and returns the user |
| Registration.AdmitContract | src/Service/UserRegistrationService.php:46-77 | after validation: success exactly when the email is unknown, the hash works and the save works; every failure keeps the content and notifies nobody |
| Registration.RegisterContract | src/Service/UserRegistrationService.php:36-85 | a validation failure propagates with nothing read or written; no failure notifies or changes the content; success exactly when every step succeeds, returning `User(trim(name), email, hash, now)`, whose record was appended and announced |
| Registration.UserRegistrationService.constructor | src/Service/UserRegistrationService.php:19-26 | the service is wired to the given store, notifier, email filter and hasher |
| Registration.UserRegistrationService.RegisterUser | src/Service/UserRegistrationService.php:36-85 | the method's result, new file and notifications are those `Register` specifies |
| Registration.UserRegistrationService.SaveAndNotify | src/Service/UserRegistrationService.php:65-77 | the save and the notifications, with their failures swallowed, are those `Persist` specifies |
| Registration.UserRegistrationService.UserExists | src/Service/UserRegistrationService.php:90-93 | `userExists` is the store's `existsByEmail` |
| Registration.NotificationFailuresSwallowed | src/Service/UserRegistrationService.php:68-84 | the result and the file do not depend on whether a notification throws |
| Registration.AdmitSwallows | src/Service/UserRegistrationService.php:68-77 | the same, from the duplicate check on |
| Registration.PersistSwallows | src/Service/UserRegistrationService.php:68-77 | the same, from `save` on |
| Registration.DuplicateRefused | src/Service/UserRegistrationService.php:46-51 | a known email is refused as "User with email ... already exists", with nothing written or sent |
| Registration.RegisteredUserIsSingleLine | src/Service/UserRegistrationService.php:58 | a trimmed name that passed validation keeps the record on one line |
| Registration.SecondRegistrationRefused | src/Service/UserRegistrationService.php:46-65 | after a successful registration whose fields hold no pipe, a second one with the same email fails, writes nothing and, once valid, is refused as a duplicate |
| Registration.SeparatorInNameRegistersTwice | src/Service/UserRegistrationService.php:43-65 | valid data whose trimmed name holds a pipe registers twice with the same email on a new file |
| Registration.EmptyFileKnowsNobody | src/Repository/FileUserRepository.php:81-94 | an empty file holds no email |
| Registration.JohnPipeDoeIsAccepted | src/Validation/UserValidator.php:84 | the name `John` + pipe + `Doe` with the tests' email and password passes validation |
| Legacy.LegacyRegister | UserManager.php:9-64 | succeeds exactly when the three fields are present, the email passes and the password has at least 6 bytes, and the file opens; then appends `name,email,md5,time` and a line break, and otherwise leaves the file alone |
| Legacy.HoldsEmail | UserManager.php:77-78 | a line whose second comma-separated field is exactly the email, defined by its body; `Legacy.LegacyFields` states which field that is |
| Legacy.LegacyExists | UserManager.php:67-84 | what `checkUserExists` answers, defined by its body as an existential over the lines; `Legacy.UserManager.CheckUserExists` is proved equal to it |
| Legacy.UserManager.constructor | UserManager.php:6 | the manager starts over the given file |
| Legacy.UserManager.RegisterUserAndNotify | UserManager.php:9-64 | the method's result and new file are those of `LegacyRegister` |
| Legacy.UserManager.CheckUserExists | UserManager.php:67-84 | false for a missing file; otherwise true exactly when some line's second comma-separated field is the email |
| Legacy.LegacyDuplicatesAppended | UserManager.php:9-64 | there is no duplicate check: the same data registers twice and leaves two identical lines |
| Legacy.LegacyFields | UserManager.php:77-78 | the fields of a line whose name and email hold no comma are the name, then the email |
| Legacy.LegacyCleanRecordFound | UserManager.php:28-84 | a registered user whose name and email hold no comma and no line break is found by their email |
| Legacy.CommaInNameHidesRecord | UserManager.php:28-78 | a name holding a comma shifts the email out of the second field, so the user just registered is not found |

## Left out

- Real file-system I/O is not modelled: `fopen`, `fwrite`, `fclose`, `file_exists` and `file_get_contents` act on a `File` value. Their failures are boolean parameters of the call.
- `flock` and concurrency are not modelled, including the race between `existsByEmail` and `save`. The model is sequential, and a lock failure only leaves behind the file that `fopen('a')` created.
- Repository.FileUserRepository.Save: the result of `fwrite` is unchecked in the source, so the model assumes the write completes.
- The `FileUserRepository` constructor's `ensureDataDirectoryExists` (`mkdir`) is not modelled; directories are not part of the model.
- The logger and `error_log` calls are not modelled, because they are observable only as side effects. This covers the info and error logs of every class and the legacy success, failure and analytics lines. The `EMAIL_SENT` entry of `sendEmail` is the exception: it is the outbox of `EmailNotificationService`.
- `filter_var` is the parameter `isEmail`; the `addr-spec` syntax of section 3.4.1 of RFC 5322 is not modelled.
- `PasswordHashingService` (Argon2id, `verify`, `needsRehash`) and `md5` are the parameters `hash` and `md5`. Their cryptography is not modelled.
- `DateTimeImmutable`: time has second precision, and parsing a stored timestamp is the parameter `parseDate`. The microseconds kept by the returned user, and PHP's lenient date parser, are not modelled.
- The legacy code calls `date()` once per use. The model uses one `now` for the stored line, so it ignores clock ticks between those calls.
- The legacy welcome and admin mails are only built and logged, never stored, so they are left out with the logging.
- Registration.UserRegistrationService.RegisterUser: `registerUser` talks to its notifier through `NotificationServiceInterface`, which the model gives as `NotificationPort`: it records each notification asked for and can be made to throw. `EmailNotificationService` is modelled on its own. `NotificationServiceInterface` and `UserRepositoryInterface` have no behaviour of their own.
- Notification.WelcomeFirstLine: states only that the name cannot break out of its line, for the greeting line; it does not state where else the name appears in the body.
- Repository.SeparatorHidesRecord: shown for an empty file only. `Registration.SeparatorInNameRegistersTwice` covers the duplicate it allows.
- The user data is a `map<string, string>`. PHP takes `array $userData` under `declare(strict_types=1)`, so a non-string value that `empty` lets through (an integer email, say) makes `validateEmail`, `validatePassword` or `validateName` raise a `TypeError` instead of a `ValidationException` (src/Validation/UserValidator.php:20-22). Such values, and that error, are not modelled.
- Strings are sequences of `char`, one per byte; encodings and multibyte characters are not modelled.
- `example/usage.php` and the test files are not modelled; a few test cases are restated as lemmas.
