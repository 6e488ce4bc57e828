# Camp registration core, in Dafny

This project models the decision logic of a youth-camp registration site. The site has:
- a PHP back end: the live endpoint `register/api-direct.php`, the router `register/api/index.php`, the data layer `register/api/database.php` and the helpers in `register/api/config.php`;
- a Node copy of the back end: `register/src/js/utils.js`, `api.js` and `db.js`;
- the browser page `register/src/js/main.js`.

The four registration validators are pure functions from request fields to either normalised data or an error reply. They are the live endpoint, the router, the Node `validateForm`/`processRegistration`, and the page's pre-submit check. Each reads a map of strings and string lists, and each takes the current date as a parameter.

The two `registerParticipant` transactions are functions from an abstract database to an outcome and a new database. The database holds persons, link tables, rooms, activities and allergies. Statement failures come from an explicit fault oracle. A refusal or a rollback always returns the database unchanged.

The listing queries are filters over the abstract rows.

The `.env` loader is a fold over the file's lines.

PHP and JavaScript primitives are spelled out once, in shared modules:
- `Text`: `trim`, lower-casing, `strpos`, `explode`.
- `Numbers`: the `(int)` cast, `parseInt`, `is_numeric` and decimal rendering.
- `Html`: `htmlspecialchars` with `ENT_QUOTES`, and the JavaScript chain of replacements.
- `Uuid`: both version-4 UUID patterns.
- `Dates`: ISO dates, calendar-year age and the `y` of `DateTime::diff`.
- `Forms`: `$_POST`/`$_GET` and `FormData`.

PHP's `empty()` on a string means `""` or `"0"`. JavaScript truthiness of a string means non-empty. PHP's `preg` `$` also matches before a final newline, while the JavaScript pattern does not.

Each quirk of the code is modelled as written and stated as a lemma:
- The live endpoint resets its error list before the required-field check. So the host-note and activity errors it computed are never reported (`Direct.DiscardedNeverReported`).
- The router takes the absolute `diff()->y`. So a birth date 15 or more years in the future passes its age check (`Router.FutureBirthPasses`).
- The router reports a missing consent twice (`Router.MissingConsentTwice`).
- The router escapes the code before comparing it with the secret. So a secret containing markup can never be matched (`Router.MarkupSecretUnreachable`).
- The Node transaction has no duplicate-address check (`NodeStore.NoDuplicateCheck`).
- Every explicit refusal in the PHP `registerParticipant` closes the connection, and its `finally` closes it again. Under PHP 8 the second `close()` is a fatal error, so a taken address ends the request with a 500 and no message (`Store.SecondRegistrationAborted`, `Http.FromOutcome`).
- When the address-check query fails to run, a taken address is registered again (`Store.FailedCheckAdmitsDuplicate`).
- The router's exact age uses the current moment, time of day included. So a birth date exactly fourteen years ahead passes only at midnight (`Router.FourteenYearsAheadRefusedAfterMidnight`).
- The Node code calls `parseInt` without a radix, so `0x14` is an age of 20 (`NodeApi.HexAgeAccepted`).
- The page's check throws when the group is `iny` and the group-name control is missing (`Client.Check`).
- A custom allergy is stored as `Ine`, while the listing hides the name `iné`. Under a binary collation the custom row is listed to later registrants. Under the default case- and accent-insensitive `utf8_general_ci`, `Ine` equals `iné` and the row is hidden (`Store.CustomAllergyListed`).

## Model

| member | source | states |
|---|---|---|
| Text.Trim | register/api/config.php:105 | the result has no white space at either end and is the input with its leading and trailing white-space runs removed |
| Text.TrimIdempotent | register/api/config.php:105 | trimming a trimmed string changes nothing |
| Text.TrimOfTrimmed | register/api/config.php:105 | a string with no white space at either end is its own trim |
| Text.TrimPadded | register/api/index.php:112 | a word padded with white space on both sides trims back to the word |
| Text.Lower | register/src/js/main.js:410 | the letters A to Z are lowered in place and every other character is kept |
| Text.IndexOf | register/api/config.php:52 | `strpos` finds the first occurrence, and none exactly when the character is absent |
| Text.SplitFirst | register/api/config.php:58 | `explode` with limit 2 splits at the first separator; the name part holds no separator |
| Text.ReplaceAllAppend | register/src/js/utils.js:104-109 | a global replacement distributes over concatenation |
| Numbers.IntValShow | register/api/index.php:119-133 | the `(int)` cast reads a rendered integer back exactly |
| Numbers.ParseIntShow | register/src/js/main.js:453 | `parseInt(…, 10)` reads a rendered integer back exactly |
| Numbers.ParseIntAuto | register/src/js/api.js:27 | `parseInt` without a radix reads what the decimal reader reads unless the digits start with `0x` or `0X`, which switches to base 16 |
| Numbers.ParseIntAutoShow | register/src/js/utils.js:53 | `parseInt` without a radix reads a rendered integer back exactly |
| Numbers.HexPrefixCounts | register/src/js/api.js:27 | `0x14` reads as 20 without a radix but as 0 with radix 10 |
| Numbers.ShowIsNumeric | register/api/database.php:434 | a rendered integer passes `is_numeric` |
| Numbers.ShowEmptyIffZero | register/api/database.php:496 | a rendered id is `empty()` exactly when it is 0 |
| Html.EscapeChar | register/api/config.php:105 | each special character becomes an entity that starts with `&`, ends with `;` and holds no markup; any other character is kept |
| Html.Escape | register/api/config.php:105 | escaped text holds no `<`, `>`, `"` or `'`; it is never shorter, and it keeps its length exactly when there was no special character |
| Html.EscapeEntities | register/src/js/utils.js:104-109 | every `&` in escaped text begins one of the five entities |
| Html.EscapePlain | register/api/config.php:105 | text without special characters is unchanged |
| Html.ReplaceChainChar | register/src/js/utils.js:104-109 | on one character, the five replacements produce that character's entity |
| Html.ReplaceChainAppend | register/src/js/utils.js:104-109 | the five replacements distribute over concatenation |
| Html.ReplaceChainIsEscape | register/src/js/utils.js:104-109 | the JavaScript replacement chain (with `&` first) equals `htmlspecialchars` with `ENT_QUOTES` |
| Html.EscapeNotIdempotent | register/src/js/utils.js:104-109 | escaping twice differs from escaping once |
| Uuid.RenderedV4Accepted | register/api-direct.php:148-149 | the text form of any version-4 UUID matches both the JavaScript and the PHP pattern |
| Uuid.ParseRender | register/api-direct.php:148 | parsing the text form of a version-4 UUID gives back its octets |
| Uuid.ParsedIsVersion4 | register/src/js/main.js:101 | a token the pattern accepts denotes octets with version 4 and the RFC 9562 variant |
| Uuid.AcceptedIsV4 | register/src/js/main.js:101 | every accepted token is the lower-cased text form of a version-4 UUID |
| Uuid.TrailingNewline | register/api-direct.php:148-149 | the PHP pattern also accepts a valid token followed by a newline, the JavaScript one does not |
| Dates.ParseIso | register/api-direct.php:228 | a parsed date is a valid calendar date with a four-digit year |
| Dates.ParseFormat | register/api-direct.php:228 | parsing the ISO form of a valid date gives the date back |
| Dates.WholeYears | register/api/index.php:157 | whole years between ordered dates are the year difference or one less |
| Dates.ExactAgeNearCalendarAge | register/api/index.php:154-162 | for a past birth date, the `diff()->y` age is the calendar-year age or one less, and equal to it exactly when the birthday has come this year; the time of day does not change it |
| Config.Unquote | register/api/config.php:62-67 | a value wrapped in matching quotes loses exactly that outer pair; any other value is kept |
| Config.ParseLine | register/api/config.php:50-73 | comment lines and lines without `=` have no effect; an assigned name is trimmed and holds no `=` |
| Config.Apply | register/api/config.php:70-72 | applying lines never removes a variable |
| Config.UnassignedKept | register/api/config.php:50-74 | a variable no line assigns keeps its value, or stays unset |
| Config.LastAssignmentWins | register/api/config.php:70-72 | a variable ends with the value of its last assignment |
| Config.IgnoredLine | register/api/config.php:52-57 | inserting a comment line or a line without `=` anywhere in the file changes nothing |
| Config.SkipIgnored | register/api/config.php:52-54 | a skipped line in the fold can be dropped |
| Config.SplitAtFirst | register/api/config.php:58 | a line is cut at its first `=`, whatever the value holds |
| Config.SplitAfterName | register/api/config.php:52-58 | a line starting with a name is no comment and splits after the name, so the value may itself hold `=` |
| Config.AssignmentLine | register/api/config.php:52-72 | any non-comment line `name=value` assigns the trimmed, unquoted value to the trimmed name |
| Config.QuotedAssignmentLine | register/api/config.php:63-66 | a quoted value is stored without its quotes |
| Config.FromEnv | register/api/config.php:86-96 | both secrets, the host, the database name and the address are never empty |
| Config.UnsetEnvDefaults | register/api/config.php:86-96 | with no variable set every constant takes its built-in value |
| Config.SetVariableUsed | register/api/config.php:86-96 | a variable set to a non-`empty()` value is used, one set to `""` or `"0"` gives the built-in value, and each secret reads only its own variable |
| Config.ZeroSecretFallsBack | register/api/config.php:92 | a leader secret set to `0` is replaced by the built-in one |
| Config.SanitizeInput | register/api/config.php:104-106 | sanitized text has no white space at either end and holds no raw `<`, `>`, `"` or `'`; it is empty exactly when the trimmed input is |
| Config.VerifySecurityCodeIff | register/api/config.php:115-127 | with the configured secrets, a code passes exactly when the type is `veduci` with the leader secret or `host` with the guest secret |
| Store.AvailableAccommodation | register/api/database.php:75-108 | a listed room has free places and a type the registration type admits; every such room is listed, and every listed row is a stored room with its free places |
| Store.HostRoomsOnlyForHosts | register/api/database.php:99-108 | guests are offered guest rooms only; other types are offered none unless the gender itself is `host` |
| Store.AvailableActivities | register/api/database.php:33-48 | a listed activity has free places, computed as capacity minus links; every activity with a free place is listed, and every listed row is a stored activity |
| Store.Allergies | register/api/database.php:184-188 | the listing holds exactly the allergies whose name the collation does not equate with `iné`, unchanged |
| Store.OtherAllergyHidden | register/api/database.php:188 | `iné` is hidden under either collation; `Ine` and `INE` equal it under `utf8_general_ci` but not under a binary collation |
| Store.TypeCodeRoundTrip | register/api/database.php:256-261 | the three types are stored as 1, 2, 3 and read back; any other type is stored as a participant |
| Store.GenderCodeRoundTrip | register/api/database.php:323 | `muz` is stored as `M` and anything else as `F`; both genders read back |
| Store.StoredGroup | register/api/database.php:311-316 | a guest never gets an empty group; others get the looked-up name |
| Store.LinkRows | register/api/database.php:403-406 | one link per id at most, each for the new person |
| Store.LinkRowsComplete | register/api/database.php:403-406 | every id whose insert does not fail is linked |
| Store.LinkRowsSound | register/api/database.php:432-445 | every link points at an id whose insert did not fail |
| Store.LinkRowsExact | register/api/database.php:403-406 | with no failure, the links are exactly the ids, in order |
| Store.LinkActivities | register/api/database.php:387-412 | the activity step writes activity links only; every other table is left as it was |
| Store.LinkAllergies | register/api/database.php:414-449 | the allergy step writes allergy links only; every other table is left as it was |
| Store.ActivityStep | register/api/database.php:387-412 | without failures a participant gets one link per chosen activity, in order, and a guest none |
| Store.AllergyStep | register/api/database.php:414-449 | without failures the links are exactly the `is_numeric` allergy ids, in order |
| Store.CustomStep | register/api/database.php:451-493 | without failures a custom text adds the `Ine` row under the next allergy id and links it; no text changes nothing |
| Store.RoomStep | register/api/database.php:495-526 | without failures the chosen room, or room 6 for a guest who chose none, is linked; otherwise nothing changes |
| Store.AddCustomAllergy | register/api/database.php:452-493 | a non-empty custom allergy adds the row `Ine` with its text under a new id; its failures change nothing else and never end the registration |
| Store.AddRoomLink | register/api/database.php:496-526 | only a failed prepare for a non-empty room aborts; a failed execute leaves the links as they were; otherwise the room is linked, and nothing changes when no room is given |
| Store.RegisterParticipant | register/api/database.php:207-552 | every refusal or failure aborts with the database unchanged (the refusal then dies on the second `close()` under PHP 8); a taken address aborts whenever the check query runs; a success returns the next id and stores the person under it |
| Store.RegisterKeepsValid | register/api/database.php:383 | a new id was not in use before, and the counters stay ahead of every stored id |
| Store.SecondRegistrationAborted | register/api/database.php:225-248 | right after a success, a second registration with the same address aborts with nothing stored, in the address-taken branch unless the check cannot be prepared |
| Store.RegisterSucceedsIffFree | register/api/database.php:225-248 | without failures a registration succeeds exactly when the address is free |
| Store.FailedCheckAdmitsDuplicate | register/api/database.php:237-248 | when the address check cannot run, a taken address is registered again and two people share it |
| Store.HostRegistration | register/api/database.php:294-320 | a guest gets no activity link, room 6 when none was given, and a non-empty group |
| Store.FaultFreeLinks | register/api/database.php:389-445 | without failures every activity and every numeric allergy id is linked to the new person; earlier links are kept |
| Store.RoomLinkIff | register/api/database.php:496-526 | a room link is written exactly when a room id (or the guest default) is present, and it points at that room |
| Store.FaultFreeResult | register/api/database.php:250-536 | with a free address and no failure, the registration succeeds with the next id and commits exactly the state built step by step from the person insert, the activity, allergy, custom-allergy and room steps |
| Store.CommittedRows | register/api/database.php:250-536 | a fault-free registration commits, table by table, the person under the next id, one link per activity (none for a guest), one link per `is_numeric` allergy id, the custom allergy row and its link, and the room link; groups, rooms and activities are untouched |
| Store.AppendedAllergyLink | register/api/database.php:432-469 | each appended allergy link is for the new person and targets a numeric id's row or the custom allergy |
| Store.NonNumericAllergyUnlinked | register/api/database.php:432-445 | without faults no id `is_numeric` rejects is linked: each new allergy link targets a numeric id or the custom row |
| Store.CustomAllergyListed | register/api/database.php:452-469 | a custom allergy is stored as `Ine` and linked to the person; the allergy listing shows it exactly under a binary collation |
| Store.CustomAllergyOrphan | register/api/database.php:471-486 | a failed link leaves the new allergy row unlinked while the registration still succeeds |
| Http.FromOutcome | register/api-direct.php:253-262 | a registration is answered with 200 carrying its id; an aborted one ends as a 500 with no body, since the second `close()` kills the request |
| Direct.ProblemOfMessage | register/api-direct.php:160-235 | each message determines its problem |
| Direct.MessagesDistinct | register/api-direct.php:160-235 | no two problems share a message |
| Direct.Accommodations | register/api-direct.php:59-72 | a gender other than `muz`/`zena` gives 400; otherwise the rooms for the type, with an unknown type treated as a participant |
| Direct.TokenGate | register/api-direct.php:134-157 | leaders and guests pass only with a non-empty token the pattern accepts; no token gives 403, a malformed one 400 |
| Direct.Normalize | register/api-direct.php:189-203 | a guest gets room 6 when none was given, group (`iny`, `Host`) when none or `iny` was chosen, and no activities; other registrations and other fields are unchanged |
| Direct.DiscardedErrors | register/api-direct.php:172-184 | the host-note problem arises exactly for a guest without a note, the activity problem exactly for a non-guest without activities |
| Direct.RequiredErrors | register/api-direct.php:209-214 | a required-field problem is reported exactly when its field is empty; the room is required from non-guests only |
| Direct.FormatErrors | register/api-direct.php:216-224 | a present invalid address, and an unnamed custom group of a non-guest, each give their problem, and nothing else is reported here |
| Direct.AgeErrors | register/api-direct.php:226-237 | the age problem arises exactly when current year minus birth year is below 14 |
| Direct.FieldErrors | register/api-direct.php:226-237 | an unreadable birth date makes the request fail with 500 |
| Direct.FieldErrorsReported | register/api-direct.php:206-237 | a problem is reported exactly when it is a missing field, a bad address, an unnamed group or the calendar-year age |
| Direct.DiscardedNotChecked | register/api-direct.php:207 | the discarded problems are never among the reported ones |
| Direct.Checked | register/api-direct.php:243-251 | an accepted request yields the normalised data; a refusal is 400 or 500 |
| Direct.Validate | register/api-direct.php:134-157 | the token gate decides first; only a request past it is checked |
| Direct.Register | register/api-direct.php:96-275 | a non-POST gives 405; a refused request its refusal; an accepted one the reply for the stored outcome (200 with the id, or a fatal 500); anything but 200 leaves the database unchanged |
| Direct.MissingTokenForbidden | register/api-direct.php:135-145 | a leader or guest without a token gets 403 and nothing is stored |
| Direct.V4TokenPasses | register/api-direct.php:147-156 | any version-4 UUID passes the token gate |
| Direct.DiscardedNeverReported | register/api-direct.php:173-207 | no reply ever carries the host-note or activity message |
| Direct.NoFieldErrors | register/api-direct.php:207-237 | data meeting every checked condition has no problem |
| Direct.AcceptedDespiteDiscarded | register/api-direct.php:172-251 | a guest without a note, or a participant without activities, is accepted when the other checks pass |
| Router.Accommodations | register/api/index.php:51-68 | after sanitising, a gender other than `muz`/`zena` gives 400; otherwise the rooms for the known type, or for a participant |
| Router.VerifyCode | register/api/index.php:80-93 | `success` is true exactly when the code is present and the type is `veduci` or `host`; `valid` exactly when, in addition, the sanitised code passes |
| Router.MarkupSecretUnreachable | register/api/index.php:82-88 | a leader secret holding a markup character is never matched, because the code is escaped first |
| Router.CleanPlain | register/api/index.php:82 | a value with no special character and no outer white space passes `sanitizeInput` unchanged |
| Router.PlainSecretAccepted | register/api/index.php:82-88 | a leader secret with no special character and no outer white space is accepted |
| Router.CastId | register/api/index.php:119-133 | a cast id is numeric and denotes the same integer |
| Router.CastIds | register/api/index.php:121-134 | every listed id becomes a numeric string for the same integer, in the same position |
| Router.RequiredErrors | register/api/index.php:139-146 | "Field X is required." is reported exactly for the empty required fields, and only for them |
| Router.TypeOf | register/api/index.php:174-177 | a known type is kept; an unknown one becomes `ucastnik` |
| Router.LaterErrors | register/api/index.php:164-185 | a bad gender, a missing consent, and a special type with a wrong code each give exactly their problem |
| Router.AgeErrors | register/api/index.php:153-162 | the age problem arises exactly when `diff()->y` between the current moment and the birth date is below 14 |
| Router.Problems | register/api/index.php:138-185 | an unreadable birth date makes the request fail with 500 |
| Router.ProblemsReported | register/api/index.php:138-185 | a problem is reported exactly when it is a missing field, a bad address, the exact age, or one of the later checks |
| Router.Register | register/api/index.php:103-212 | an unreadable birth date makes `new DateTime` throw and the reply is 500 "Server error. Please try again later."; otherwise with problems the reply is 400 with their messages and nothing stored; without problems it is the reply for the stored outcome (200 with the id, or a fatal 500); anything but 200 leaves the database unchanged |
| Router.MissingConsentTwice | register/api/index.php:139-172 | a missing consent is reported both as a required field and as the consent message |
| Router.FutureBirthPasses | register/api/index.php:154-162 | a birth date 15 or more years ahead passes the age check |
| Router.FourteenYearsAheadRefusedAfterMidnight | register/api/index.php:154-162 | a birth date exactly fourteen years ahead is refused after midnight and passes only at midnight itself |
| Router.PaddedGenderAccepted | register/api/index.php:112 | a gender surrounded by spaces is accepted after sanitising |
| Utils.Pick | register/src/js/utils.js:12 | a draw in [0, 1) picks a position inside the alphabet |
| Utils.GenerateRandomString | register/src/js/utils.js:8-15 | the result has the requested length, and each character is the alphabet entry its draw picks |
| Utils.EmailTestSound | register/src/js/utils.js:44-50 | an address the check accepts matches `^[^\s@]+@[^\s@]+\.[^\s@]+$` |
| Utils.EmailTestComplete | register/src/js/utils.js:44-50 | an address matching the pattern is accepted |
| Utils.EmailTestIff | register/src/js/utils.js:44-50 | the check accepts exactly the addresses the pattern matches |
| Utils.RequiredErrors | register/src/js/utils.js:24-41 | a required field gets a message exactly when it is falsy |
| Utils.EmailErrors | register/src/js/utils.js:44-50 | an `email` error is added exactly for a present address that fails the pattern |
| Utils.AgeErrors | register/src/js/utils.js:53-60 | a `vek` error is added exactly for an age `parseInt` (no radix, so `0x` is hexadecimal) reads as a number outside 14..27; NaN adds none |
| Utils.GroupErrors | register/src/js/utils.js:63-66 | a group error is added exactly for `iny` without a name |
| Utils.ActivityErrors | register/src/js/utils.js:69-73 | an activity error is added exactly when none is chosen |
| Utils.ValidateForm | register/src/js/utils.js:22-84 | valid exactly when there is no error; the erroneous fields are exactly those the five checks name |
| Utils.RequiredNone | register/src/js/utils.js:36-41 | no required-field message exactly when all required fields are truthy |
| Utils.ValidIff | register/src/js/utils.js:22-84 | a form is valid exactly when every required field is truthy, the address matches, a numeric age lies in 14..27, a custom group is named and an activity is chosen |
| Utils.SanitizeInput | register/src/js/utils.js:102-110 | falsy input gives `""`; other input is HTML-escaped |
| Utils.SanitizersAgree | register/src/js/utils.js:102-110 | on text without outer white space the Node and PHP sanitizers agree |
| NodeApi.FirstMissing | register/src/js/api.js:12-17 | fail fast: the reported field is falsy, and none is reported exactly when all are truthy |
| NodeApi.CheckAge | register/src/js/api.js:27-31 | an age is accepted exactly when it is a number in 14..27 |
| NodeApi.ParseIdsShow | register/src/js/api.js:49-59 | ids submitted in decimal are parsed back to the same numbers, in order |
| NodeApi.SubmissionOf | register/src/js/api.js:33-62 | `typ` defaults to `ucastnik`; `prvy_krat` and `gdpr` are true exactly for `on`; lists only when non-empty |
| NodeApi.Check | register/src/js/api.js:11-31 | accepted exactly when all required fields are truthy, the address matches and the age `parseInt` reads without a radix is in 14..27; otherwise the first missing field is named, then `Invalid email format` for a bad address, then the age message; an accepted form yields the submission shaped from its fields with the parsed age |
| NodeApi.Answer | register/src/js/api.js:64-72 | a stored registration is returned as it is; an error keeps the database and carries its message, or the default one when it has none |
| NodeApi.ProcessRegistration | register/src/js/api.js:9-73 | a failed check gives its message with the database unchanged; a passed check gives what `registerParticipant` returns; success always follows a passed check and returns the new id |
| NodeApi.PassingFormStored | register/src/js/api.js:9-65 | a form that passes the check is stored when no statement fails: the reply carries the new id and the person row is written under it |
| NodeApi.HexAgeAccepted | register/src/js/api.js:27-31 | an age submitted as `0x14` is read as 20 and accepted |
| NodeApi.NonNumericAgeRefused | register/src/js/api.js:27-31 | a non-numeric age is refused by `processRegistration` but raises no age error in `validateForm` |
| NodeStore.PersonOf | register/src/js/db.js:116-134 | consent is always stored as 1, the type defaults to `ucastnik`, first time as 1/0 |
| NodeStore.Plan | register/src/js/db.js:115-175 | one statement for the person, one per activity and allergy id, then the optional rows and the commit |
| NodeStore.RegisterParticipant | register/src/js/db.js:109-185 | any failing statement, the commit included, gives the error with the database unchanged; otherwise the new id |
| NodeStore.ExecActivities | register/src/js/db.js:139-146 | exactly one link per activity id, in order |
| NodeStore.ExecAllergies | register/src/js/db.js:149-156 | exactly one link per allergy id, in order |
| NodeStore.CommittedRows | register/src/js/db.js:115-176 | a committed registration adds the person, one link per id, a custom-allergy row exactly when one is given, and a room link exactly when a room is given |
| NodeStore.FreshId | register/src/js/db.js:136 | the new id was not in use, and the counters stay ahead |
| NodeStore.NoDuplicateCheck | register/src/js/db.js:115-134 | the same data registers twice in a row |
| NodeStore.AvailableAccommodation | register/src/js/db.js:48-86 | a listed room has free places and a type the condition admits; every such room is listed, and every listed row is a stored room |
| NodeStore.TypeConditionsAgree | register/src/js/db.js:52-66 | for non-guests the Node condition is the PHP one; guests get gender and shared rooms instead of guest rooms |
| Client.SetupFromUrl | register/src/js/main.js:86-124 | no token gives a participant; a malformed token gives the error page; a valid token is kept and gives a participant, or with `special=true` a leader, or a guest with `type=host` |
| Client.TokenField | register/src/js/main.js:724-727 | the token is sent exactly for leaders and guests that have one |
| Client.SentTokenAccepted | register/src/js/main.js:100-102 | every token the page sends passes the live endpoint's token gate |
| Client.PlaceStep | register/src/js/main.js:409-417 | pushing one more activity extends its day's bucket as filtering the longer list would |
| Client.BucketByDay | register/src/js/main.js:401-417 | each bucket holds exactly that day's activities in input order; a day naming an inherited key fails the load |
| Client.Classify | register/src/js/main.js:453-475 | unreadable or non-positive seats disable an activity; one to three seats mark it low |
| Client.ClassifyShown | register/src/js/main.js:453 | a seat count sent as a number is classified by its value |
| Client.HostDefaults | register/src/js/main.js:205-208 | the hidden fields a guest's form gets at setup, and keeps at submit (lines 679-681), make the server read room 6, group `iny` and name `Host`; other fields are kept |
| Client.RequiredIds | register/src/js/main.js:807-822 | name, surname, address and birth date come first; the group is required from participants and leaders; the room from non-guests without a hidden room field |
| Client.MissingProblems | register/src/js/main.js:824-830 | exactly the blank required controls are reported |
| Client.GroupProblems | register/src/js/main.js:846-855 | a non-guest must choose a group, and name it in the present name control when it is `iny`; nothing is reported when the name control is missing |
| Client.AgeProblems | register/src/js/main.js:857-872 | the age problem arises exactly for a readable birth year less than 14 years back |
| Client.EarlyProblems | register/src/js/main.js:832-844 | gender and consent problems exactly when unchecked |
| Client.OtherProblems | register/src/js/main.js:832-872 | gender and consent problems exactly when unchecked; the group and age problems as their checks say |
| Client.Check | register/src/js/main.js:804-886 | the check throws exactly when the group is `iny` and the name control is missing; otherwise every problem is shown exactly when its condition holds; a missing control is shown only when it is required and blank |
| Client.SubmittedFormComplete | register/src/js/main.js:804-886 | a submitted form has every required control filled, gender and consent given, no throw, and a birth year at least 14 years back |
| Client.SameAgeAsLiveEndpoint | register/src/js/main.js:857-872 | when the check does not throw, the page's age check is the live endpoint's calendar-year check; when it throws, nothing is submitted |

## Left out

- Database connections, SQL text and statement plumbing are left out. Tables are finite maps and sequences. A statement's failure is a switch in `Store.Faults`, or a failure position in `NodeStore.RegisterParticipant`.
- MySQL string-to-integer conversion of bound ids is modelled by PHP's `(int)` rule. The address check compares addresses exactly; under the default collation it would also match an address differing only in case.
- Store.CustomAllergyListed: `utf8_general_ci` is modelled by `Store.Fold` only for ASCII and the accented letters of the Slovak alphabet, with no trailing-space padding. Which collation the `alergie` table uses is a parameter, because the schema is not part of this model.
- A rollback restores the whole state, auto-increment counters included; MySQL would keep a counter bumped.
- The PHP data layer is modelled for PHP 8 with mysqli reporting off (the 8.0 default): failed statements return `false`, and each explicit refusal ends in the fatal second `close()`. The exception report mode that is the default from PHP 8.1, where a failed statement throws and the `catch (Exception)` rollback at `register/api/database.php:538` runs, is not modelled.
- A failing PHP `commit` is not modelled.
- Races between concurrent registrations (the address check and room capacity) are not modelled, because the model is sequential.
- Logging, `error_log`, `ini_set` and reading the `.env` file from disk are left out. The file is a list of lines; a missing file fails the load.
- `register/api/email.php`, `export.php`, `test-connection.php` and `test-email.php` are not part of this model. They are notification templates and diagnostic scripts.
- The `youth-groups`, `activities` and `allergies` GET cases are left out: they only forward a listing. So are endpoint extraction, the 404 default, the `OPTIONS` answer and the router's method switch.
- DOM work in `main.js` is left out: element creation, error display, event wiring, `fetch` and the `setTimeout` label changes.
- Client.HostDefaults: the fields are appended at setup and updated in place at submit, so they stay after the visible controls; the model takes the submitted values as those three appended last. A control of the same name added to the form after setup is not modelled.
- `Math.random` is an input sequence of reals in [0, 1). The default length 16 is a constant the caller passes.
- `FILTER_VALIDATE_EMAIL` is an abstract predicate parameter.
- Text.Lower: lowers only `A` to `Z`. JavaScript's `toLowerCase` lowers all of Unicode: the Kelvin sign U+212A becomes `k`, so the page buckets a day the model drops, and U+0130 becomes two code units, changing the length. Day names outside ASCII are not modelled.
- Dates.ParseIso: accepts only `YYYY-MM-DD` with month 1..12 and day 1..31. Other forms `DateTime` accepts, its overflow normalisation (e.g. February 31) and the time zone of `getFullYear` are not modelled. The time of day is a count of seconds. How `diff()` counts a February 29 birthday in a year without one is not modelled separately: the model compares month and day.
- Numbers.IntVal: covers optional white space, a sign and decimal digits. Exponents and overflow to float are not modelled; `Numbers.IsNumeric` likewise omits exponent and fraction forms.
- Array-valued scalar fields are read as their default, and scalar list fields as an empty list. In PHP 8 the router passes each scalar field to `trim` in `sanitizeInput`, and an array there throws a `TypeError`. That is an `Error`, not an `Exception`, so no `catch` handles it and the request dies with a fatal 500. The live endpoint keeps raw arrays; a birth date given as an array makes `new DateTime` throw the same uncaught `TypeError`. These fatal paths are not modelled.
- Strings are sequences of characters. Invalid UTF-8, which makes `htmlspecialchars` return `""`, is not modelled.
- NodeStore.RegisterParticipant: a NaN id is stored as a link without a target (`None`). What MySQL does with it is left out.
- Router.Register: the `function_exists` fallback around `registerParticipant` is not modelled; the function is taken to exist.
- Seqs.Count: a helper with no row of its own. It gives the link count the activity and room listings subtract from capacity.
