# Signup workflow of django-api, modelled in Dafny

This project models the user-registration core of the `users` app:

- the signup serializer `UserSignupSerializer`
  (`users/serializers/signup.py`): its field rules, `validate`, `create`,
  `send_confirmation_email` and `gen_verification_token`;
- the `Profile` model (`users/models.py`) and the auth user table beside it;
- the read serializers `ProfileSerializer` and `UserSerializer`
  (`users/serializers/users.py`).

## Modules

| module | file | what it holds |
|---|---|---|
| `Wrappers` | `wrappers.dfy` | `Option` and `Result` |
| `Text` | `text.dfy` | the whitespace set of Python's `str.strip`, and `Trim` |
| `Models` | `models.dfy` | the user and profile tables as a `Db` value, and the database constraints as the invariant `Consistent`. Also: `create_user`, deleting a user with its cascade, `Profile.save()` with its timestamps, `__str__`, and the `created_at` ordering. The imperative side is the classes `Profile` (the in-memory instance) and `Store` (the tables, updated in place). |
| `SignupValidation` | `signup_validation.dfy` | `is_valid()`. The field phase covers the DRF `CharField`, `EmailField`, `ImageField` and `IntegerField` checks and the two `UniqueValidator`s. Its errors are all collected, and only then does `validate` run. |
| `Verification` | `verification.dfy` | the token payload and its expiry, the confirmation message, and the `Mailer` that sends it |
| `Provisioning` | `provisioning.dfy` | `create`, first as the function `Provision` and then as the method `Create`. The method pops from a dictionary, creates the user, assigns the profile field by field, saves it and sends the e-mail. This module also holds `Register` (validate, then create) and the properties of the whole signup. |
| `Views` | `views.dfy` | the JSON representations of a profile and of a user with the profile nested inside, and a write through `UserSerializer` |

## Conventions

The clock (`timezone.now()`) is a parameter `now` of type `Instant`, counted in microseconds since the epoch.

The code calls several library routines whose inner workings the model leaves out. Each one enters as a function parameter:

- password hashing: `hash`;
- `create_user`'s `normalize_username` (Unicode NFKC) and `normalize_email` (the domain lower-cased): the two functions of a `Normalizer`, `norm`;
- `validate_password`: `strength`, the list of messages it raises;
- e-mail syntax: `validEmail`;
- HS256 signing: `sign`;
- `render_to_string`: `render`;
- mail delivery: `deliver`, which either delivers a message or raises.

The field checks of the signup serializer come in two forms, a `FieldRules` value. `Declared` is the serializer as written: unbounded integers, and uniqueness looked up on the submitted username and address. `Corrected(norm)` bounds the four integers to the 32-bit column and looks up the values `create_user` will store. The properties of the whole signup are proved for the corrected form, and the Findings below show what the declared form lets through.

Strings compare exactly, as PostgreSQL and SQLite compare them, in the unique columns and in the `exact` lookups of the uniqueness validators. MySQL's default case-insensitive collations compare differently, and there the e-mail and username Findings below do not arise as described.

The column limits are those of PostgreSQL and MySQL: `integer` is 32 bits; `username`, `first_name` and `last_name` are `varchar(150)`; `email` is `varchar(254)`; `password` is `varchar(128)`; `city` and `country` are `varchar(100)`.

## Behaviour of the code

- **No rollback.** `create` runs the user insert and the profile insert without a transaction. If the profile save fails, the user stays without a profile (`Provisioning.OverlongCityLeavesOrphan`, `Provisioning.UnboundedAgeLeavesOrphan`).
- **E-mail failures propagate.** `msg.send()` raises, so the signup fails with `DeliveryFailed`, and both rows stay stored (`Provisioning.DeliveryFailureKeepsAccount`).
- **Swapped timestamps.** `auto_now` is on `created_at`, so every save rewrites it. `auto_now_add` is on `modified_at`, so it keeps the time of insertion. The model stores them exactly as written.
- **Mismatch key.** A password mismatch is reported under the key `"Error"`. A `validate_password` failure goes under `"non_field_errors"`.
- **Null profile.** A user without a profile is shown with `"profile": null`. DRF turns the missing related object into `None`.
- **Normalised account.** The stored username and address are the normalised ones, so the confirmation e-mail goes to the normalised address and greets the normalised username.

## Model

| member | source | states |
|---|---|---|
| Text.TrimIsStripped | users/serializers/signup.py:24-33 | a stripped `CharField` value is the slice of the input between a run of leading and a run of trailing whitespace. It has no whitespace at either end and is never longer than the input. |
| Text.TrimStartDropsSpace | users/serializers/signup.py:24-33 | stripping the front keeps a suffix of the input and drops only whitespace |
| Text.TrimEndDropsSpace | users/serializers/signup.py:24-33 | stripping the back drops only whitespace |
| Text.TrimIdempotent | users/serializers/signup.py:24-33 | stripping an already stripped value changes nothing |
| Text.TrimStrippedIsIdentity | users/serializers/signup.py:24-33 | a value with no surrounding whitespace is left as it is |
| SignupValidation.Corrected | users/serializers/signup.py:24-25 | the corrected fields bound the integers to the 32-bit column and look up the normalised username and address |
| SignupValidation.TextFieldPasses | users/serializers/signup.py:24-33 | a `CharField` passes exactly when it is given, non-null, and non-blank after stripping, its stripped length is within the field's bounds, and its validators report nothing |
| SignupValidation.IntFieldPasses | users/serializers/signup.py:34-37 | an `IntegerField` passes exactly when it is given, non-null and within the field's range. As declared, the range is every integer. |
| SignupValidation.UsernameRuleAccepts | users/serializers/signup.py:24 | the username validator reports nothing exactly when no existing user holds the looked-up name |
| SignupValidation.EmailRuleAccepts | users/serializers/signup.py:25 | the e-mail validators report nothing exactly when the looked-up address is unused and the address is well-formed |
| SignupValidation.FieldNamed | users/serializers/signup.py:24-37 | a name found as a field is that field's declared name |
| SignupValidation.NameRoundTrip | users/serializers/signup.py:24-37 | every field is found again under its declared name |
| SignupValidation.NamesDiffer | users/serializers/signup.py:24-37 | two different fields have different names |
| SignupValidation.NameInjective | users/serializers/signup.py:24-37 | no two fields share a name, so each field's errors have a key of their own |
| SignupValidation.FieldErrors | users/serializers/signup.py:24-37 | each field's problems are reported under its own name, and a field has an entry exactly when it has problems. Every key is a field name. |
| SignupValidation.FieldErrorsEmpty | users/serializers/signup.py:24-37 | the field phase reports nothing exactly when every declared field passes |
| SignupValidation.AccountFieldsPass | users/serializers/signup.py:24-29 | the username, e-mail, password and image fields pass exactly when they are given and their stripped values meet the length, blank, uniqueness and e-mail rules |
| SignupValidation.PlaceFieldsPass | users/serializers/signup.py:30-33 | the name, city and country fields pass exactly when they are given, non-blank after stripping and within 150 or 100 characters |
| SignupValidation.CountFieldsPass | users/serializers/signup.py:34-37 | the four integer fields pass exactly when they are given and within the range |
| SignupValidation.AllPicksEmpty | users/serializers/signup.py:24-37 | every field passes exactly when each of the fourteen fields has no problems |
| SignupValidation.FieldsValidMeansBounds | users/serializers/signup.py:24-37 | the field phase passes exactly when every field is given and the stripped values meet the length, blank, range, uniqueness and e-mail rules. The rules are: username 4..150, e-mail at most 150, both passwords 8..128, names at most 150, city and country at most 100, none blank. |
| SignupValidation.CleanedIsStripped | users/serializers/signup.py:24-33 | every string the field phase hands on is stripped |
| SignupValidation.ValidatePayload | users/serializers/signup.py:39-49 | `validate` succeeds exactly when the passwords are equal and the strength policy has no complaint, and it then returns the payload unchanged. A mismatch gives the single key `"Error"`. For equal passwords, the complaints are exactly `{"non_field_errors": [one per message]}`. |
| SignupValidation.Validate | users/serializers/signup.py:24-49 | a refusal always carries at least one error, and an accepted payload is complete and is the stripped input |
| SignupValidation.ValidateAcceptsExactly | users/serializers/signup.py:24-49 | a payload is accepted exactly when it is complete, meets the field rules, has equal passwords and passes the strength policy. What is accepted is the stripped input. |
| SignupValidation.MismatchFailsUnderErrorKey | users/serializers/signup.py:44-45 | after the field phase passes, differing passwords give exactly `{"Error": [message]}`, whatever the strength policy |
| SignupValidation.StrengthCheckedOnlyAfterMatch | users/serializers/signup.py:44-47 | a strength complaint implies that every field passed, the passwords matched, and the policy did complain |
| SignupValidation.StrengthReported | users/serializers/signup.py:47 | once the fields pass and the passwords match, a refusing policy gives the single key `"non_field_errors"` holding exactly its messages |
| SignupValidation.NonFieldKeyIsNoField | users/serializers/signup.py:45-47 | the keys `validate` reports under are not field names |
| SignupValidation.TakenUsernameRefused | users/serializers/signup.py:24 | a username whose looked-up form an existing user holds is reported under `"username"` as not unique, and the payload is refused |
| SignupValidation.ShortPasswordRefused | users/serializers/signup.py:26 | a password shorter than 8 after stripping, but not blank, is reported under `"password"`, and the payload is refused |
| SignupValidation.OverflowingAgeRefused | users/serializers/signup.py:34 | with the corrected fields, an age beyond the 32-bit range is reported under `"age"` and the payload is refused |
| Models.TooLongColumn | users/serializers/signup.py:55-61 | a user row fits the table exactly when the password hash is at most 128 characters, each name at most 150 and the address at most 254 |
| Models.EmptyDb | users/models.py:5-22 | the empty tables satisfy every constraint |
| Models.ProfileOf | users/models.py:9 | `user.profile` finds the one profile of a user exactly when it has one |
| Models.ProfileOfFollowsProfiles | users/models.py:9 | which profile a user has depends only on the profile table |
| Models.NewUserRow | users/serializers/signup.py:55-61 | `create_user` stores the normalised username and address, the hash of the password, and the names as given |
| Models.InsertUser | users/serializers/signup.py:55-61 | a user insert changes only the user table. A refused one changes nothing; an accepted one adds exactly the next key. |
| Models.InsertUserKeepsConsistent | users/serializers/signup.py:55-61 | `create_user` succeeds exactly for a non-empty username nobody holds in a row whose columns fit the table. It adds one row under a new key and keeps the constraints. |
| Models.Deleted | users/models.py:9 | deleting a user removes that key and leaves no profile pointing to it |
| Models.DeleteUserCascades | users/models.py:9 | deleting a user removes exactly the profile linked to it and keeps everything else |
| Models.Store.DeleteUser | users/models.py:9 | the in-place delete leaves the tables as the cascade says |
| Models.Store.CreateUser | users/serializers/signup.py:55-61 | the in-place user insert matches `InsertUser` and keeps the constraints |
| Models.Stamp | users/models.py:21-22 | a save stamps `created_at` with the time of the save. It stamps `modified_at` when the row is new and keeps it when the row exists. Nothing else changes. |
| Models.SaveError | users/models.py:9-17 | a profile write is allowed exactly when every integer fits 32 bits, city and country fit 100 characters, no integer column or timestamp is null, the user exists, and no other profile belongs to that user |
| Models.WriteRow | users/models.py:5-22 | a profile write never touches the user table; it is refused exactly when `SaveError` names a broken constraint, and then changes nothing |
| Models.WriteRowKeepsConsistent | users/models.py:9-17 | a profile write keeps every constraint, including the 32-bit range of the four integers and the length of city and country. A refused write changes nothing. |
| Models.Saved | users/models.py:5-22 | `save()` never touches the user table, and a refused save changes nothing |
| Models.AfterSave | users/models.py:19-22 | after `save()`, the instance carries the time of the save in `created_at`, and in `modified_at` when the row was new; it keeps `modified_at` on an update. It carries its key once the write succeeded. Nothing else changes. |
| Models.SaveKeepsConsistent | users/models.py:5-22 | `save()` keeps every constraint and never touches the user table |
| Models.SaveStoresInstance | users/models.py:9-22 | a successful save stores the instance's columns. `created_at` becomes the time of the save. `modified_at` becomes that time only when the row is new. Other rows are unchanged. |
| Models.DefaultIsUnverified | users/models.py:19 | a profile whose `is_verified` was never set is stored unverified |
| Models.ResaveKeepsInsertionTime | users/models.py:21-22 | saving the same profile again moves `created_at` to the new time and keeps `modified_at` at the first insertion |
| Models.Store.PreSave | users/models.py:21-22 | the `pre_save` pass stamps `created_at` always, and `modified_at` only when inserting |
| Models.Store.Write | users/models.py:5-22 | the in-place INSERT or UPDATE matches `WriteRow` and keeps the constraints |
| Models.Store.Save | users/models.py:5-22 | `profile.save()` updates the tables and the instance exactly as `Saved` and `AfterSave` say. The instance is stamped even when the write is refused. |
| Models.Profile.constructor | users/models.py:19 | `Profile(user=u)` holds only the user and the `is_verified` default, false |
| Models.Store.constructor | users/models.py:5-22 | a new store holds the empty tables |
| Models.FullName | users/models.py:27-28 | the full name is `first + " " + last` with its leading and trailing whitespace removed, and is never longer than that |
| Models.ProfileStr | users/models.py:27-28 | the string form of a profile is its owner's full name: `first + " " + last` with the surrounding whitespace removed |
| Models.ProfileStrOfStrippedNames | users/models.py:27-28 | the string form of a profile is its user's `first last` when both names are non-empty and stripped |
| Models.InsertByCreation | users/models.py:24-25 | inserting a key keeps a listing in `created_at` order and adds exactly that key |
| Models.OrderedByCreationIsTotal | users/models.py:24-25 | in a listing ordered by creation, every profile comes no later than every profile after it |
| Models.Store.Listing | users/models.py:24-25 | the listing holds every profile exactly once, in ascending `created_at` order |
| Verification.ExpiryOf | users/serializers/signup.py:97-100 | `exp` is the whole second in which three days after issue run out |
| Verification.ExpiryIsThreeDaysLater | users/serializers/signup.py:97-100 | `exp` is exactly 259200 seconds after the second of issue |
| Verification.VerificationPayload | users/serializers/signup.py:98-102 | the payload has the three claims `user`, `exp` and `type`, each once |
| Verification.Lookup | users/serializers/signup.py:98-102 | a claim is found exactly when the payload has a claim of that name, and what is found is that claim's value |
| Verification.PayloadConfirmsUser | users/serializers/signup.py:98-102 | decoding the payload gives back the username, a `type` of `"email_confirmation"`, and the expiry three days after issue |
| Verification.IssueToken | users/serializers/signup.py:95-106 | the token is the signature, under the secret key, of the user, the expiry 259200 seconds after the second of issue, and the type |
| Verification.TokenFixedWithinSecond | users/serializers/signup.py:95-106 | two tokens for one user issued within the same second are the same token |
| Verification.Subject | users/serializers/signup.py:83 | the subject line reads back as greeting exactly the user it was built for |
| Verification.SubjectNamesUser | users/serializers/signup.py:83 | only the greeting of a user reads back as greeting that user |
| Verification.ConfirmationMessage | users/serializers/signup.py:83-92 | the message goes to exactly `[email]` from the fixed sender. It greets the user and carries the rendered template as its body and as its HTML alternative. |
| Verification.ConfirmationFor | users/serializers/signup.py:80-92 | the confirmation goes to exactly the user's address, from the fixed sender, greets the user, and its body renders the token issued for that user |
| Verification.Mailer.Send | users/serializers/signup.py:93 | a delivered message joins the outbox; a refused one leaves it unchanged |
| Verification.Mailer.SendConfirmation | users/serializers/signup.py:80-93 | `send_confirmation_email` sends exactly the confirmation for the token issued at that time |
| Provisioning.AsDict | users/serializers/signup.py:51-53 | the validated data has one entry per declared field |
| Provisioning.PoppedData | users/serializers/signup.py:53 | after the pop, the confirmation entry is gone and every other entry keeps its value |
| Provisioning.Provision | users/serializers/signup.py:51-78 | `create` adds at most the next user, sends a message only when it succeeds, and then sends exactly the confirmation; it never reports a validation error |
| Provisioning.ProvisionKeepsConsistent | users/serializers/signup.py:51-78 | `create` keeps every database constraint, whatever fails |
| Provisioning.ProvisionCreatesAccount | users/serializers/signup.py:51-78 | a completed `create` adds exactly one user, one profile and one message. The user holds the row `create_user` built. The profile links to that user, copies the eight profile fields, and is unverified and stamped now. The message goes to the normalised address. |
| Provisioning.ConfirmationNeverStored | users/serializers/signup.py:53-61 | the stores and outbox after `create` do not depend on the password confirmation |
| Provisioning.OverlongCityLeavesOrphan | users/serializers/signup.py:55-74 | a city too long for its column fails the profile save. The user already inserted stays, without a profile, and no e-mail is sent. |
| Provisioning.DeliveryFailureKeepsAccount | users/serializers/signup.py:74-76 | when the e-mail fails, the user and its profile stay stored and the outbox is unchanged |
| Provisioning.SignupShowsPayload | users/serializers/signup.py:55-74 | right after signup, the user's representation shows the normalised username and the payload's names, and nests the stored profile, which reads back as the payload's profile fields |
| Provisioning.DirectoryOf | users/serializers/signup.py:24-25 | the uniqueness validators see exactly the stored usernames and addresses |
| Provisioning.Register | users/serializers/signup.py:24-78 | a signup is refused by validation exactly when validation fails, and a refused signup changes nothing |
| Provisioning.ValidatedPayloadIsStored | users/serializers/signup.py:24-78 | for a payload the corrected fields accept, whose user row fits its table, both writes succeed, and the signup completes exactly when the e-mail is delivered |
| Provisioning.RegisterOutcomes | users/serializers/signup.py:24-78 | with the corrected fields, a signup is refused by validation exactly when validation fails. After validation passes, a write is refused only when the user row `create_user` builds does not fit its table; otherwise the account is stored and only the e-mail can fail. |
| Provisioning.ProvisionAddsAtMostOneUser | users/serializers/signup.py:55-61 | `create` adds at most one user, under the next key, and leaves existing users alone |
| Provisioning.ProvisionKeepsEmailsUnique | users/serializers/signup.py:55-61 | creating a user whose normalised address is unused keeps addresses unique |
| Provisioning.RegisterKeepsEmailsUnique | users/serializers/signup.py:24-78 | signups through the corrected serializer keep e-mail addresses unique and keep every constraint |
| Provisioning.UnboundedAgeLeavesOrphan | users/serializers/signup.py:34-74 | as declared, an accepted age beyond 32 bits gets the user stored and the profile refused, leaving the user without a profile and no e-mail sent |
| Provisioning.DeclaredAcceptsOverflowingAge | users/serializers/signup.py:34 | as declared, an age of three billion passes validation |
| Provisioning.DomainCaseDuplicatesEmail | users/serializers/signup.py:25 | as declared, with bob@example.com stored, a signup with bob@Example.com passes and stores a second user with bob@example.com |
| Provisioning.FullwidthUsernameRefusedAtInsert | users/serializers/signup.py:24 | as declared, with "robert" stored, the fullwidth username passes validation and is then refused by the unique column |
| Provisioning.Create | users/serializers/signup.py:51-78 | the step-by-step `create` leaves the tables and the outbox, and returns the result, exactly as `Provision` says |
| Provisioning.BuildProfile | users/serializers/signup.py:63-72 | building the profile attribute by attribute gives the instance `create` saves: the payload's columns, unverified, with no key |
| Views.ProfileRepresentation | users/serializers/users.py:10-14 | a profile is shown under exactly the keys `age, country, city, followers, likes, posts, profile_pic, hero_badge`, in that order |
| Views.ProfileRepresentationReadsBack | users/serializers/users.py:10-14 | a client reads back exactly the eight exposed columns |
| Views.ProfileRepresentationHidesRest | users/serializers/users.py:14 | the representation does not depend on the owning user, `is_verified` or the timestamps |
| Views.UserRepresentation | users/serializers/users.py:16-22 | a user is shown under exactly the keys `username, first_name, last_name, profile` |
| Views.UserRepresentationShowsProfile | users/serializers/users.py:18-22 | the user view shows the stored names, and under `profile` the user's own profile, or null exactly when there is none |
| Views.UserRepresentationHidesCredentials | users/serializers/users.py:20-22 | neither the e-mail address nor the password hash affects the user view |
| Views.UserWriteErrors | users/serializers/users.py:20-22 | each written field's problems are reported under its own name: username not blank, at most 150 and held by no other user; first and last name at most 150 |
| Views.UpdateUser | users/serializers/users.py:16-22 | a write is refused exactly when a field has problems, and then changes nothing. An accepted write changes only that user's row and keeps the e-mail and password. Profiles are never touched. |
| Views.UpdateUserStoresCheckedNames | users/serializers/users.py:20-22 | an accepted write stores each given name stripped and within 150 characters, a username no other user holds, and keeps the names not given |
| Views.UpdateUserIgnoresProfile | users/serializers/users.py:18 | the nested profile of a write is dropped: the write does the same whatever it carries |
| Views.UpdateUserLeavesProfile | users/serializers/users.py:18-22 | a write through the user serializer never changes a profile. It changes at most that user's names and keeps the constraints. |

## Findings

| source | as written | input that shows it | evidently intended | confidence | as-written member | corrected member |
|---|---|---|---|---|---|---|
| users/serializers/signup.py:34-37 | `IntegerField()` has no bounds, while the `integer` columns of users/models.py:12-17 hold 32 bits on PostgreSQL and MySQL | a valid payload with `age` 3000000000 | the counts are refused by validation, or bounded like their columns | not executed | Provisioning.UnboundedAgeLeavesOrphan | Provisioning.RegisterOutcomes |
| users/serializers/signup.py:25 | the e-mail `UniqueValidator` looks up the address as submitted, but `create_user` stores it with the domain lower-cased | bob@example.com stored, then a signup with bob@Example.com | uniqueness checked on the stored form of the address | not executed | Provisioning.DomainCaseDuplicatesEmail | Provisioning.RegisterKeepsEmailsUnique |
| users/serializers/signup.py:24 | the username `UniqueValidator` looks up the name as submitted, but `create_user` stores its NFKC form | "robert" stored, then a signup with the fullwidth "ｒｏｂｅｒｔ" | a clash is reported as a validation error, not refused by the database | not executed | Provisioning.FullwidthUsernameRefusedAtInsert | Provisioning.RegisterOutcomes |

## Left out

- Django's ORM, the SQL engine and DRF's field machinery: the tables are maps, and the constraints are the checks in `SaveError` and `InsertUser`.
- Which constraint a backend reports first: `SaveError` checks the columns in declaration order.
- SQLite: it does not enforce `varchar` lengths and stores 64-bit integers. The model enforces the PostgreSQL and MySQL limits listed under Conventions.
- Concurrency: two signups racing past the uniqueness checks are not modelled. Each call runs on its own.
- DRF's rule that rejects NUL characters in a `CharField` is not modelled.
- Parsing of the `IntegerField` from strings, `ImageField` file validation, and the storage of uploaded files: images are opaque names and integers arrive as integers.
- The workings of `normalize_username` and `normalize_email`: they are the parameter `norm`.
- Models.InsertUser: `create_user` refuses an empty username before normalising it; the model tests the normalised name, which is the same because NFKC never empties a non-empty string.
- The `date_joined`, `is_active`, `is_staff` and `last_login` columns of the user table.
- Password hashing, `validate_password`, e-mail syntax, HS256 signing, template rendering and mail delivery are parameters (see Conventions).
- The verification endpoint that would check a token does not exist in the repository. `Verification.Confirmation` only reads a payload back.
- The token's `exp` comes from `int()` of a float timestamp. The model uses exact integer arithmetic on a non-negative clock, so float rounding and pre-epoch clocks are not covered.
- Views.ProfileRepresentationReadsBack: DRF shows an image as `value.url`, the media URL joined with the file name, made absolute when a request is in the serializer context. The model shows the stored name, so what this lemma reads back is the name, not a URL.
- Models.Stamp: `auto_now` and `auto_now_add` each read `timezone.now()` in their own `pre_save`, so the two timestamps of an insert can differ by a few microseconds. The model reads the clock once per save, so `Provisioning.StoredProfile` has equal timestamps.
- Views.UpdateUser: only the partial write (`partial=True`) is modelled. On a full write, DRF also refuses a payload without `username` as required, which `Views.UserWriteErrors` does not report.
- Views.UpdateUser: the `UnicodeUsernameValidator` that `ModelSerializer` derives for `username` (its character set) is not modelled. The length, blank and uniqueness checks and the stripping are.
- Explicit primary keys: the model only knows keys that the profile sequence handed out (`KeyIssued`).
- Error lists: DRF reports each key's messages as an ordered list. The model keeps them as a set of violations (`Errors`), so their order and any repeated message are not captured.
