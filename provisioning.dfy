/**
  `UserSignupSerializer.create` and the signup as a whole: a validated payload
  becomes an auth user, then a `Profile` linked to it, then a confirmation
  e-mail. The three writes are separate; nothing undoes an earlier one when a
  later one fails.
 */
module Provisioning {
  import opened Wrappers
  import opened Models
  import opened SignupValidation
  import Verification
  import Views

  /** A value of the validated-data dictionary. */
  datatype Value = StrValue(s: string) | IntValue(n: int) | ImageValue(image: Image)

  /**
    What account creation depends on and the model does not look into:
    password hashing, `create_user`'s normalisation of the username and the
    address, and the e-mail machinery.
   */
  datatype Services = Services(hash: string -> string, norm: Normalizer, mail: Verification.Mailing)

  /** Why a signup did not complete: the payload was refused, a write was refused, or the e-mail could not be sent. */
  datatype SignupError =
    | Rejected(errors: Errors)
    | StoreFailed(error: StoreError)
    | DeliveryFailed

  /** The tables and the outbox after a signup, and what the caller got back. */
  datatype Outcome = Outcome(db: Db, sent: seq<Verification.Message>, result: Result<UserId, SignupError>)

  /** `serializer.validated_data`, keyed by field name. */
  function AsDict(d: SignupData): (r: map<string, Value>)
    ensures r.Keys == FieldNames
  {
    map[
      "username" := StrValue(d.username), "email" := StrValue(d.email),
      "password" := StrValue(d.password), "password_confirmation" := StrValue(d.passwordConfirmation),
      "profile_pic" := ImageValue(d.profilePic), "hero_badge" := ImageValue(d.heroBadge),
      "first_name" := StrValue(d.firstName), "last_name" := StrValue(d.lastName),
      "city" := StrValue(d.city), "country" := StrValue(d.country),
      "age" := IntValue(d.age), "likes" := IntValue(d.likes),
      "followers" := IntValue(d.followers), "posts" := IntValue(d.posts)]
  }

  /** `data` holds every entry of the payload except the password confirmation, each under its field name. */
  predicate HoldsPayload(data: map<string, Value>, d: SignupData)
  {
    "username" in data && "email" in data && "password" in data && "first_name" in data && "last_name" in data &&
    "profile_pic" in data && "hero_badge" in data && "city" in data && "country" in data &&
    "age" in data && "likes" in data && "followers" in data && "posts" in data &&
    data["username"] == StrValue(d.username) && data["email"] == StrValue(d.email) &&
    data["password"] == StrValue(d.password) &&
    data["first_name"] == StrValue(d.firstName) && data["last_name"] == StrValue(d.lastName) &&
    data["profile_pic"] == ImageValue(d.profilePic) && data["hero_badge"] == ImageValue(d.heroBadge) &&
    data["city"] == StrValue(d.city) && data["country"] == StrValue(d.country) &&
    data["age"] == IntValue(d.age) && data["likes"] == IntValue(d.likes) &&
    data["followers"] == IntValue(d.followers) && data["posts"] == IntValue(d.posts)
  }

  /**
    The dictionary once `create` has popped the password confirmation: that
    entry is gone and every other one still holds the payload's value.
   */
  lemma PoppedData(d: SignupData)
    ensures var data := AsDict(d) - {"password_confirmation"};
      data.Keys == FieldNames - {"password_confirmation"} && HoldsPayload(data, d)
  {
  }

  /** The user row `create_user` builds from the payload. */
  function AccountRow(d: SignupData, svc: Services): UserRow
  {
    NewUserRow(d.username, d.email, d.password, d.firstName, d.lastName, svc.hash, svc.norm)
  }

  /** The user row built from the payload is one the user table takes: a non-empty username, every column short enough. */
  predicate AccountFits(d: SignupData, svc: Services)
  {
    AccountRow(d, svc).username != [] && UserFits(AccountRow(d, svc))
  }

  /** The `Profile` instance `create` builds for user `u` before saving it. */
  function ProfileFor(u: UserId, d: SignupData): ProfileDraft
  {
    Fill(NewDraft(u), Columns(Some(d.profilePic), Some(d.heroBadge), Some(d.age), Some(d.city), Some(d.country),
                              Some(d.followers), Some(d.likes), Some(d.posts))).(isVerified := false)
  }

  /** The row a signup at time `now` stores for user `u`. */
  function StoredProfile(u: UserId, d: SignupData, now: Instant): ProfileRow
  {
    ProfileRow(u, Some(d.profilePic), Some(d.heroBadge), d.age, Some(d.city), Some(d.country),
               d.followers, d.likes, d.posts, false, now, now)
  }

  /**
    `create(data)` on a store `db` and an outbox `sent`, saving the profile at
    `now` and issuing the token at `issuedAt`.
   */
  function Provision(db: Db, sent: seq<Verification.Message>, d: SignupData, now: Instant, issuedAt: Instant, svc: Services): (o: Outcome)
    ensures o.result.Failure? ==> o.sent == sent
    ensures o.result.Success? ==>
      o.result.value == db.nextUser && o.sent == sent + [Verification.ConfirmationFor(AccountRow(d, svc), issuedAt, svc.mail)]
    ensures !(o.result.Failure? && o.result.error.Rejected?)
    ensures o.db.users == db.users || o.db.users == db.users[db.nextUser := AccountRow(d, svc)]
  {
    var row := AccountRow(d, svc);
    var w := InsertUser(db, row);
    match w.result
    case Failure(e) => Outcome(db, sent, Failure(StoreFailed(e)))
    case Success(u) =>
      var s := Saved(w.db, ProfileFor(u, d), now);
      match s.result
      case Failure(e) => Outcome(w.db, sent, Failure(StoreFailed(e)))
      case Success(_) =>
        var m := Verification.ConfirmationFor(row, issuedAt, svc.mail);
        if svc.mail.deliver(m) then Outcome(s.db, sent + [m], Success(u))
        else Outcome(s.db, sent, Failure(DeliveryFailed))
  }

  /** A user on its own: an account whose profile was never stored. */
  predicate Orphan(db: Db, u: UserId)
  {
    u in db.users && !HasProfile(db, u)
  }

  lemma ProvisionKeepsConsistent(db: Db, sent: seq<Verification.Message>, d: SignupData, now: Instant, issuedAt: Instant, svc: Services)
    requires Consistent(db)
    ensures Consistent(Provision(db, sent, d, now, issuedAt, svc).db)
  {
    var row := AccountRow(d, svc);
    InsertUserKeepsConsistent(db, row);
    var w := InsertUser(db, row);
    if w.result.Success? {
      SaveKeepsConsistent(w.db, ProfileFor(w.result.value, d), now);
    }
  }

  /**
    A completed signup adds exactly one user, under a new key, holding the
    payload's names and address and the hash of its password; exactly one
    profile, under a new key, linked to that user, carrying the payload's
    profile fields, unverified and stamped with the time of the save; and
    exactly one message, the confirmation addressed to the payload's
    address as `create_user` normalised it. Every other row is as it was.
   */
  lemma ProvisionCreatesAccount(db: Db, sent: seq<Verification.Message>, d: SignupData, now: Instant, issuedAt: Instant, svc: Services)
    requires Consistent(db)
    requires Provision(db, sent, d, now, issuedAt, svc).result.Success?
    ensures var o := Provision(db, sent, d, now, issuedAt, svc); var u := o.result.value;
      u !in db.users && o.db.users == db.users[u := AccountRow(d, svc)] &&
      (exists p: ProfileId | p !in db.profiles ::
        o.db.profiles == db.profiles[p := StoredProfile(u, d, now)] && ProfileOf(o.db, u) == Some(p)) &&
      o.sent == sent + [Verification.ConfirmationFor(AccountRow(d, svc), issuedAt, svc.mail)] &&
      o.sent[|sent|].to == [svc.norm.email(d.email)]
  {
    var row := AccountRow(d, svc);
    InsertUserKeepsConsistent(db, row);
    var w := InsertUser(db, row);
    var u := w.result.value;
    var draft := ProfileFor(u, d);
    SaveKeepsConsistent(w.db, draft, now);
    SaveStoresInstance(w.db, draft, now);
    var s := Saved(w.db, draft, now);
    var p := s.result.value;
    assert s.db.profiles == db.profiles[p := StoredProfile(u, d, now)];
    var o := Provision(db, sent, d, now, issuedAt, svc);
    assert o.db == s.db;
    assert ProfileOf(o.db, u) == Some(p);
  }

  /**
    Right after a completed signup, the user's representation shows the
    payload's username as `create_user` normalised it and the payload's names, with the stored profile nested under
    "profile", from which a client reads back the payload's profile fields.
   */
  lemma SignupShowsPayload(db: Db, sent: seq<Verification.Message>, d: SignupData, now: Instant, issuedAt: Instant, svc: Services)
    requires Consistent(db)
    requires Provision(db, sent, d, now, issuedAt, svc).result.Success?
    ensures var o := Provision(db, sent, d, now, issuedAt, svc); var u := o.result.value;
      Consistent(o.db) && u in o.db.users &&
      var ms := Views.UserRepresentation(o.db, u).members;
      Views.Member(ms, "username") == Some(Views.JStr(svc.norm.username(d.username))) &&
      Views.Member(ms, "first_name") == Some(Views.JStr(d.firstName)) &&
      Views.Member(ms, "last_name") == Some(Views.JStr(d.lastName)) &&
      Views.Member(ms, "profile") == Some(Views.ProfileRepresentation(StoredProfile(u, d, now))) &&
      Views.ReadProfile(Views.ProfileRepresentation(StoredProfile(u, d, now))) ==
        Some(Columns(Some(d.profilePic), Some(d.heroBadge), Some(d.age), Some(d.city), Some(d.country),
                     Some(d.followers), Some(d.likes), Some(d.posts)))
  {
    ProvisionKeepsConsistent(db, sent, d, now, issuedAt, svc);
    ProvisionCreatesAccount(db, sent, d, now, issuedAt, svc);
    var o := Provision(db, sent, d, now, issuedAt, svc);
    var u := o.result.value;
    Views.UserRepresentationShowsProfile(o.db, u);
    Views.ProfileRepresentationReadsBack(StoredProfile(u, d, now));
  }

  /** The password confirmation never reaches the store or the outbox: the outcome does not depend on it. */
  lemma ConfirmationNeverStored(db: Db, sent: seq<Verification.Message>, d: SignupData, other: string, now: Instant, issuedAt: Instant, svc: Services)
    ensures Provision(db, sent, d, now, issuedAt, svc) == Provision(db, sent, d.(passwordConfirmation := other), now, issuedAt, svc)
  {
    assert AccountRow(d, svc) == AccountRow(d.(passwordConfirmation := other), svc);
    forall u: UserId ensures ProfileFor(u, d) == ProfileFor(u, d.(passwordConfirmation := other)) {
    }
  }

  /**
    A refused profile write does not undo the user insert before it: a city
    too long for its column leaves the new user stored without a profile, and
    no e-mail is sent.
   */
  lemma OverlongCityLeavesOrphan(db: Db, sent: seq<Verification.Message>, d: SignupData, now: Instant, issuedAt: Instant, svc: Services)
    requires Consistent(db)
    requires AccountFits(d, svc) && !UsernameTaken(db, AccountRow(d, svc).username)
    requires FitsInt(d.age) && |d.city| > PlaceLimit
    ensures var o := Provision(db, sent, d, now, issuedAt, svc);
      o.result == Failure(StoreFailed(TooLong("city"))) && o.sent == sent &&
      o.db.users == db.users[db.nextUser := AccountRow(d, svc)] && Orphan(o.db, db.nextUser)
  {
    InsertUserKeepsConsistent(db, AccountRow(d, svc));
  }

  /**
    A failed e-mail does not undo the writes before it: the user and its
    profile stay stored, and the outbox is as it was.
   */
  lemma DeliveryFailureKeepsAccount(db: Db, sent: seq<Verification.Message>, d: SignupData, now: Instant, issuedAt: Instant, svc: Services)
    requires Consistent(db)
    requires Provision(db, sent, d, now, issuedAt, svc).result == Failure(DeliveryFailed)
    ensures var o := Provision(db, sent, d, now, issuedAt, svc);
      o.sent == sent && o.db.users == db.users[db.nextUser := AccountRow(d, svc)] &&
      HasProfile(o.db, db.nextUser)
  {
    var row := AccountRow(d, svc);
    InsertUserKeepsConsistent(db, row);
    var w := InsertUser(db, row);
    var draft := ProfileFor(w.result.value, d);
    SaveStoresInstance(w.db, draft, now);
    var s := Saved(w.db, draft, now);
    assert s.db.profiles[s.result.value].user == db.nextUser;
  }

  // ---------------------------------------------------------------- validate, then create

  /** What the two `UniqueValidator`s see: the usernames and addresses of the stored users. */
  function DirectoryOf(db: Db): (dir: Directory)
    ensures forall n :: n in dir.usernames <==> UsernameTaken(db, n)
    ensures forall e :: e in dir.emails <==> exists u | u in db.users :: db.users[u].email == e
  {
    Directory(set u | u in db.users :: db.users[u].username, set u | u in db.users :: db.users[u].email)
  }

  /**
    A serializer's `is_valid()` followed, when it succeeds, by `save()`, which
    calls `create`; `rules` says whether the fields are the declared ones or
    the corrected ones.
   */
  function Register(db: Db, sent: seq<Verification.Message>, input: SignupInput, now: Instant, issuedAt: Instant, svc: Services,
                    validEmail: string -> bool, strength: string -> seq<string>, rules: FieldRules): (o: Outcome)
    ensures o.result.Failure? && o.result.error.Rejected? ==> o.db == db && o.sent == sent
    ensures o.result.Failure? && o.result.error.Rejected? <==> Validate(input, DirectoryOf(db), validEmail, strength, rules).Failure?
  {
    match Validate(input, DirectoryOf(db), validEmail, strength, rules)
    case Failure(errs) => Outcome(db, sent, Failure(Rejected(errs)))
    case Success(d) => Provision(db, sent, d, now, issuedAt, svc)
  }

  /**
    A payload accepted by the corrected fields, whose user row the table
    takes, gets past both writes: only the e-mail can still fail.
   */
  lemma {:induction false} ValidatedPayloadIsStored(db: Db, sent: seq<Verification.Message>, d: SignupData, now: Instant, issuedAt: Instant, svc: Services, validEmail: string -> bool)
    requires Consistent(db) && WithinBounds(d, DirectoryOf(db), validEmail, Corrected(svc.norm)) && AccountFits(d, svc)
    ensures var o := Provision(db, sent, d, now, issuedAt, svc);
      (o.result.Success? || o.result == Failure(DeliveryFailed)) &&
      o.db.users == db.users[db.nextUser := AccountRow(d, svc)] && HasProfile(o.db, db.nextUser) &&
      (o.result.Success? <==> svc.mail.deliver(Verification.ConfirmationFor(AccountRow(d, svc), issuedAt, svc.mail)))
  {
    var row := AccountRow(d, svc);
    assert !UsernameTaken(db, row.username);
    InsertUserKeepsConsistent(db, row);
    var w := InsertUser(db, row);
    var draft := ProfileFor(db.nextUser, d);
    assert SaveError(w.db, Stamp(w.db, draft, now)).None?;
    SaveStoresInstance(w.db, draft, now);
    var s := Saved(w.db, draft, now);
    assert s.db.profiles[s.result.value].user == db.nextUser;
  }

  /**
    A signup through the corrected serializer either is refused by
    validation and changes nothing, or stores the account; a write is refused
    after validation passed only when the user row `create_user` builds does
    not fit its table, and the signup then completes exactly when the e-mail
    goes out.
   */
  lemma {:induction false} RegisterOutcomes(db: Db, sent: seq<Verification.Message>, input: SignupInput, now: Instant, issuedAt: Instant, svc: Services,
                                            validEmail: string -> bool, strength: string -> seq<string>)
    requires Consistent(db)
    ensures var rules := Corrected(svc.norm); var o := Register(db, sent, input, now, issuedAt, svc, validEmail, strength, rules);
      o.result.Failure? && o.result.error.Rejected? <==> Validate(input, DirectoryOf(db), validEmail, strength, rules).Failure?
    ensures var rules := Corrected(svc.norm); var o := Register(db, sent, input, now, issuedAt, svc, validEmail, strength, rules);
      o.result.Failure? && o.result.error.StoreFailed? ==> !AccountFits(Validate(input, DirectoryOf(db), validEmail, strength, rules).value, svc)
    ensures var rules := Corrected(svc.norm); var o := Register(db, sent, input, now, issuedAt, svc, validEmail, strength, rules);
      var r := Validate(input, DirectoryOf(db), validEmail, strength, rules);
      r.Success? && AccountFits(r.value, svc) ==>
        HasProfile(o.db, db.nextUser) && (o.result.Success? || o.result == Failure(DeliveryFailed))
  {
    var rules := Corrected(svc.norm);
    var r := Validate(input, DirectoryOf(db), validEmail, strength, rules);
    ValidateAcceptsExactly(input, DirectoryOf(db), validEmail, strength, rules);
    if r.Success? && AccountFits(r.value, svc) {
      ValidatedPayloadIsStored(db, sent, r.value, now, issuedAt, svc, validEmail);
    }
  }

  /** No two users share an e-mail address. */
  predicate EmailsUnique(db: Db)
  {
    forall u, v | u in db.users && v in db.users && db.users[u].email == db.users[v].email :: u == v
  }

  /** `create` writes at most one user, under the next key, and leaves every existing user as it was. */
  lemma ProvisionAddsAtMostOneUser(db: Db, sent: seq<Verification.Message>, d: SignupData, now: Instant, issuedAt: Instant, svc: Services)
    requires Consistent(db)
    ensures var o := Provision(db, sent, d, now, issuedAt, svc);
      o.db.users == db.users || (db.nextUser !in db.users && o.db.users == db.users[db.nextUser := AccountRow(d, svc)])
  {
    var row := AccountRow(d, svc);
    InsertUserKeepsConsistent(db, row);
    var w := InsertUser(db, row);
    if w.result.Success? {
      SaveKeepsConsistent(w.db, ProfileFor(w.result.value, d), now);
    }
  }

  /** `create` keeps addresses unique when no stored user has the address `create_user` will store. */
  lemma ProvisionKeepsEmailsUnique(db: Db, sent: seq<Verification.Message>, d: SignupData, now: Instant, issuedAt: Instant, svc: Services)
    requires Consistent(db) && EmailsUnique(db)
    requires forall u | u in db.users :: db.users[u].email != svc.norm.email(d.email)
    ensures EmailsUnique(Provision(db, sent, d, now, issuedAt, svc).db)
  {
    ProvisionAddsAtMostOneUser(db, sent, d, now, issuedAt, svc);
  }

  /**
    Signing up through the corrected serializer, whose e-mail validator looks
    up the address `create_user` will store, keeps e-mail addresses unique,
    although the column itself does not.
   */
  lemma {:induction false} RegisterKeepsEmailsUnique(db: Db, sent: seq<Verification.Message>, input: SignupInput, now: Instant, issuedAt: Instant, svc: Services,
                                                     validEmail: string -> bool, strength: string -> seq<string>)
    requires Consistent(db) && EmailsUnique(db)
    ensures var o := Register(db, sent, input, now, issuedAt, svc, validEmail, strength, Corrected(svc.norm));
      Consistent(o.db) && EmailsUnique(o.db)
  {
    var rules := Corrected(svc.norm);
    var r := Validate(input, DirectoryOf(db), validEmail, strength, rules);
    ValidateAcceptsExactly(input, DirectoryOf(db), validEmail, strength, rules);
    if r.Success? {
      var d := r.value;
      ProvisionKeepsConsistent(db, sent, d, now, issuedAt, svc);
      forall u | u in db.users ensures db.users[u].email != svc.norm.email(d.email) {
        assert db.users[u].email in DirectoryOf(db).emails;
      }
      ProvisionKeepsEmailsUnique(db, sent, d, now, issuedAt, svc);
    }
  }

  // ---------------------------------------------------------------- the serializer as declared

  /** A database holding one user, "robert", registered as bob@example.com. */
  function RobertDb(hash: string -> string): (db: Db)
    requires |hash("s3cret-pass")| <= HashLimit
    ensures Consistent(db) && db.nextUser == 2
  {
    Db(map[1 := UserRow("robert", "bob@example.com", hash("s3cret-pass"), "Robert", "Smith")], map[], 2, 1)
  }

  /**
    As declared, the counts are unbounded: a payload accepted with an age
    beyond the 32-bit column gets its user stored, and then the profile write
    is refused, leaving the user without a profile and no e-mail sent.
   */
  lemma {:induction false} UnboundedAgeLeavesOrphan(db: Db, sent: seq<Verification.Message>, input: SignupInput, now: Instant, issuedAt: Instant, svc: Services,
                                                    validEmail: string -> bool, strength: string -> seq<string>)
    requires Consistent(db)
    requires var r := Validate(input, DirectoryOf(db), validEmail, strength, Declared);
      r.Success? && r.value.age > IntMax && AccountFits(r.value, svc) && !UsernameTaken(db, AccountRow(r.value, svc).username)
    ensures var o := Register(db, sent, input, now, issuedAt, svc, validEmail, strength, Declared);
      o.result == Failure(StoreFailed(OutOfRange("age"))) && o.sent == sent && Orphan(o.db, db.nextUser)
  {
    var d := Validate(input, DirectoryOf(db), validEmail, strength, Declared).value;
    InsertUserKeepsConsistent(db, AccountRow(d, svc));
  }

  /** Such a payload exists: the declared fields accept an age of three billion. */
  lemma {:induction false} DeclaredAcceptsOverflowingAge(input: SignupInput, dir: Directory, validEmail: string -> bool, strength: string -> seq<string>)
    requires Complete(input) && WithinBounds(Cleaned(input), dir, validEmail, Declared)
    requires Cleaned(input).password == Cleaned(input).passwordConfirmation && strength(Cleaned(input).password) == []
    requires input.age == Given(3000000000)
    ensures var r := Validate(input, dir, validEmail, strength, Declared); r.Success? && r.value.age > IntMax
  {
    ValidateAcceptsExactly(input, dir, validEmail, strength, Declared);
  }

  /**
    As declared, the e-mail `UniqueValidator` looks up the address as given,
    while `create_user` stores it with the domain lower-cased: with
    bob@example.com stored, bob@Example.com passes the check and a second
    user with bob@example.com is stored.
   */
  lemma {:induction false} DomainCaseDuplicatesEmail(sent: seq<Verification.Message>, d: SignupData, now: Instant, issuedAt: Instant, svc: Services, validEmail: string -> bool)
    requires |svc.hash("s3cret-pass")| <= HashLimit
    requires d.email == "bob@Example.com" && svc.norm.email(d.email) == "bob@example.com"
    requires WithinBounds(d, DirectoryOf(RobertDb(svc.hash)), validEmail, Declared) && FitsInt(d.age) && FitsInt(d.followers) && FitsInt(d.likes) && FitsInt(d.posts)
    requires AccountFits(d, svc) && !UsernameTaken(RobertDb(svc.hash), AccountRow(d, svc).username)
    ensures var db := RobertDb(svc.hash); var o := Provision(db, sent, d, now, issuedAt, svc);
      EmailsUnique(db) && d.email !in DirectoryOf(db).emails &&
      (o.result.Success? || o.result == Failure(DeliveryFailed)) &&
      1 in o.db.users && 2 in o.db.users && o.db.users[1].email == o.db.users[2].email && !EmailsUnique(o.db)
  {
    var db := RobertDb(svc.hash);
    var row := AccountRow(d, svc);
    InsertUserKeepsConsistent(db, row);
    var w := InsertUser(db, row);
    var draft := ProfileFor(db.nextUser, d);
    assert SaveError(w.db, Stamp(w.db, draft, now)).None?;
    var o := Provision(db, sent, d, now, issuedAt, svc);
    assert o.db.users == db.users[2 := row];
  }

  /**
    As declared, the username `UniqueValidator` looks up the name as given,
    while `create_user` stores its NFKC form: with "robert" stored, the
    fullwidth "ｒｏｂｅｒｔ" passes the check, and the insert is then refused by
    the unique column.
   */
  lemma {:induction false} FullwidthUsernameRefusedAtInsert(sent: seq<Verification.Message>, d: SignupData, now: Instant, issuedAt: Instant, svc: Services, validEmail: string -> bool)
    requires |svc.hash("s3cret-pass")| <= HashLimit
    requires d.username == "\U{ff52}\U{ff4f}\U{ff42}\U{ff45}\U{ff52}\U{ff54}" && svc.norm.username(d.username) == "robert"
    requires WithinBounds(d, DirectoryOf(RobertDb(svc.hash)), validEmail, Declared) && UserFits(AccountRow(d, svc))
    ensures var db := RobertDb(svc.hash); var o := Provision(db, sent, d, now, issuedAt, svc);
      d.username !in DirectoryOf(db).usernames && o.result == Failure(StoreFailed(Unique("username"))) && o.db == db && o.sent == sent
  {
    var db := RobertDb(svc.hash);
    assert db.users[1].username == AccountRow(d, svc).username;
  }

  // ---------------------------------------------------------------- create, step by step

  /**
    `create(data)` on the tables of `store` and the outbox of `mailer`: the
    confirmation entry is popped from the data, the user is created, the
    profile is built attribute by attribute and saved, and the e-mail is sent.
   */
  method Create(store: Store, mailer: Verification.Mailer, d: SignupData, now: Instant, issuedAt: Instant, svc: Services)
    returns (r: Result<UserId, SignupError>)
    requires store.Valid()
    modifies store, mailer
    ensures store.Valid()
    ensures var o := Provision(old(store.State()), old(mailer.outbox), d, now, issuedAt, svc);
      store.State() == o.db && mailer.outbox == o.sent && r == o.result
  {
    var data := AsDict(d);
    data := data - {"password_confirmation"};
    PoppedData(d);
    var row := NewUserRow(data["username"].s, data["email"].s, data["password"].s, data["first_name"].s, data["last_name"].s, svc.hash, svc.norm);
    assert row == AccountRow(d, svc);
    var created := store.CreateUser(row);
    if created.Failure? {
      return Failure(StoreFailed(created.error));
    }
    var user := created.value;
    var profile := BuildProfile(user, data, d);
    var saved := store.Save(profile, now);
    if saved.Failure? {
      return Failure(StoreFailed(saved.error));
    }
    var ok := mailer.SendConfirmation(row, issuedAt, svc.mail);
    if !ok {
      return Failure(DeliveryFailed);
    }
    r := Success(user);
  }

  /** `Profile(user=user)` followed by the attribute assignments of `create`. */
  method BuildProfile(user: UserId, data: map<string, Value>, ghost d: SignupData) returns (profile: Profile)
    requires HoldsPayload(data, d)
    ensures fresh(profile) && profile.Draft() == ProfileFor(user, d)
  {
    var pic, badge := data["profile_pic"].image, data["hero_badge"].image;
    var city, country := data["city"].s, data["country"].s;
    var age, likes, followers, posts := data["age"].n, data["likes"].n, data["followers"].n, data["posts"].n;
    profile := new Profile(user);
    profile.profilePic := Some(pic);
    profile.heroBadge := Some(badge);
    profile.city := Some(city);
    profile.country := Some(country);
    profile.age := Some(age);
    profile.likes := Some(likes);
    profile.followers := Some(followers);
    profile.posts := Some(posts);
    profile.isVerified := false;
    assert profile.user == user && profile.createdAt.None? && profile.modifiedAt.None? && profile.pk.None?;
    assert profile.Draft() == ProfileDraft(user, Some(pic), Some(badge), Some(age), Some(city), Some(country),
                                           Some(followers), Some(likes), Some(posts), false, None, None, None);
    assert pic == d.profilePic && badge == d.heroBadge && city == d.city && country == d.country;
    assert age == d.age && likes == d.likes && followers == d.followers && posts == d.posts;
  }
}
