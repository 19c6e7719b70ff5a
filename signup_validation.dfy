/**
  Validation of a signup payload by `UserSignupSerializer`: each declared
  field's own checks (presence, blank, length bounds, uniqueness against the
  existing users, e-mail syntax), all reported together, and then, only when
  every field passed, the serializer's `validate`: the two passwords must be
  equal, and only then is the password-strength policy consulted.
 */
module SignupValidation {
  import opened Wrappers
  import opened Text
  import opened Models

  /** A value as it arrives in the request: missing, an explicit null, or given. */
  datatype Raw<+T> = Absent | Null | Given(value: T)

  /** The request payload, one entry per declared field. */
  datatype SignupInput = SignupInput(
    username: Raw<string>, email: Raw<string>,
    password: Raw<string>, passwordConfirmation: Raw<string>,
    profilePic: Raw<Image>, heroBadge: Raw<Image>,
    firstName: Raw<string>, lastName: Raw<string>,
    city: Raw<string>, country: Raw<string>,
    age: Raw<int>, likes: Raw<int>, followers: Raw<int>, posts: Raw<int>)

  /** The validated payload: every field present, every string stripped. */
  datatype SignupData = SignupData(
    username: string, email: string,
    password: string, passwordConfirmation: string,
    profilePic: Image, heroBadge: Image,
    firstName: string, lastName: string,
    city: string, country: string,
    age: int, likes: int, followers: int, posts: int)

  /** One reported problem. `Said` carries the message of an error raised by `validate`. */
  datatype Violation =
    | Required
    | NullValue
    | Blank
    | MaxLength(limit: nat)
    | MinLength(limit: nat)
    | MaxValue(bound: int)
    | MinValue(bound: int)
    | NotUnique
    | InvalidEmail
    | Said(message: string)

  /** The aggregated error: problems keyed by field name, or by the key `validate` raised them under. */
  type Errors = map<string, set<Violation>>

  /** The usernames and e-mail addresses of the existing users, which the two `UniqueValidator`s consult. */
  datatype Directory = Directory(usernames: set<string>, emails: set<string>)

  /** The values an `IntegerField` accepts: any integer, or those from `min_value` to `max_value`. */
  datatype IntRange = Unbounded | Between(lo: int, hi: int)

  predicate InRange(n: int, range: IntRange)
  {
    range.Unbounded? || range.lo <= n <= range.hi
  }

  /**
    The parts of the field checks in which the serializer as declared and its
    corrected form differ: the range of the four count fields, and the form of
    a value the username and e-mail `UniqueValidator`s look up.
   */
  datatype FieldRules = FieldRules(counts: IntRange, usernameKey: string -> string, emailKey: string -> string)

  /** The fields as signup.py:24-37 declares them: unbounded counts, and lookups of the value as given. */
  const Declared: FieldRules := FieldRules(Unbounded, s => s, s => s)

  /**
    The corrected fields: counts bounded to the 32-bit column, and lookups of
    the value `create_user` will actually store.
   */
  function Corrected(n: Normalizer): (rules: FieldRules)
    ensures rules.counts == Between(IntMin, IntMax)
    ensures forall t :: rules.usernameKey(t) == n.username(t) && rules.emailKey(t) == n.email(t)
  {
    FieldRules(Between(IntMin, IntMax), n.username, n.email)
  }

  const MismatchKey := "Error"
  const MismatchMessage := "Password doesn't match with the password confirmation"
  /** Where a `ValidationError` raised with a list of messages lands. */
  const NonFieldKey := "non_field_errors"

  /** The length bounds of signup.py:24-33. */
  const UsernameMin: nat := 4
  const NameMax: nat := 150
  const PasswordMin: nat := 8
  const PasswordMax: nat := 128
  const PlaceMax: nat := 100

  /**
    A `CharField(allow_blank=False)`: the value is stripped; an empty result is
    reported as blank and nothing else; otherwise every validator runs and each
    failure is reported (`minLen` 0 stands for no minimum).
   */
  function TextViolations(raw: Raw<string>, minLen: nat, maxLen: nat, extra: string -> set<Violation>): set<Violation>
  {
    match raw
    case Absent => {Required}
    case Null => {NullValue}
    case Given(s) =>
      var t := Trim(s);
      if t == [] then {Blank}
      else
        (if |t| > maxLen then {MaxLength(maxLen)} else {}) +
        (if |t| < minLen then {MinLength(minLen)} else {}) +
        extra(t)
  }

  /** An `ImageField`: only presence is checked here. */
  function ValueViolations<T>(raw: Raw<T>): set<Violation>
  {
    match raw
    case Absent => {Required}
    case Null => {NullValue}
    case Given(_) => {}
  }

  /** An `IntegerField` accepting `range`. */
  function IntViolations(raw: Raw<int>, range: IntRange): set<Violation>
  {
    match raw
    case Absent => {Required}
    case Null => {NullValue}
    case Given(n) =>
      (if range.Between? && n > range.hi then {MaxValue(range.hi)} else {}) +
      (if range.Between? && n < range.lo then {MinValue(range.lo)} else {})
  }

  function NoExtra(t: string): set<Violation>
  {
    {}
  }

  /** The `UniqueValidator` on `username`, looking up `key` of the value. */
  function UsernameRule(dir: Directory, key: string -> string): string -> set<Violation>
  {
    t => if key(t) in dir.usernames then {NotUnique} else {}
  }

  /** The `UniqueValidator` and the e-mail syntax check on `email`. */
  function EmailRule(dir: Directory, key: string -> string, validEmail: string -> bool): string -> set<Violation>
  {
    t => (if key(t) in dir.emails then {NotUnique} else {}) + (if validEmail(t) then {} else {InvalidEmail})
  }

  lemma UsernameRuleAccepts(dir: Directory, key: string -> string, t: string)
    ensures UsernameRule(dir, key)(t) == {} <==> key(t) !in dir.usernames
  {
  }

  lemma EmailRuleAccepts(dir: Directory, key: string -> string, validEmail: string -> bool, t: string)
    ensures EmailRule(dir, key, validEmail)(t) == {} <==> key(t) !in dir.emails && validEmail(t)
  {
    if key(t) in dir.emails {
      assert NotUnique in EmailRule(dir, key, validEmail)(t);
    }
    if !validEmail(t) {
      assert InvalidEmail in EmailRule(dir, key, validEmail)(t);
    }
  }

  /** A text field passes exactly when it is given and its stripped value is non-empty, within bounds and accepted by the field's other validators. */
  lemma TextFieldPasses(raw: Raw<string>, minLen: nat, maxLen: nat, extra: string -> set<Violation>)
    ensures TextViolations(raw, minLen, maxLen, extra) == {} <==>
      raw.Given? && Trim(raw.value) != [] && minLen <= |Trim(raw.value)| <= maxLen && extra(Trim(raw.value)) == {}
  {
    if raw.Given? && Trim(raw.value) != [] {
      var t := Trim(raw.value);
      if |t| > maxLen {
        assert MaxLength(maxLen) in TextViolations(raw, minLen, maxLen, extra);
      }
      if |t| < minLen {
        assert MinLength(minLen) in TextViolations(raw, minLen, maxLen, extra);
      }
    }
  }

  /** An integer field passes exactly when it is given and within its range. */
  lemma IntFieldPasses(raw: Raw<int>, range: IntRange)
    ensures IntViolations(raw, range) == {} <==> raw.Given? && InRange(raw.value, range)
  {
    if raw.Given? && range.Between? && raw.value > range.hi {
      assert MaxValue(range.hi) in IntViolations(raw, range);
    }
    if raw.Given? && range.Between? && raw.value < range.lo {
      assert MinValue(range.lo) in IntViolations(raw, range);
    }
  }

  /** The declared fields of signup.py:24-37. */
  datatype Field =
    | Username | Email | Password | PasswordConfirmation | ProfilePic | HeroBadge
    | FirstName | LastName | City | Country | Age | Likes | Followers | Posts

  /** The names of the declared fields. */
  const FieldNames: set<string> := {
    "username", "email", "password", "password_confirmation", "profile_pic", "hero_badge",
    "first_name", "last_name", "city", "country", "age", "likes", "followers", "posts"}

  /** The declared fields. */
  const AllFields: set<Field> := {
    Username, Email, Password, PasswordConfirmation, ProfilePic, HeroBadge,
    FirstName, LastName, City, Country, Age, Likes, Followers, Posts}

  /** The name a field is declared under, which is the key its errors are reported under. */
  function Name(f: Field): (k: string)
  {
    match f
    case Username => "username"
    case Email => "email"
    case Password => "password"
    case PasswordConfirmation => "password_confirmation"
    case ProfilePic => "profile_pic"
    case HeroBadge => "hero_badge"
    case FirstName => "first_name"
    case LastName => "last_name"
    case City => "city"
    case Country => "country"
    case Age => "age"
    case Likes => "likes"
    case Followers => "followers"
    case Posts => "posts"
  }

  /** The field declared under name `k`, if any. */
  function FieldNamed(k: string): (f: Option<Field>)
    ensures f.Some? ==> Name(f.value) == k
  {
    if k == "username" then Some(Username)
    else if k == "email" then Some(Email)
    else if k == "password" then Some(Password)
    else if k == "password_confirmation" then Some(PasswordConfirmation)
    else if k == "profile_pic" then Some(ProfilePic)
    else if k == "hero_badge" then Some(HeroBadge)
    else if k == "first_name" then Some(FirstName)
    else if k == "last_name" then Some(LastName)
    else if k == "city" then Some(City)
    else if k == "country" then Some(Country)
    else if k == "age" then Some(Age)
    else if k == "likes" then Some(Likes)
    else if k == "followers" then Some(Followers)
    else if k == "posts" then Some(Posts)
    else None
  }

  /** Every field is found again under its name, so no two fields share a name. */
  lemma NameRoundTrip(f: Field)
    ensures FieldNamed(Name(f)) == Some(f)
  {
  }

  lemma NamesDiffer(f: Field, g: Field)
    requires f != g
    ensures Name(f) != Name(g)
  {
    NameRoundTrip(f);
    NameRoundTrip(g);
  }

  /** The problems each declared field's own checks find, field by field. */
  datatype Report = Report(
    username: set<Violation>, email: set<Violation>, password: set<Violation>, passwordConfirmation: set<Violation>,
    profilePic: set<Violation>, heroBadge: set<Violation>, firstName: set<Violation>, lastName: set<Violation>,
    city: set<Violation>, country: set<Violation>, age: set<Violation>, likes: set<Violation>,
    followers: set<Violation>, posts: set<Violation>)

  /** Runs every field's checks on the input. */
  function Checks(input: SignupInput, dir: Directory, validEmail: string -> bool, rules: FieldRules): Report
  {
    Report(
      TextViolations(input.username, UsernameMin, NameMax, UsernameRule(dir, rules.usernameKey)),
      TextViolations(input.email, 0, NameMax, EmailRule(dir, rules.emailKey, validEmail)),
      TextViolations(input.password, PasswordMin, PasswordMax, NoExtra),
      TextViolations(input.passwordConfirmation, PasswordMin, PasswordMax, NoExtra),
      ValueViolations(input.profilePic), ValueViolations(input.heroBadge),
      TextViolations(input.firstName, 0, NameMax, NoExtra), TextViolations(input.lastName, 0, NameMax, NoExtra),
      TextViolations(input.city, 0, PlaceMax, NoExtra), TextViolations(input.country, 0, PlaceMax, NoExtra),
      IntViolations(input.age, rules.counts), IntViolations(input.likes, rules.counts),
      IntViolations(input.followers, rules.counts), IntViolations(input.posts, rules.counts))
  }

  /** The entry of field `f` in a report. */
  function Pick(r: Report, f: Field): set<Violation>
  {
    match f
    case Username => r.username
    case Email => r.email
    case Password => r.password
    case PasswordConfirmation => r.passwordConfirmation
    case ProfilePic => r.profilePic
    case HeroBadge => r.heroBadge
    case FirstName => r.firstName
    case LastName => r.lastName
    case City => r.city
    case Country => r.country
    case Age => r.age
    case Likes => r.likes
    case Followers => r.followers
    case Posts => r.posts
  }

  /** The problems field `f`'s own checks find in the input. */
  function Problems(input: SignupInput, dir: Directory, validEmail: string -> bool, rules: FieldRules, f: Field): set<Violation>
  {
    Pick(Checks(input, dir, validEmail, rules), f)
  }

  lemma EveryFieldDeclared()
    ensures forall f: Field :: f in AllFields
  {
    forall f: Field ensures f in AllFields {
      match f
      case Username => case Email => case Password => case PasswordConfirmation => case ProfilePic => case HeroBadge =>
      case FirstName => case LastName => case City => case Country => case Age => case Likes => case Followers => case Posts =>
    }
  }

  /** No two fields share a name, so each field's errors have a key of their own. */
  lemma NameInjective()
    ensures forall f, g | Name(f) == Name(g) :: f == g
  {
    forall f, g | Name(f) == Name(g)
      ensures f == g
    {
      if f != g {
        NamesDiffer(f, g);
      }
    }
  }

  /**
    DRF's field phase: every declared field's problems, filed under the
    field's name; a field without problems has no entry, and nothing else
    does.
   */
  function FieldErrors(input: SignupInput, dir: Directory, validEmail: string -> bool, rules: FieldRules): (errs: Errors)
    ensures forall k | k in errs :: exists f :: k == Name(f)
    ensures forall f :: Name(f) in errs <==> Problems(input, dir, validEmail, rules, f) != {}
    ensures forall f | Name(f) in errs :: errs[Name(f)] == Problems(input, dir, validEmail, rules, f)
  {
    NameInjective();
    EveryFieldDeclared();
    map f | f in AllFields && Problems(input, dir, validEmail, rules, f) != {} :: Name(f) := Problems(input, dir, validEmail, rules, f)
  }

  /** Every declared field passed its own checks. */
  predicate FieldsValid(input: SignupInput, dir: Directory, validEmail: string -> bool, rules: FieldRules)
  {
    forall f: Field :: Problems(input, dir, validEmail, rules, f) == {}
  }

  predicate Complete(input: SignupInput)
  {
    input.username.Given? && input.email.Given? && input.password.Given? &&
    input.passwordConfirmation.Given? && input.profilePic.Given? && input.heroBadge.Given? &&
    input.firstName.Given? && input.lastName.Given? && input.city.Given? && input.country.Given? &&
    input.age.Given? && input.likes.Given? && input.followers.Given? && input.posts.Given?
  }

  /** What the field phase hands to `validate`: each value, strings stripped. */
  function Cleaned(input: SignupInput): SignupData
    requires Complete(input)
  {
    SignupData(
      Trim(input.username.value), Trim(input.email.value),
      Trim(input.password.value), Trim(input.passwordConfirmation.value),
      input.profilePic.value, input.heroBadge.value,
      Trim(input.firstName.value), Trim(input.lastName.value),
      Trim(input.city.value), Trim(input.country.value),
      input.age.value, input.likes.value, input.followers.value, input.posts.value)
  }

  /** The length, blank, range and uniqueness rules an accepted payload meets. */
  predicate WithinBounds(d: SignupData, dir: Directory, validEmail: string -> bool, rules: FieldRules)
  {
    UsernameMin <= |d.username| <= NameMax && 0 < |d.email| <= NameMax &&
    PasswordMin <= |d.password| <= PasswordMax &&
    PasswordMin <= |d.passwordConfirmation| <= PasswordMax &&
    0 < |d.firstName| <= NameMax && 0 < |d.lastName| <= NameMax &&
    0 < |d.city| <= PlaceMax && 0 < |d.country| <= PlaceMax &&
    InRange(d.age, rules.counts) && InRange(d.likes, rules.counts) &&
    InRange(d.followers, rules.counts) && InRange(d.posts, rules.counts) &&
    rules.usernameKey(d.username) !in dir.usernames && rules.emailKey(d.email) !in dir.emails && validEmail(d.email)
  }

  predicate AllStripped(d: SignupData)
  {
    Stripped(d.username) && Stripped(d.email) && Stripped(d.password) && Stripped(d.passwordConfirmation) &&
    Stripped(d.firstName) && Stripped(d.lastName) && Stripped(d.city) && Stripped(d.country)
  }

  /** The account fields pass exactly when they are given and their stripped values meet the bounds. */
  lemma {:induction false} AccountFieldsPass(input: SignupInput, dir: Directory, validEmail: string -> bool, rules: FieldRules)
    ensures (Problems(input, dir, validEmail, rules, Username) == {} && Problems(input, dir, validEmail, rules, Email) == {} &&
             Problems(input, dir, validEmail, rules, Password) == {} && Problems(input, dir, validEmail, rules, PasswordConfirmation) == {} &&
             Problems(input, dir, validEmail, rules, ProfilePic) == {} && Problems(input, dir, validEmail, rules, HeroBadge) == {}) <==>
      input.username.Given? && input.email.Given? && input.password.Given? && input.passwordConfirmation.Given? &&
      input.profilePic.Given? && input.heroBadge.Given? &&
      UsernameMin <= |Trim(input.username.value)| <= NameMax && 0 < |Trim(input.email.value)| <= NameMax &&
      PasswordMin <= |Trim(input.password.value)| <= PasswordMax &&
      PasswordMin <= |Trim(input.passwordConfirmation.value)| <= PasswordMax &&
      rules.usernameKey(Trim(input.username.value)) !in dir.usernames &&
      rules.emailKey(Trim(input.email.value)) !in dir.emails && validEmail(Trim(input.email.value))
  {
    TextFieldPasses(input.username, UsernameMin, NameMax, UsernameRule(dir, rules.usernameKey));
    TextFieldPasses(input.email, 0, NameMax, EmailRule(dir, rules.emailKey, validEmail));
    TextFieldPasses(input.password, PasswordMin, PasswordMax, NoExtra);
    TextFieldPasses(input.passwordConfirmation, PasswordMin, PasswordMax, NoExtra);
    if input.username.Given? {
      UsernameRuleAccepts(dir, rules.usernameKey, Trim(input.username.value));
    }
    if input.email.Given? {
      EmailRuleAccepts(dir, rules.emailKey, validEmail, Trim(input.email.value));
    }
  }

  /** The name and place fields pass exactly when they are given and non-blank and within bounds after stripping. */
  lemma {:induction false} PlaceFieldsPass(input: SignupInput, dir: Directory, validEmail: string -> bool, rules: FieldRules)
    ensures (Problems(input, dir, validEmail, rules, FirstName) == {} && Problems(input, dir, validEmail, rules, LastName) == {} &&
             Problems(input, dir, validEmail, rules, City) == {} && Problems(input, dir, validEmail, rules, Country) == {}) <==>
      input.firstName.Given? && input.lastName.Given? && input.city.Given? && input.country.Given? &&
      0 < |Trim(input.firstName.value)| <= NameMax && 0 < |Trim(input.lastName.value)| <= NameMax &&
      0 < |Trim(input.city.value)| <= PlaceMax && 0 < |Trim(input.country.value)| <= PlaceMax
  {
    TextFieldPasses(input.firstName, 0, NameMax, NoExtra);
    TextFieldPasses(input.lastName, 0, NameMax, NoExtra);
    TextFieldPasses(input.city, 0, PlaceMax, NoExtra);
    TextFieldPasses(input.country, 0, PlaceMax, NoExtra);
  }

  /** The count fields pass exactly when they are given and within range. */
  lemma {:induction false} CountFieldsPass(input: SignupInput, dir: Directory, validEmail: string -> bool, rules: FieldRules)
    ensures (Problems(input, dir, validEmail, rules, Age) == {} && Problems(input, dir, validEmail, rules, Likes) == {} &&
             Problems(input, dir, validEmail, rules, Followers) == {} && Problems(input, dir, validEmail, rules, Posts) == {}) <==>
      input.age.Given? && input.likes.Given? && input.followers.Given? && input.posts.Given? &&
      InRange(input.age.value, rules.counts) && InRange(input.likes.value, rules.counts) &&
      InRange(input.followers.value, rules.counts) && InRange(input.posts.value, rules.counts)
  {
    IntFieldPasses(input.age, rules.counts);
    IntFieldPasses(input.likes, rules.counts);
    IntFieldPasses(input.followers, rules.counts);
    IntFieldPasses(input.posts, rules.counts);
  }

  /** Every field passes exactly when each of the fourteen entries of the report is empty. */
  lemma AllPicksEmpty(r: Report)
    ensures (forall f :: Pick(r, f) == {}) <==>
      r.username == {} && r.email == {} && r.password == {} && r.passwordConfirmation == {} &&
      r.profilePic == {} && r.heroBadge == {} && r.firstName == {} && r.lastName == {} &&
      r.city == {} && r.country == {} && r.age == {} && r.likes == {} && r.followers == {} && r.posts == {}
  {
    if r.username == {} && r.email == {} && r.password == {} && r.passwordConfirmation == {} &&
      r.profilePic == {} && r.heroBadge == {} && r.firstName == {} && r.lastName == {} &&
      r.city == {} && r.country == {} && r.age == {} && r.likes == {} && r.followers == {} && r.posts == {}
    {
      forall f ensures Pick(r, f) == {} {
      }
    } else {
      assert Pick(r, Username) != {} || Pick(r, Email) != {} || Pick(r, Password) != {} || Pick(r, PasswordConfirmation) != {} ||
        Pick(r, ProfilePic) != {} || Pick(r, HeroBadge) != {} || Pick(r, FirstName) != {} || Pick(r, LastName) != {} ||
        Pick(r, City) != {} || Pick(r, Country) != {} || Pick(r, Age) != {} || Pick(r, Likes) != {} ||
        Pick(r, Followers) != {} || Pick(r, Posts) != {};
    }
  }

  /** The field phase passes exactly when the payload is complete and its stripped values meet the bounds. */
  lemma {:induction false} FieldsValidMeansBounds(input: SignupInput, dir: Directory, validEmail: string -> bool, rules: FieldRules)
    ensures FieldsValid(input, dir, validEmail, rules) <==> Complete(input) && WithinBounds(Cleaned(input), dir, validEmail, rules)
  {
    AllPicksEmpty(Checks(input, dir, validEmail, rules));
    AccountFieldsPass(input, dir, validEmail, rules);
    PlaceFieldsPass(input, dir, validEmail, rules);
    CountFieldsPass(input, dir, validEmail, rules);
  }

  lemma {:induction false} CleanedIsStripped(input: SignupInput)
    requires Complete(input)
    ensures AllStripped(Cleaned(input))
  {
    TrimIsStripped(input.username.value);
    TrimIsStripped(input.email.value);
    TrimIsStripped(input.password.value);
    TrimIsStripped(input.passwordConfirmation.value);
    TrimIsStripped(input.firstName.value);
    TrimIsStripped(input.lastName.value);
    TrimIsStripped(input.city.value);
    TrimIsStripped(input.country.value);
  }

  /**
    `validate(data)`: equal passwords, then the strength policy
    (`strength` lists the rules the password breaks); on success the payload
    is returned as it came in.
   */
  function ValidatePayload(d: SignupData, strength: string -> seq<string>): (r: Result<SignupData, Errors>)
    ensures r.Success? <==> d.password == d.passwordConfirmation && strength(d.password) == []
    ensures r.Success? ==> r.value == d
    ensures d.password != d.passwordConfirmation ==>
      r.Failure? && r.error.Keys == {MismatchKey} && r.error[MismatchKey] == {Said(MismatchMessage)}
    ensures d.password == d.passwordConfirmation && strength(d.password) != [] ==>
      r == Failure(map[NonFieldKey := set m | m in strength(d.password) :: Said(m)])
  {
    if d.password != d.passwordConfirmation then
      Failure(map[MismatchKey := {Said(MismatchMessage)}])
    else
      var problems := strength(d.password);
      if problems != [] then
        Failure(map[NonFieldKey := set m | m in problems :: Said(m)])
      else Success(d)
  }

  /**
    `is_valid()`: the field phase, whose errors are all reported together, and
    only when it is clean, `validate`.
   */
  function Validate(input: SignupInput, dir: Directory, validEmail: string -> bool, strength: string -> seq<string>, rules: FieldRules): (r: Result<SignupData, Errors>)
    ensures r.Failure? ==> r.error != map[]
    ensures r.Success? ==> Complete(input) && r.value == Cleaned(input)
  {
    var errs := FieldErrors(input, dir, validEmail, rules);
    if errs != map[] then Failure(errs)
    else
      FieldsValidMeansBounds(input, dir, validEmail, rules);
      var r := ValidatePayload(Cleaned(input), strength);
      assert r.Failure? ==> MismatchKey in r.error || NonFieldKey in r.error;
      r
  }

  /**
    An accepted payload is the stripped input, meets every length, blank,
    range and uniqueness rule, has equal passwords and a password the policy
    accepts; and every payload with those properties is accepted.
   */
  lemma {:induction false} ValidateAcceptsExactly(input: SignupInput, dir: Directory, validEmail: string -> bool, strength: string -> seq<string>, rules: FieldRules)
    ensures Validate(input, dir, validEmail, strength, rules).Success? <==>
      Complete(input) && WithinBounds(Cleaned(input), dir, validEmail, rules) &&
      Cleaned(input).password == Cleaned(input).passwordConfirmation && strength(Cleaned(input).password) == []
    ensures Validate(input, dir, validEmail, strength, rules).Success? ==>
      var d := Validate(input, dir, validEmail, strength, rules).value;
      d == Cleaned(input) && WithinBounds(d, dir, validEmail, rules) && AllStripped(d)
  {
    FieldsValidMeansBounds(input, dir, validEmail, rules);
    FieldErrorsEmpty(input, dir, validEmail, rules);
    if Complete(input) {
      CleanedIsStripped(input);
    }
  }

  /**
    When every field passed but the stripped passwords differ, validation
    fails with the single key 'Error', whatever the strength policy says.
   */
  lemma {:induction false} MismatchFailsUnderErrorKey(input: SignupInput, dir: Directory, validEmail: string -> bool, strength: string -> seq<string>, other: string -> seq<string>, rules: FieldRules)
    requires FieldsValid(input, dir, validEmail, rules)
    requires Complete(input) && Cleaned(input).password != Cleaned(input).passwordConfirmation
    ensures var r := Validate(input, dir, validEmail, strength, rules);
      r.Failure? && r.error == map[MismatchKey := {Said(MismatchMessage)}]
    ensures Validate(input, dir, validEmail, strength, rules) == Validate(input, dir, validEmail, other, rules)
  {
    FieldErrorsEmpty(input, dir, validEmail, rules);
  }

  /** A strength complaint is only ever reported for a payload whose fields passed and whose passwords match. */
  lemma {:induction false} StrengthCheckedOnlyAfterMatch(input: SignupInput, dir: Directory, validEmail: string -> bool, strength: string -> seq<string>, rules: FieldRules)
    requires var r := Validate(input, dir, validEmail, strength, rules); r.Failure? && NonFieldKey in r.error
    ensures FieldsValid(input, dir, validEmail, rules) && Complete(input)
    ensures Cleaned(input).password == Cleaned(input).passwordConfirmation
    ensures strength(Cleaned(input).password) != []
  {
    NonFieldKeyIsNoField();
    assert FieldErrors(input, dir, validEmail, rules) == map[];
    FieldErrorsEmpty(input, dir, validEmail, rules);
    FieldsValidMeansBounds(input, dir, validEmail, rules);
  }

  /** Once every field passed and the passwords match, each complaint of the policy is reported under `non_field_errors`. */
  lemma {:induction false} StrengthReported(input: SignupInput, dir: Directory, validEmail: string -> bool, strength: string -> seq<string>, rules: FieldRules)
    requires FieldsValid(input, dir, validEmail, rules) && Complete(input)
    requires Cleaned(input).password == Cleaned(input).passwordConfirmation && strength(Cleaned(input).password) != []
    ensures var r := Validate(input, dir, validEmail, strength, rules);
      r.Failure? && r.error.Keys == {NonFieldKey} &&
      forall m :: Said(m) in r.error[NonFieldKey] <==> m in strength(Cleaned(input).password)
  {
    FieldErrorsEmpty(input, dir, validEmail, rules);
  }

  lemma NonFieldKeyIsNoField()
    ensures forall f :: Name(f) != NonFieldKey && Name(f) != MismatchKey
  {
  }

  /** The field phase reports nothing exactly when every declared field passed. */
  lemma FieldErrorsEmpty(input: SignupInput, dir: Directory, validEmail: string -> bool, rules: FieldRules)
    ensures FieldErrors(input, dir, validEmail, rules) == map[] <==> FieldsValid(input, dir, validEmail, rules)
  {
    var errs := FieldErrors(input, dir, validEmail, rules);
    if errs != map[] {
      var k :| k in errs;
      var f :| k == Name(f);
    }
  }

  /**
    A username whose lookup key an existing user holds is reported under
    "username" as not unique, and the payload is refused.
   */
  lemma {:induction false} TakenUsernameRefused(input: SignupInput, dir: Directory, validEmail: string -> bool, strength: string -> seq<string>, rules: FieldRules)
    requires input.username.Given? && Trim(input.username.value) != [] && rules.usernameKey(Trim(input.username.value)) in dir.usernames
    ensures var r := Validate(input, dir, validEmail, strength, rules);
      r.Failure? && "username" in r.error && NotUnique in r.error["username"]
  {
    var t := Trim(input.username.value);
    assert UsernameRule(dir, rules.usernameKey)(t) == {NotUnique};
    assert NotUnique in Problems(input, dir, validEmail, rules, Username);
  }

  /**
    A given password that strips to fewer than eight characters (but not to
    nothing) is reported under "password" as too short, and the payload is
    refused before `validate` runs.
   */
  lemma {:induction false} ShortPasswordRefused(input: SignupInput, dir: Directory, validEmail: string -> bool, strength: string -> seq<string>, rules: FieldRules)
    requires input.password.Given? && 0 < |Trim(input.password.value)| < PasswordMin
    ensures var r := Validate(input, dir, validEmail, strength, rules);
      r.Failure? && "password" in r.error && MinLength(PasswordMin) in r.error["password"]
  {
    assert MinLength(PasswordMin) in Problems(input, dir, validEmail, rules, Password);
  }

  /**
    With bounded counts, a count above the 32-bit range is reported under its
    field as too large, and the payload is refused.
   */
  lemma {:induction false} OverflowingAgeRefused(input: SignupInput, dir: Directory, validEmail: string -> bool, strength: string -> seq<string>, n: Normalizer)
    requires input.age.Given? && input.age.value > IntMax
    ensures var r := Validate(input, dir, validEmail, strength, Corrected(n));
      r.Failure? && "age" in r.error && MaxValue(IntMax) in r.error["age"]
  {
    var rules := Corrected(n);
    assert IntViolations(input.age, rules.counts) == {MaxValue(IntMax)};
    assert Problems(input, dir, validEmail, rules, Age) == {MaxValue(IntMax)};
    assert Name(Age) == "age";
  }
}
