/**
  The two read-side projections of users/serializers/users.py: a profile
  shows eight of its columns, and a user shows its username and names with
  its profile nested inside, read-only. A representation is a function of
  the stored rows, so producing it changes nothing.
 */
module Views {
  import opened Wrappers
  import opened Text
  import opened Models
  import opened SignupValidation

  /** The JSON values a representation is built from; an object keeps its keys in declaration order. */
  datatype Json = JNull | JInt(i: int) | JStr(s: string) | JObject(members: seq<(string, Json)>)

  /** `ProfileSerializer.Meta.fields`. */
  const ProfileKeys: seq<string> := ["age", "country", "city", "followers", "likes", "posts", "profile_pic", "hero_badge"]

  /** `UserSerializer.Meta.fields`. */
  const UserKeys: seq<string> := ["username", "first_name", "last_name", "profile"]

  function KeysOf(members: seq<(string, Json)>): (ks: seq<string>)
    ensures |ks| == |members| && forall i | 0 <= i < |members| :: ks[i] == members[i].0
  {
    if members == [] then [] else [members[0].0] + KeysOf(members[1..])
  }

  /** The value under the first occurrence of key `k`. */
  function Member(members: seq<(string, Json)>, k: string): Option<Json>
  {
    if members == [] then None
    else if members[0].0 == k then Some(members[0].1)
    else Member(members[1..], k)
  }

  /** A key found at position `i`, and at no earlier one, gives the value stored there. */
  lemma {:induction false} MemberAt(members: seq<(string, Json)>, k: string, i: nat)
    requires i < |members| && members[i].0 == k
    requires forall j | 0 <= j < i :: members[j].0 != k
    ensures Member(members, k) == Some(members[i].1)
  {
    if i > 0 {
      MemberAt(members[1..], k, i - 1);
    }
  }

  /** A nullable text column: its text, or null. */
  function TextJson(v: Option<string>): Json
  {
    if v.Some? then JStr(v.value) else JNull
  }

  /** An image column: the stored file's name, or null when there is none. */
  function ImageJson(v: Option<Image>): Json
  {
    if v.Some? then JStr(v.value.name) else JNull
  }

  function ReadText(j: Json): Option<Option<string>>
  {
    match j
    case JNull => Some(None)
    case JStr(s) => Some(Some(s))
    case _ => None
  }

  function ReadImage(j: Json): Option<Option<Image>>
  {
    match j
    case JNull => Some(None)
    case JStr(s) => Some(Some(Image(s)))
    case _ => None
  }

  function ReadInt(j: Json): Option<int>
  {
    if j.JInt? then Some(j.i) else None
  }

  /** `ProfileSerializer(profile).data`. */
  function ProfileRepresentation(row: ProfileRow): (j: Json)
    ensures j.JObject? && KeysOf(j.members) == ProfileKeys
  {
    var members := [
      ("age", JInt(row.age)), ("country", TextJson(row.country)), ("city", TextJson(row.city)),
      ("followers", JInt(row.followers)), ("likes", JInt(row.likes)), ("posts", JInt(row.posts)),
      ("profile_pic", ImageJson(row.profilePic)), ("hero_badge", ImageJson(row.heroBadge))];
    assert KeysOf(members) == ProfileKeys;
    JObject(members)
  }

  /** The eight columns a profile representation exposes. */
  function Exposed(row: ProfileRow): Columns
  {
    Columns(row.profilePic, row.heroBadge, Some(row.age), row.city, row.country,
            Some(row.followers), Some(row.likes), Some(row.posts))
  }

  /** What a client reads back from a profile representation. */
  function ReadProfile(j: Json): Option<Columns>
  {
    if !j.JObject? then None
    else
      var ms := j.members;
      var pic, badge := Member(ms, "profile_pic"), Member(ms, "hero_badge");
      var age, city, country := Member(ms, "age"), Member(ms, "city"), Member(ms, "country");
      var followers, likes, posts := Member(ms, "followers"), Member(ms, "likes"), Member(ms, "posts");
      if pic.None? || badge.None? || age.None? || city.None? || country.None? ||
         followers.None? || likes.None? || posts.None? then None
      else
        var p, b, a := ReadImage(pic.value), ReadImage(badge.value), ReadInt(age.value);
        var c, n := ReadText(city.value), ReadText(country.value);
        var f, l, o := ReadInt(followers.value), ReadInt(likes.value), ReadInt(posts.value);
        if p.None? || b.None? || a.None? || c.None? || n.None? || f.None? || l.None? || o.None? then None
        else Some(Columns(p.value, b.value, Some(a.value), c.value, n.value, Some(f.value), Some(l.value), Some(o.value)))
  }

  /** The first four keys of a profile representation hold their columns. */
  lemma ProfileMembersFirst(row: ProfileRow)
    ensures var ms := ProfileRepresentation(row).members;
      Member(ms, "age") == Some(JInt(row.age)) && Member(ms, "country") == Some(TextJson(row.country)) &&
      Member(ms, "city") == Some(TextJson(row.city)) && Member(ms, "followers") == Some(JInt(row.followers))
  {
    var ms := ProfileRepresentation(row).members;
    MemberAt(ms, "age", 0);
    MemberAt(ms, "country", 1);
    MemberAt(ms, "city", 2);
    MemberAt(ms, "followers", 3);
  }

  /** The last four keys of a profile representation hold their columns. */
  lemma ProfileMembersLast(row: ProfileRow)
    ensures var ms := ProfileRepresentation(row).members;
      Member(ms, "likes") == Some(JInt(row.likes)) && Member(ms, "posts") == Some(JInt(row.posts)) &&
      Member(ms, "profile_pic") == Some(ImageJson(row.profilePic)) && Member(ms, "hero_badge") == Some(ImageJson(row.heroBadge))
  {
    var ms := ProfileRepresentation(row).members;
    MemberAt(ms, "likes", 4);
    MemberAt(ms, "posts", 5);
    MemberAt(ms, "profile_pic", 6);
    MemberAt(ms, "hero_badge", 7);
  }

  /** A client reads back exactly the eight exposed columns of the row. */
  lemma ProfileRepresentationReadsBack(row: ProfileRow)
    ensures ReadProfile(ProfileRepresentation(row)) == Some(Exposed(row))
  {
    ProfileMembersFirst(row);
    ProfileMembersLast(row);
  }

  /**
    The representation does not depend on the owning user, `is_verified` or
    either timestamp: rows that differ only there look the same.
   */
  lemma ProfileRepresentationHidesRest(row: ProfileRow, user: UserId, verified: bool, created: Instant, modified: Instant)
    ensures ProfileRepresentation(row) ==
      ProfileRepresentation(row.(user := user, isVerified := verified, createdAt := created, modifiedAt := modified))
  {
  }

  /**
    `UserSerializer(user).data`: username and names, then the user's profile,
    or null when the user has none.
   */
  function UserRepresentation(db: Db, u: UserId): (j: Json)
    requires Consistent(db) && u in db.users
    ensures j.JObject? && KeysOf(j.members) == UserKeys
  {
    var row := db.users[u];
    var profile := match ProfileOf(db, u)
      case Some(p) => ProfileRepresentation(db.profiles[p])
      case None => JNull;
    var members := [("username", JStr(row.username)), ("first_name", JStr(row.firstName)),
                    ("last_name", JStr(row.lastName)), ("profile", profile)];
    assert KeysOf(members) == UserKeys;
    JObject(members)
  }

  /**
    The user representation shows the stored names, and under "profile" the
    representation of the user's own profile, or null exactly when there is
    none.
   */
  lemma UserRepresentationShowsProfile(db: Db, u: UserId)
    requires Consistent(db) && u in db.users
    ensures var ms := UserRepresentation(db, u).members;
      Member(ms, "username") == Some(JStr(db.users[u].username)) &&
      Member(ms, "first_name") == Some(JStr(db.users[u].firstName)) &&
      Member(ms, "last_name") == Some(JStr(db.users[u].lastName)) &&
      (Member(ms, "profile") == Some(JNull) <==> !HasProfile(db, u)) &&
      (forall p | p in db.profiles && db.profiles[p].user == u ::
        Member(ms, "profile") == Some(ProfileRepresentation(db.profiles[p])))
  {
    var ms := UserRepresentation(db, u).members;
    MemberAt(ms, "username", 0);
    MemberAt(ms, "first_name", 1);
    MemberAt(ms, "last_name", 2);
    MemberAt(ms, "profile", 3);
    if HasProfile(db, u) {
      assert ProfileRepresentation(db.profiles[ProfileOf(db, u).value]).JObject?;
    }
  }

  /** Neither the e-mail address nor the password hash shows in the user representation. */
  lemma UserRepresentationHidesCredentials(db: Db, u: UserId, email: string, password: string)
    requires Consistent(db) && u in db.users && |email| <= EmailLimit && |password| <= HashLimit
    ensures var changed := db.(users := db.users[u := db.users[u].(email := email, password := password)]);
      Consistent(changed) && UserRepresentation(db, u) == UserRepresentation(changed, u)
  {
    var changed := db.(users := db.users[u := db.users[u].(email := email, password := password)]);
    assert Consistent(changed) by {
      assert forall v | v in changed.users :: changed.users[v].username == db.users[v].username;
    }
    ProfileOfFollowsProfiles(db, changed, u);
  }

  // ---------------------------------------------------------------- writes

  /** The writable fields of a `UserSerializer` payload, and the nested profile it may also carry. */
  datatype UserWrite = UserWrite(username: Option<string>, firstName: Option<string>, lastName: Option<string>, profile: Option<Json>)

  /** The state after a write through the user serializer, and what it returned: the user, or the field errors. */
  datatype Update = Update(db: Db, result: Result<UserId, Errors>)

  /**
    A `CharField` the `ModelSerializer` derives from a user column of length
    150: an absent value is not checked; a given one is stripped, and a blank
    result is refused unless the column may be blank, in which case nothing
    else is checked; otherwise the length and the field's other validators
    apply.
   */
  function ColumnViolations(v: Option<string>, allowBlank: bool, extra: string -> set<Violation>): set<Violation>
  {
    match v
    case None => {}
    case Some(s) =>
      var t := Trim(s);
      if t == [] then (if allowBlank then {} else {Blank})
      else (if |t| > NameLimit then {MaxLength(NameLimit)} else {}) + extra(t)
  }

  /** The `UniqueValidator` on `username`, which leaves out the user being written. */
  function TakenByOther(db: Db, u: UserId): string -> set<Violation>
  {
    t => if exists v | v in db.users && v != u :: db.users[v].username == t then {NotUnique} else {}
  }

  /** The problems of a write, under the field names. */
  function UserWriteErrors(db: Db, u: UserId, w: UserWrite): (errs: Errors)
    ensures errs.Keys <= {"username", "first_name", "last_name"}
    ensures var un := ColumnViolations(w.username, false, TakenByOther(db, u));
      ("username" in errs <==> un != {}) && ("username" in errs ==> errs["username"] == un)
    ensures var fn := ColumnViolations(w.firstName, true, NoExtra);
      ("first_name" in errs <==> fn != {}) && ("first_name" in errs ==> errs["first_name"] == fn)
    ensures var ln := ColumnViolations(w.lastName, true, NoExtra);
      ("last_name" in errs <==> ln != {}) && ("last_name" in errs ==> errs["last_name"] == ln)
  {
    var un := ColumnViolations(w.username, false, TakenByOther(db, u));
    var fn := ColumnViolations(w.firstName, true, NoExtra);
    var ln := ColumnViolations(w.lastName, true, NoExtra);
    (if un == {} then map[] else map["username" := un]) +
    (if fn == {} then map[] else map["first_name" := fn]) +
    (if ln == {} then map[] else map["last_name" := ln])
  }

  /** The value a write stores for a column: the stripped value when one is given, else the stored one. */
  function Written(v: Option<string>, was: string): string
  {
    if v.Some? then Trim(v.value) else was
  }

  /**
    `UserSerializer(user, data=w, partial=True).save()`: the given names are
    stripped and checked, and when every check passes written to the user
    row; the nested profile is read-only and dropped from the payload.
   */
  function UpdateUser(db: Db, u: UserId, w: UserWrite): (r: Update)
    requires u in db.users
    ensures r.db.profiles == db.profiles && r.db.users.Keys == db.users.Keys
    ensures r.result.Failure? <==> UserWriteErrors(db, u, w) != map[]
    ensures r.result.Failure? ==> r.db == db && r.result.error == UserWriteErrors(db, u, w)
    ensures r.result.Success? ==>
      r.result.value == u && r.db.users == db.users[u := r.db.users[u]] &&
      r.db.users[u].email == db.users[u].email && r.db.users[u].password == db.users[u].password
  {
    var errs := UserWriteErrors(db, u, w);
    if errs != map[] then Update(db, Failure(errs))
    else
      var was := db.users[u];
      var row := was.(username := Written(w.username, was.username),
                      firstName := Written(w.firstName, was.firstName),
                      lastName := Written(w.lastName, was.lastName));
      Update(db.(users := db.users[u := row]), Success(u))
  }

  /**
    A write that passes its checks stores stripped names within the column
    length, and a username no other user holds; the e-mail and password stay
    as they were.
   */
  lemma {:induction false} UpdateUserStoresCheckedNames(db: Db, u: UserId, w: UserWrite)
    requires u in db.users
    requires UpdateUser(db, u, w).result.Success?
    ensures var row := UpdateUser(db, u, w).db.users[u];
      (w.username.Some? ==> row.username == Trim(w.username.value) && row.username != [] && |row.username| <= NameLimit) &&
      (w.firstName.Some? ==> row.firstName == Trim(w.firstName.value) && |row.firstName| <= NameLimit) &&
      (w.lastName.Some? ==> row.lastName == Trim(w.lastName.value) && |row.lastName| <= NameLimit) &&
      (w.username.None? ==> row.username == db.users[u].username) &&
      (w.firstName.None? ==> row.firstName == db.users[u].firstName) &&
      (w.lastName.None? ==> row.lastName == db.users[u].lastName) &&
      row.email == db.users[u].email && row.password == db.users[u].password &&
      (forall v | v in db.users && v != u :: db.users[v].username != row.username || w.username.None?)
  {
    var un := ColumnViolations(w.username, false, TakenByOther(db, u));
    var fn := ColumnViolations(w.firstName, true, NoExtra);
    var ln := ColumnViolations(w.lastName, true, NoExtra);
    assert un == {} && fn == {} && ln == {};
  }

  /** The nested profile of a write is dropped: the write does the same whatever it carries there. */
  lemma UpdateUserIgnoresProfile(db: Db, u: UserId, w: UserWrite, nested: Option<Json>)
    requires u in db.users
    ensures UpdateUser(db, u, w) == UpdateUser(db, u, w.(profile := nested))
  {
    assert UserWriteErrors(db, u, w) == UserWriteErrors(db, u, w.(profile := nested));
  }

  /**
    Writing through the user serializer never touches a profile; it changes
    at most the names of that one user, keeps the store consistent, and
    leaves the e-mail and password as they were.
   */
  lemma {:induction false} UpdateUserLeavesProfile(db: Db, u: UserId, w: UserWrite)
    requires Consistent(db) && u in db.users
    ensures var r := UpdateUser(db, u, w);
      Consistent(r.db) && r.db.profiles == db.profiles && r.db.users.Keys == db.users.Keys &&
      r.db.users[u].email == db.users[u].email && r.db.users[u].password == db.users[u].password &&
      (forall v | v in db.users && v != u :: r.db.users[v] == db.users[v])
  {
    var r := UpdateUser(db, u, w);
    if r.result.Success? {
      UpdateUserStoresCheckedNames(db, u, w);
      var row := r.db.users[u];
      assert UserFits(row);
      assert r.db.users == db.users[u := row];
    }
  }
}
