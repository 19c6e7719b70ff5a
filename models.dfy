/**
  The two tables the signup workflow writes: Django's auth user table and the
  `Profile` table of users/models.py, with the constraints the database holds
  them to, the way `save()` stamps a profile's timestamps, the cascade from a
  deleted user to its profile, the default listing order and `__str__`.
 */
module Models {
  import opened Wrappers
  import opened Text

  type UserId = nat
  type ProfileId = nat

  /** A reading of `timezone.now()`: microseconds since the Unix epoch. */
  type Instant = nat

  /** A stored image file, known only by its name in file storage. */
  datatype Image = Image(name: string)

  /** The columns of an auth user row that the signup workflow writes. `password` holds the hash, never the plaintext. */
  datatype UserRow = UserRow(username: string, email: string, password: string, firstName: string, lastName: string)

  /** A stored `Profile` row. The integer columns are NOT NULL; images, city and country may be NULL. */
  datatype ProfileRow = ProfileRow(
    user: UserId,
    profilePic: Option<Image>, heroBadge: Option<Image>,
    age: int, city: Option<string>, country: Option<string>,
    followers: int, likes: int, posts: int,
    isVerified: bool,
    createdAt: Instant, modifiedAt: Instant)

  /** Why the database, or `create_user` in front of it, refused a write. */
  datatype StoreError =
    | UsernameNotSet
    | NotNull(column: string)
    | TooLong(column: string)
    | OutOfRange(column: string)
    | ForeignKey(column: string)
    | Unique(column: string)

  /**
    The contents of both tables, and the next key each table's sequence hands
    out. A refused insert leaves the sequence where it was, where PostgreSQL
    and MySQL would have used up a value; keys are opaque, so only their
    numbering differs.
   */
  datatype Db = Db(users: map<UserId, UserRow>, profiles: map<ProfileId, ProfileRow>, nextUser: nat, nextProfile: nat)

  /** The state after a write, and what the write returned. */
  datatype Written<T> = Written(db: Db, result: Result<T, StoreError>)

  /** `max_length` of the `city` and `country` columns. */
  const PlaceLimit: nat := 100
  /** `max_length` of the user table's `username`, `first_name` and `last_name`. */
  const NameLimit: nat := 150
  /** `max_length` of the user table's `email`. */
  const EmailLimit: nat := 254
  /** `max_length` of the user table's `password`, which holds the hash. */
  const HashLimit: nat := 128
  /** The range of an `IntegerField` column: a 32-bit `integer` on PostgreSQL and MySQL. */
  const IntMin: int := -0x8000_0000
  const IntMax: int := 0x7fff_ffff

  predicate FitsColumn(v: Option<string>)
  {
    v.None? || |v.value| <= PlaceLimit
  }

  predicate FitsInt(n: int)
  {
    IntMin <= n <= IntMax
  }

  predicate FitsIntColumn(v: Option<int>)
  {
    v.None? || FitsInt(v.value)
  }

  /** The first column of a user row, in declaration order, too long for the table. */
  function TooLongColumn(row: UserRow): (c: Option<string>)
    ensures c.None? <==>
      |row.password| <= HashLimit && |row.username| <= NameLimit && |row.firstName| <= NameLimit &&
      |row.lastName| <= NameLimit && |row.email| <= EmailLimit
  {
    if |row.password| > HashLimit then Some("password")
    else if |row.username| > NameLimit then Some("username")
    else if |row.firstName| > NameLimit then Some("first_name")
    else if |row.lastName| > NameLimit then Some("last_name")
    else if |row.email| > EmailLimit then Some("email")
    else None
  }

  /** A user row every column of which fits the table. */
  predicate UserFits(row: UserRow)
  {
    TooLongColumn(row).None?
  }

  /** A profile row every column of which fits the table. */
  predicate ProfileFits(row: ProfileRow)
  {
    FitsInt(row.age) && FitsColumn(row.city) && FitsColumn(row.country) &&
    FitsInt(row.followers) && FitsInt(row.likes) && FitsInt(row.posts)
  }

  /** The invariant every committed state satisfies. */
  predicate Consistent(db: Db)
  {
    0 < db.nextUser && 0 < db.nextProfile &&
    (forall u | u in db.users :: 0 < u < db.nextUser) &&
    (forall p | p in db.profiles :: 0 < p < db.nextProfile) &&
    // username is a unique column of the user table
    (forall u, v | u in db.users && v in db.users && db.users[u].username == db.users[v].username :: u == v) &&
    (forall u | u in db.users :: UserFits(db.users[u])) &&
    // every profile belongs to a stored user ...
    (forall p | p in db.profiles :: db.profiles[p].user in db.users) &&
    // ... and to no other profile's user (OneToOneField)
    (forall p, q | p in db.profiles && q in db.profiles && db.profiles[p].user == db.profiles[q].user :: p == q) &&
    (forall p | p in db.profiles :: ProfileFits(db.profiles[p]))
  }

  /** An empty database; both sequences start at 1. */
  function EmptyDb(): (db: Db)
    ensures Consistent(db) && db.users == map[] && db.profiles == map[]
  {
    Db(map[], map[], 1, 1)
  }

  predicate HasProfile(db: Db, u: UserId)
  {
    exists p | p in db.profiles :: db.profiles[p].user == u
  }

  /** `user.profile`, the reverse side of the one-to-one link. */
  function ProfileOf(db: Db, u: UserId): (r: Option<ProfileId>)
    requires Consistent(db)
    ensures r.Some? <==> HasProfile(db, u)
    ensures r.Some? ==> r.value in db.profiles && db.profiles[r.value].user == u
    ensures forall p | p in db.profiles && db.profiles[p].user == u :: r == Some(p)
  {
    if HasProfile(db, u) then
      var p :| p in db.profiles && db.profiles[p].user == u; Some(p)
    else None
  }

  /** Which profile a user has depends on the profile table alone. */
  lemma ProfileOfFollowsProfiles(db: Db, other: Db, u: UserId)
    requires Consistent(db) && Consistent(other) && db.profiles == other.profiles
    ensures ProfileOf(db, u) == ProfileOf(other, u)
  {
  }

  predicate UsernameTaken(db: Db, name: string)
  {
    exists u | u in db.users :: db.users[u].username == name
  }

  // ---------------------------------------------------------------- users

  /**
    What `create_user` applies to the values it is given before it builds the
    row, and the model does not look into: `normalize_username` (Unicode NFKC)
    and `normalize_email` (the part after the last '@' lower-cased).
   */
  datatype Normalizer = Normalizer(username: string -> string, email: string -> string)

  /** The row `create_user` builds: the username and address normalised, the password only as its hash. */
  function NewUserRow(username: string, email: string, password: string, firstName: string, lastName: string,
                      hash: string -> string, n: Normalizer): (row: UserRow)
    ensures row.username == n.username(username) && row.email == n.email(email) && row.password == hash(password)
    ensures row.firstName == firstName && row.lastName == lastName
  {
    UserRow(n.username(username), n.email(email), hash(password), firstName, lastName)
  }

  /**
    `User.objects.create_user(...)` for the row it built: refuses an empty
    username, then the database refuses a column too long for the table or a
    username already taken; otherwise the row goes in under the next key.
    (`create_user` tests the username before normalising it; NFKC never empties
    a non-empty string, so testing the normalised one is the same.)
   */
  function InsertUser(db: Db, row: UserRow): (w: Written<UserId>)
    ensures w.db.profiles == db.profiles
    ensures w.result.Failure? ==> w.db == db
    ensures w.result.Success? ==> w.result.value == db.nextUser && w.db.users.Keys == db.users.Keys + {db.nextUser}
  {
    if row.username == [] then Written(db, Failure(UsernameNotSet))
    else if TooLongColumn(row).Some? then Written(db, Failure(TooLong(TooLongColumn(row).value)))
    else if UsernameTaken(db, row.username) then Written(db, Failure(Unique("username")))
    else Written(db.(users := db.users[db.nextUser := row], nextUser := db.nextUser + 1), Success(db.nextUser))
  }

  lemma InsertUserKeepsConsistent(db: Db, row: UserRow)
    requires Consistent(db)
    ensures Consistent(InsertUser(db, row).db)
    ensures InsertUser(db, row).result.Success? <==> row.username != [] && UserFits(row) && !UsernameTaken(db, row.username)
    ensures var w := InsertUser(db, row);
      w.result.Success? ==>
        w.result.value !in db.users && w.db.profiles == db.profiles &&
        w.db.users == db.users[w.result.value := row] && !HasProfile(w.db, w.result.value)
  {
  }

  /**
    Deleting a user: `on_delete=CASCADE` removes the profile that points to it
    in the same statement.
   */
  function Deleted(db: Db, u: UserId): (r: Db)
    ensures r.users.Keys == db.users.Keys - {u} && r.profiles.Keys <= db.profiles.Keys
    ensures forall p | p in r.profiles :: r.profiles[p].user != u
  {
    db.(users := db.users - {u},
        profiles := map p | p in db.profiles && db.profiles[p].user != u :: db.profiles[p])
  }

  lemma DeleteUserCascades(db: Db, u: UserId)
    requires Consistent(db)
    ensures var r := Deleted(db, u);
      Consistent(r) && u !in r.users && !HasProfile(r, u) &&
      (forall v | v in db.users && v != u :: v in r.users && r.users[v] == db.users[v]) &&
      (forall p | p in db.profiles :: p in r.profiles <==> db.profiles[p].user != u) &&
      (forall p | p in r.profiles :: r.profiles[p] == db.profiles[p])
  {
  }

  // ---------------------------------------------------------------- profiles

  /** The attribute values of an in-memory `Profile` instance. `pk` is set once the row exists. */
  datatype ProfileDraft = ProfileDraft(
    user: UserId,
    profilePic: Option<Image>, heroBadge: Option<Image>,
    age: Option<int>, city: Option<string>, country: Option<string>,
    followers: Option<int>, likes: Option<int>, posts: Option<int>,
    isVerified: bool,
    createdAt: Option<Instant>, modifiedAt: Option<Instant>,
    pk: Option<ProfileId>)

  /** The eight data columns a caller fills in after `Profile(user=...)`. */
  datatype Columns = Columns(
    profilePic: Option<Image>, heroBadge: Option<Image>,
    age: Option<int>, city: Option<string>, country: Option<string>,
    followers: Option<int>, likes: Option<int>, posts: Option<int>)

  /** `Profile(user=u)`: `is_verified` takes its default, false; nothing else is set. */
  function NewDraft(u: UserId): ProfileDraft
  {
    ProfileDraft(u, None, None, None, None, None, None, None, None, false, None, None, None)
  }

  function Fill(d: ProfileDraft, c: Columns): ProfileDraft
  {
    d.(profilePic := c.profilePic, heroBadge := c.heroBadge, age := c.age, city := c.city,
       country := c.country, followers := c.followers, likes := c.likes, posts := c.posts)
  }

  /** Whether `save()` takes the INSERT path: no key yet, or a key whose row is gone. */
  predicate Adding(db: Db, d: ProfileDraft)
  {
    d.pk.None? || d.pk.value !in db.profiles
  }

  /**
    The instance once `save()` has run each field's `pre_save`: `created_at`
    (`auto_now`) takes the time of every save; `modified_at` (`auto_now_add`)
    takes it only on the INSERT path.
   */
  function Stamp(db: Db, d: ProfileDraft, now: Instant): (s: ProfileDraft)
    ensures s.createdAt == Some(now)
    ensures s.modifiedAt == if Adding(db, d) then Some(now) else d.modifiedAt
    ensures s.(createdAt := d.createdAt, modifiedAt := d.modifiedAt) == d
  {
    d.(createdAt := Some(now), modifiedAt := if Adding(db, d) then Some(now) else d.modifiedAt)
  }

  /**
    The first constraint the stamped instance `s` breaks, if any: a value that
    does not fit its column (in column order), then a missing value, then the
    link to the user.
   */
  function SaveError(db: Db, s: ProfileDraft): (e: Option<StoreError>)
    ensures e.None? ==>
      s.age.Some? && s.followers.Some? && s.likes.Some? && s.posts.Some? &&
      s.createdAt.Some? && s.modifiedAt.Some? && s.user in db.users
    ensures e.None? ==> ProfileFits(RowOf(s))
    ensures e.None? ==> forall q | q in db.profiles && db.profiles[q].user == s.user :: s.pk == Some(q)
    ensures s.age.Some? && s.followers.Some? && s.likes.Some? && s.posts.Some? &&
            s.createdAt.Some? && s.modifiedAt.Some? && s.user in db.users && ProfileFits(RowOf(s)) &&
            (forall q | q in db.profiles && db.profiles[q].user == s.user :: s.pk == Some(q))
            ==> e.None?
  {
    if !FitsIntColumn(s.age) then Some(OutOfRange("age"))
    else if !FitsColumn(s.city) then Some(TooLong("city"))
    else if !FitsColumn(s.country) then Some(TooLong("country"))
    else if !FitsIntColumn(s.followers) then Some(OutOfRange("followers"))
    else if !FitsIntColumn(s.likes) then Some(OutOfRange("likes"))
    else if !FitsIntColumn(s.posts) then Some(OutOfRange("posts"))
    else if s.age.None? then Some(NotNull("age"))
    else if s.followers.None? then Some(NotNull("followers"))
    else if s.likes.None? then Some(NotNull("likes"))
    else if s.posts.None? then Some(NotNull("posts"))
    else if s.createdAt.None? then Some(NotNull("created_at"))
    else if s.modifiedAt.None? then Some(NotNull("modified_at"))
    else if s.user !in db.users then Some(ForeignKey("user_id"))
    else if exists q | q in db.profiles :: db.profiles[q].user == s.user && s.pk != Some(q) then Some(Unique("user_id"))
    else None
  }

  function RowOf(s: ProfileDraft): ProfileRow
    requires s.age.Some? && s.followers.Some? && s.likes.Some? && s.posts.Some?
    requires s.createdAt.Some? && s.modifiedAt.Some?
  {
    ProfileRow(s.user, s.profilePic, s.heroBadge, s.age.value, s.city, s.country,
               s.followers.value, s.likes.value, s.posts.value, s.isVerified,
               s.createdAt.value, s.modifiedAt.value)
  }

  /**
    The SQL statement `save()` issues for the stamped instance `s`: an UPDATE
    of its row, or an INSERT (under a fresh key when it has none), unless a
    constraint refuses it.
   */
  function WriteRow(db: Db, s: ProfileDraft): (w: Written<ProfileId>)
    ensures w.db.users == db.users && w.db.nextUser == db.nextUser
    ensures w.result.Failure? <==> SaveError(db, s).Some?
    ensures w.result.Failure? ==> w.db == db
  {
    match SaveError(db, s)
    case Some(e) => Written(db, Failure(e))
    case None =>
      var id := if s.pk.Some? then s.pk.value else db.nextProfile;
      Written(db.(profiles := db.profiles[id := RowOf(s)],
                  nextProfile := if s.pk.Some? then db.nextProfile else db.nextProfile + 1),
              Success(id))
  }

  /** Storing a row under a key no other profile of its user holds, for a stored user, keeps the invariant. */
  lemma PutProfileKeepsConsistent(db: Db, id: ProfileId, row: ProfileRow, next: nat)
    requires Consistent(db) && 0 < id < next && db.nextProfile <= next
    requires row.user in db.users && ProfileFits(row)
    requires forall q | q in db.profiles && q != id :: db.profiles[q].user != row.user
    ensures Consistent(db.(profiles := db.profiles[id := row], nextProfile := next))
  {
  }

  lemma WriteRowKeepsConsistent(db: Db, s: ProfileDraft)
    requires Consistent(db) && KeyIssued(db, s)
    ensures var w := WriteRow(db, s);
      Consistent(w.db) && w.db.users == db.users &&
      (w.result.Success? ==> w.result.value in w.db.profiles && KeyIssued(w.db, s.(pk := Some(w.result.value)))) &&
      (w.result.Failure? ==> w.db == db)
  {
    if SaveError(db, s).None? {
      var id := if s.pk.Some? then s.pk.value else db.nextProfile;
      var next := if s.pk.Some? then db.nextProfile else db.nextProfile + 1;
      assert forall q | q in db.profiles && q != id :: db.profiles[q].user != s.user;
      PutProfileKeepsConsistent(db, id, RowOf(s), next);
    }
  }

  /** `profile.save()` at time `now`: `pre_save` stamps the instance, then its row is written. */
  function Saved(db: Db, d: ProfileDraft, now: Instant): (w: Written<ProfileId>)
    ensures w.db.users == db.users
    ensures w.result.Failure? ==> w.db == db
  {
    WriteRow(db, Stamp(db, d, now))
  }

  /** The instance after `save()`: stamped even when the database refuses the row; `pk` set only on success. */
  function AfterSave(db: Db, d: ProfileDraft, now: Instant): (a: ProfileDraft)
    ensures a.createdAt == Some(now)
    ensures a.modifiedAt == if Adding(db, d) then Some(now) else d.modifiedAt
    ensures a.(createdAt := d.createdAt, modifiedAt := d.modifiedAt, pk := d.pk) == d
    ensures Saved(db, d, now).result.Success? ==> a.pk == Some(Saved(db, d, now).result.value)
    ensures Saved(db, d, now).result.Failure? ==> a.pk == d.pk
  {
    var w := Saved(db, d, now);
    Stamp(db, d, now).(pk := if w.result.Success? then Some(w.result.value) else d.pk)
  }

  /** The keys a `Profile` instance can carry: none, or one the table handed out. */
  predicate KeyIssued(db: Db, d: ProfileDraft)
  {
    d.pk.Some? ==> 0 < d.pk.value < db.nextProfile
  }

  lemma SaveKeepsConsistent(db: Db, d: ProfileDraft, now: Instant)
    requires Consistent(db) && KeyIssued(db, d)
    ensures var w := Saved(db, d, now);
      Consistent(w.db) && w.db.users == db.users &&
      (w.result.Success? ==> w.result.value in w.db.profiles && KeyIssued(w.db, AfterSave(db, d, now))) &&
      (w.result.Failure? ==> w.db == db)
  {
    WriteRowKeepsConsistent(db, Stamp(db, d, now));
  }

  /**
    What a successful save stores: the instance's data columns, linked to its
    user, with `created_at` equal to the time of this save and `modified_at`
    equal to it only when the row is new. Every other row stays as it was.
   */
  lemma SaveStoresInstance(db: Db, d: ProfileDraft, now: Instant)
    requires Consistent(db) && KeyIssued(db, d)
    requires Saved(db, d, now).result.Success?
    ensures var w := Saved(db, d, now); var id := w.result.value; var row := w.db.profiles[id];
      row.user == d.user && d.user in db.users &&
      row.profilePic == d.profilePic && row.heroBadge == d.heroBadge &&
      Some(row.age) == d.age && row.city == d.city && row.country == d.country &&
      Some(row.followers) == d.followers && Some(row.likes) == d.likes && Some(row.posts) == d.posts &&
      row.isVerified == d.isVerified &&
      row.createdAt == now &&
      (Adding(db, d) ==> row.modifiedAt == now) &&
      (!Adding(db, d) ==> Some(row.modifiedAt) == d.modifiedAt) &&
      (d.pk.None? ==> id !in db.profiles) &&
      (forall p | p in db.profiles && p != id :: p in w.db.profiles && w.db.profiles[p] == db.profiles[p])
  {
  }

  /** A profile whose `is_verified` was never assigned is stored unverified. */
  lemma DefaultIsUnverified(db: Db, u: UserId, c: Columns, now: Instant)
    requires Consistent(db)
    requires Saved(db, Fill(NewDraft(u), c), now).result.Success?
    ensures var w := Saved(db, Fill(NewDraft(u), c), now); !w.db.profiles[w.result.value].isVerified
  {
  }

  /**
    Saving the same instance again, after changing any of its data columns,
    moves `created_at` to the new time while `modified_at` keeps the time of
    the first insertion.
   */
  lemma ResaveKeepsInsertionTime(db: Db, d: ProfileDraft, now: Instant, c: Columns, verified: bool, later: Instant)
    requires Consistent(db) && KeyIssued(db, d)
    requires Saved(db, d, now).result.Success?
    ensures var w1 := Saved(db, d, now);
      var d2 := Fill(AfterSave(db, d, now), c).(isVerified := verified);
      var w2 := Saved(w1.db, d2, later);
      w2.result.Success? ==>
        w2.result == w1.result &&
        w2.db.profiles[w1.result.value].createdAt == later &&
        w2.db.profiles[w1.result.value].modifiedAt == w1.db.profiles[w1.result.value].modifiedAt
  {
    SaveKeepsConsistent(db, d, now);
    var w1 := Saved(db, d, now);
    var d2 := Fill(AfterSave(db, d, now), c).(isVerified := verified);
    assert !Adding(w1.db, d2);
    SaveStoresInstance(db, d, now);
  }

  // ---------------------------------------------------------------- presentation

  /** `User.get_full_name()`: first and last name joined by a space, then stripped. */
  function FullName(u: UserRow): (r: string)
    ensures StrippedFrom(r, u.firstName + " " + u.lastName)
    ensures |r| <= |u.firstName| + 1 + |u.lastName|
  {
    TrimIsStripped(u.firstName + " " + u.lastName);
    Trim(u.firstName + " " + u.lastName)
  }

  /** `Profile.__str__`: the full name of the user the profile belongs to. */
  function ProfileStr(db: Db, p: ProfileId): (r: string)
    requires Consistent(db) && p in db.profiles
    ensures var u := db.users[db.profiles[p].user]; r == FullName(u) && StrippedFrom(r, u.firstName + " " + u.lastName)
    ensures var u := db.users[db.profiles[p].user]; |r| <= |u.firstName| + 1 + |u.lastName|
  {
    FullName(db.users[db.profiles[p].user])
  }

  /** For names already free of surrounding whitespace, the string form is exactly "first last". */
  lemma {:induction false} ProfileStrOfStrippedNames(db: Db, p: ProfileId)
    requires Consistent(db) && p in db.profiles
    requires var u := db.users[db.profiles[p].user]; u.firstName != [] && u.lastName != [] && Stripped(u.firstName) && Stripped(u.lastName)
    ensures var u := db.users[db.profiles[p].user]; ProfileStr(db, p) == u.firstName + " " + u.lastName
  {
    var u := db.users[db.profiles[p].user];
    var s := u.firstName + " " + u.lastName;
    assert s[0] == u.firstName[0];
    assert s[|s| - 1] == u.lastName[|u.lastName| - 1];
    TrimStrippedIsIdentity(s);
  }

  /** `Meta.ordering = ['created_at']`: each key's row was created no later than the next key's. */
  predicate OrderedByCreation(profiles: map<ProfileId, ProfileRow>, ids: seq<ProfileId>)
  {
    (forall i | 0 <= i < |ids| :: ids[i] in profiles) &&
    (forall i | 0 <= i < |ids| - 1 :: profiles[ids[i]].createdAt <= profiles[ids[i + 1]].createdAt)
  }

  /** In a listing ordered by creation, every key comes no later than every key after it. */
  lemma {:induction false} OrderedByCreationIsTotal(profiles: map<ProfileId, ProfileRow>, ids: seq<ProfileId>)
    requires OrderedByCreation(profiles, ids)
    ensures forall i, j | 0 <= i < j < |ids| :: profiles[ids[i]].createdAt <= profiles[ids[j]].createdAt
  {
    if |ids| > 1 {
      var tail := ids[1..];
      OrderedTail(profiles, ids);
      OrderedByCreationIsTotal(profiles, tail);
      forall i, j | 0 <= i < j < |ids| ensures profiles[ids[i]].createdAt <= profiles[ids[j]].createdAt {
        if i > 0 {
          assert ids[i] == tail[i - 1] && ids[j] == tail[j - 1];
        } else if j > 1 {
          assert ids[1] == tail[0] && ids[j] == tail[j - 1];
        }
      }
    }
  }

  /** Places `id` after every key whose row was created no later than its own. */
  function InsertByCreation(profiles: map<ProfileId, ProfileRow>, ids: seq<ProfileId>, id: ProfileId): (r: seq<ProfileId>)
    requires id in profiles && OrderedByCreation(profiles, ids)
    ensures OrderedByCreation(profiles, r)
    ensures multiset(r) == multiset(ids) + multiset{id}
    ensures |r| == |ids| + 1 && (r[0] == id || (ids != [] && r[0] == ids[0]))
  {
    if ids == [] then [id]
    else if profiles[id].createdAt < profiles[ids[0]].createdAt then
      PrependKeepsOrder(profiles, id, ids);
      [id] + ids
    else
      OrderedTail(profiles, ids);
      var rest := InsertByCreation(profiles, ids[1..], id);
      assert ids == [ids[0]] + ids[1..];
      PrependKeepsOrder(profiles, ids[0], rest);
      [ids[0]] + rest
  }

  /** A key created no later than the first of an ordered listing can go in front of it. */
  lemma PrependKeepsOrder(profiles: map<ProfileId, ProfileRow>, id: ProfileId, ids: seq<ProfileId>)
    requires id in profiles && OrderedByCreation(profiles, ids)
    requires ids != [] ==> profiles[id].createdAt <= profiles[ids[0]].createdAt
    ensures OrderedByCreation(profiles, [id] + ids)
  {
    var r := [id] + ids;
    assert forall i | 1 <= i < |r| :: r[i] == ids[i - 1];
  }

  lemma OrderedTail(profiles: map<ProfileId, ProfileRow>, ids: seq<ProfileId>)
    requires ids != [] && OrderedByCreation(profiles, ids)
    ensures OrderedByCreation(profiles, ids[1..])
  {
    var tail := ids[1..];
    assert forall i | 0 <= i < |tail| :: tail[i] == ids[i + 1];
  }

  // ---------------------------------------------------------------- the store

  /** A `Profile` instance in memory, whose attributes callers assign one by one before `save()`. */
  class Profile {
    var user: UserId
    var profilePic: Option<Image>
    var heroBadge: Option<Image>
    var age: Option<int>
    var city: Option<string>
    var country: Option<string>
    var followers: Option<int>
    var likes: Option<int>
    var posts: Option<int>
    var isVerified: bool
    var createdAt: Option<Instant>
    var modifiedAt: Option<Instant>
    var pk: Option<ProfileId>

    function Draft(): ProfileDraft
      reads this
    {
      ProfileDraft(user, profilePic, heroBadge, age, city, country, followers, likes, posts,
                   isVerified, createdAt, modifiedAt, pk)
    }

    /** `Profile(user=u)`. */
    constructor (u: UserId)
      ensures Draft() == NewDraft(u)
    {
      user := u;
      profilePic, heroBadge := None, None;
      age, city, country := None, None, None;
      followers, likes, posts := None, None, None;
      isVerified := false;
      createdAt, modifiedAt, pk := None, None, None;
    }
  }

  /** The user and profile tables, updated in place. */
  class Store {
    var users: map<UserId, UserRow>
    var profiles: map<ProfileId, ProfileRow>
    var nextUser: nat
    var nextProfile: nat

    function State(): Db
      reads this
    {
      Db(users, profiles, nextUser, nextProfile)
    }

    predicate Valid()
      reads this
    {
      Consistent(State())
    }

    constructor ()
      ensures Valid() && State() == EmptyDb()
    {
      users, profiles := map[], map[];
      nextUser, nextProfile := 1, 1;
    }

    /** `User.objects.create_user(...)` for the row it built (see `NewUserRow`). */
    method CreateUser(row: UserRow) returns (r: Result<UserId, StoreError>)
      requires Valid()
      modifies this
      ensures Valid()
      ensures State() == InsertUser(old(State()), row).db && r == InsertUser(old(State()), row).result
    {
      InsertUserKeepsConsistent(State(), row);
      if row.username == [] {
        return Failure(UsernameNotSet);
      }
      var tooLong := TooLongColumn(row);
      if tooLong.Some? {
        return Failure(TooLong(tooLong.value));
      }
      if UsernameTaken(State(), row.username) {
        return Failure(Unique("username"));
      }
      r := Success(nextUser);
      users := users[nextUser := row];
      nextUser := nextUser + 1;
    }

    /** `user.delete()`, cascading to the user's profile. */
    method DeleteUser(u: UserId)
      requires Valid()
      modifies this
      ensures Valid() && State() == Deleted(old(State()), u)
    {
      DeleteUserCascades(State(), u);
      users := users - {u};
      profiles := map p | p in profiles && profiles[p].user != u :: profiles[p];
    }

    /** The `pre_save` pass of `save()`: `created_at` always, `modified_at` only when inserting. */
    method PreSave(p: Profile, now: Instant)
      modifies p
      ensures p.Draft() == Stamp(State(), old(p.Draft()), now)
    {
      var adding := p.pk.None? || p.pk.value !in profiles;
      p.createdAt := Some(now);
      if adding {
        p.modifiedAt := Some(now);
      }
    }

    /** The INSERT or UPDATE for a stamped instance. */
    method Write(s: ProfileDraft) returns (r: Result<ProfileId, StoreError>)
      requires Valid() && KeyIssued(State(), s)
      modifies this
      ensures Valid()
      ensures State() == WriteRow(old(State()), s).db && r == WriteRow(old(State()), s).result
    {
      WriteRowKeepsConsistent(State(), s);
      var e := SaveError(State(), s);
      if e.Some? {
        return Failure(e.value);
      }
      var id := if s.pk.Some? then s.pk.value else nextProfile;
      profiles := profiles[id := RowOf(s)];
      if s.pk.None? {
        nextProfile := nextProfile + 1;
      }
      r := Success(id);
    }

    /** `profile.save()` at time `now`. */
    method Save(p: Profile, now: Instant) returns (r: Result<ProfileId, StoreError>)
      requires Valid() && KeyIssued(State(), p.Draft())
      modifies this, p
      ensures Valid()
      ensures State() == Saved(old(State()), old(p.Draft()), now).db
      ensures r == Saved(old(State()), old(p.Draft()), now).result
      ensures p.Draft() == AfterSave(old(State()), old(p.Draft()), now)
      ensures KeyIssued(State(), p.Draft())
    {
      PreSave(p, now);
      r := Write(p.Draft());
      if r.Success? {
        p.pk := Some(r.value);
      }
    }

    /** `Profile.objects.all()`: every profile key once, in ascending `created_at` order. */
    method Listing() returns (ids: seq<ProfileId>)
      ensures OrderedByCreation(profiles, ids)
      ensures forall i, j | 0 <= i < j < |ids| :: profiles[ids[i]].createdAt <= profiles[ids[j]].createdAt
      ensures forall p :: p in profiles <==> p in ids
      ensures forall p | p in multiset(ids) :: multiset(ids)[p] == 1
    {
      ids := [];
      var rest := profiles.Keys;
      while rest != {}
        invariant rest <= profiles.Keys
        invariant OrderedByCreation(profiles, ids)
        invariant forall p :: p in profiles <==> p in rest || p in ids
        invariant forall p | p in rest :: p !in ids
        invariant forall p | p in multiset(ids) :: multiset(ids)[p] == 1
        decreases |rest|
      {
        var p :| p in rest;
        ghost var before := ids;
        ids := InsertByCreation(profiles, ids, p);
        assert forall q :: q in ids <==> q in multiset(ids);
        assert forall q :: q in ids <==> q in before || q == p;
        rest := rest - {p};
      }
      OrderedByCreationIsTotal(profiles, ids);
    }
  }
}
