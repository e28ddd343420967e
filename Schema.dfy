/** The tables of the museum database and the rules its database context
    declares over them (Backend/MuseumAPI/Context/MuseumContext.cs): primary
    keys, unique indexes, column defaults, foreign keys and what deleting a
    user does to the rows that refer to it. Each table is a sequence of rows
    in insertion order; the declarations become predicates over the tables
    (`Wellformed`) and the transitions that the database performs. */
module Schema {
  import opened Common

  /** Every key column is a C# `long`. */
  type Id = int

  /** DateTime columns, as instants on an integer clock. */
  type Timestamp = int

  datatype AccessLevel = Unconfirmed | Regular | Admin

  datatype User = User(id: Id, name: string, password: string, accessLevel: AccessLevel)

  /** A profile has no key of its own: its key is the id of its user. */
  datatype UserProfile = UserProfile(userId: Id, pagePreference: int)

  datatype ConfirmationCode = ConfirmationCode(id: Id, code: string, userId: Option<Id>)

  datatype Artist = Artist(
    id: Id,
    firstName: Option<string>,
    lastName: Option<string>,
    birthDate: Option<Timestamp>,
    birthPlace: Option<string>,
    education: Option<string>,
    movement: Option<string>,
    userId: Option<Id>)

  /** Height is a `double` that no operation of the model computes with;
      it is carried as an exact real. */
  datatype Painting = Painting(
    id: Id,
    title: Option<string>,
    creationYear: int,
    height: real,
    subject: Option<string>,
    medium: Option<string>,
    description: Option<string>,
    artistId: Id,
    userId: Option<Id>)

  datatype Museum = Museum(
    id: Id,
    name: Option<string>,
    address: Option<string>,
    foundationDate: Option<Timestamp>,
    architect: Option<string>,
    website: Option<string>,
    userId: Option<Id>)

  /** The join row of the many-to-many relation between artists and museums. */
  datatype Exhibition = Exhibition(
    artistId: Id,
    museumId: Id,
    startDate: Timestamp,
    endDate: Timestamp,
    userId: Option<Id>)

  datatype Database = Database(
    users: seq<User>,
    profiles: seq<UserProfile>,
    codes: seq<ConfirmationCode>,
    artists: seq<Artist>,
    paintings: seq<Painting>,
    museums: seq<Museum>,
    exhibitions: seq<Exhibition>)

  datatype DbError = NoSuchRow | DuplicateKey | ForeignKeyViolation

  // ---------------------------------------------------------------------
  // Keys and unique indexes
  // ---------------------------------------------------------------------

  function UserKey(u: User): Id { u.id }
  function UserName(u: User): string { u.name }
  function ProfileKey(p: UserProfile): Id { p.userId }
  function CodeKey(c: ConfirmationCode): Id { c.id }
  function CodeValue(c: ConfirmationCode): string { c.code }
  function ArtistKey(a: Artist): Id { a.id }
  function PaintingKey(p: Painting): Id { p.id }
  function MuseumKey(m: Museum): Id { m.id }
  /** Exhibitions are keyed by the pair (ArtistId, MuseumId). */
  function ExhibitionKey(e: Exhibition): (Id, Id) { (e.artistId, e.museumId) }

  function UserIds(users: seq<User>): set<Id> { set u | u in users :: u.id }
  function ProfileIds(profiles: seq<UserProfile>): set<Id> { set p | p in profiles :: p.userId }
  function ArtistIds(artists: seq<Artist>): set<Id> { set a | a in artists :: a.id }
  function MuseumIds(museums: seq<Museum>): set<Id> { set m | m in museums :: m.id }
  function PaintingIds(paintings: seq<Painting>): set<Id> { set p | p in paintings :: p.id }
  function ExhibitionKeys(exhibitions: seq<Exhibition>): set<(Id, Id)> {
    set e | e in exhibitions :: (e.artistId, e.museumId)
  }

  /** The id the database hands out to the next row of a table whose ids
      are `ids`: one more than the largest, and 1 for an empty table. */
  function NextId(ids: seq<Id>): (r: Id)
    ensures r >= 1
    ensures forall i :: 0 <= i < |ids| ==> ids[i] < r
  {
    if ids == [] then 1
    else
      var rest := NextId(ids[1..]);
      if ids[0] < rest then rest else ids[0] + 1
  }

  /** Primary keys of every table, with the profile keyed by its user. */
  predicate KeysUnique(db: Database) {
    && UniqueBy(db.users, UserKey)
    && UniqueBy(db.profiles, ProfileKey)
    && UniqueBy(db.codes, CodeKey)
    && UniqueBy(db.artists, ArtistKey)
    && UniqueBy(db.paintings, PaintingKey)
    && UniqueBy(db.museums, MuseumKey)
    && UniqueBy(db.exhibitions, ExhibitionKey)
  }

  /** The two unique indexes: user names and confirmation codes. */
  predicate IndexesUnique(db: Database) {
    UniqueBy(db.users, UserName) && UniqueBy(db.codes, CodeValue)
  }

  /** Required foreign keys: a profile belongs to a user, an exhibition joins
      an artist and a museum, a painting is by an artist. */
  predicate ReferencesResolve(db: Database) {
    && (forall p :: p in db.profiles ==> p.userId in UserIds(db.users))
    && (forall e :: e in db.exhibitions ==>
          e.artistId in ArtistIds(db.artists) && e.museumId in MuseumIds(db.museums))
    && (forall p :: p in db.paintings ==> p.artistId in ArtistIds(db.artists))
  }

  predicate OwnerResolves(owner: Option<Id>, users: seq<User>) {
    owner.Some? ==> owner.value in UserIds(users)
  }

  /** Optional owner references: a row is owned by an existing user or by nobody. */
  predicate OwnersResolve(db: Database) {
    && (forall c :: c in db.codes ==> OwnerResolves(c.userId, db.users))
    && (forall a :: a in db.artists ==> OwnerResolves(a.userId, db.users))
    && (forall p :: p in db.paintings ==> OwnerResolves(p.userId, db.users))
    && (forall m :: m in db.museums ==> OwnerResolves(m.userId, db.users))
    && (forall e :: e in db.exhibitions ==> OwnerResolves(e.userId, db.users))
  }

  predicate Wellformed(db: Database) {
    KeysUnique(db) && IndexesUnique(db) && ReferencesResolve(db) && OwnersResolve(db)
  }

  /** With the profile keyed by its user, a user has at most one profile. */
  lemma AtMostOneProfile(db: Database, p: UserProfile, q: UserProfile)
    requires KeysUnique(db)
    requires p in db.profiles && q in db.profiles && p.userId == q.userId
    ensures p == q
  {
    var i :| 0 <= i < |db.profiles| && db.profiles[i] == p;
    var j :| 0 <= j < |db.profiles| && db.profiles[j] == q;
    assert i == j;
  }

  // ---------------------------------------------------------------------
  // Inserts that the declarations constrain
  // ---------------------------------------------------------------------

  /** HasDefaultValue(5) on UserProfile.PagePreference. */
  const DefaultPagePreference: int := 5

  /** Inserting a profile for `userId`; a missing PagePreference takes the
      column default. The key is the user's id, so a second profile for the
      same user is refused, and so is a profile of no user. */
  function InsertProfile(db: Database, userId: Id, pagePreference: Option<int>): (r: Result<Database, DbError>)
    ensures r.Err? <==> userId !in UserIds(db.users) || userId in ProfileIds(db.profiles)
    ensures r.Ok? ==> |r.value.profiles| == |db.profiles| + 1 && r.value.profiles[..|db.profiles|] == db.profiles
  {
    if userId !in UserIds(db.users) then Err(ForeignKeyViolation)
    else if userId in ProfileIds(db.profiles) then Err(DuplicateKey)
    else Ok(db.(profiles := db.profiles + [UserProfile(userId, pagePreference.GetOr(DefaultPagePreference))]))
  }

  /** A profile inserted without a page preference stores 5, and the insert
      keeps every rule of the context. */
  lemma InsertProfileKeepsWellformed(db: Database, userId: Id, pagePreference: Option<int>)
    requires Wellformed(db)
    requires InsertProfile(db, userId, pagePreference).Ok?
    ensures var db' := InsertProfile(db, userId, pagePreference).value;
      && Wellformed(db')
      && UserProfile(userId, pagePreference.GetOr(5)) in db'.profiles
      && (pagePreference.None? ==> UserProfile(userId, 5) in db'.profiles)
  {
    var db' := InsertProfile(db, userId, pagePreference).value;
    var ps := db'.profiles;
    forall i, j | 0 <= i < j < |ps| ensures ProfileKey(ps[i]) != ProfileKey(ps[j]) {
      if j == |ps| - 1 {
        assert ps[i] in db.profiles;
      } else {
        assert ps[i] == db.profiles[i] && ps[j] == db.profiles[j];
      }
    }
  }

  /** Inserting an exhibition of `artistId` at `museumId`. StartDate and
      EndDate default to the insertion instant `now` (CURRENT_TIMESTAMP).
      The composite key refuses a second exhibition for the same pair, and
      both ends of the join must exist. */
  function InsertExhibition(db: Database, artistId: Id, museumId: Id,
                            startDate: Option<Timestamp>, endDate: Option<Timestamp>,
                            userId: Option<Id>, now: Timestamp): (r: Result<Database, DbError>)
    ensures r == Err(DuplicateKey) <==> (artistId, museumId) in ExhibitionKeys(db.exhibitions)
    ensures r.Ok? <==>
      && (artistId, museumId) !in ExhibitionKeys(db.exhibitions)
      && artistId in ArtistIds(db.artists) && museumId in MuseumIds(db.museums)
      && OwnerResolves(userId, db.users)
  {
    if (artistId, museumId) in ExhibitionKeys(db.exhibitions) then Err(DuplicateKey)
    else if artistId !in ArtistIds(db.artists) || museumId !in MuseumIds(db.museums)
         || !OwnerResolves(userId, db.users) then Err(ForeignKeyViolation)
    else
      var e := Exhibition(artistId, museumId, startDate.GetOr(now), endDate.GetOr(now), userId);
      Ok(db.(exhibitions := db.exhibitions + [e]))
  }

  /** An inserted exhibition keeps every rule, its missing dates are the
      insertion instant, and inserting the same pair again is refused. */
  lemma {:induction false} InsertExhibitionOnce(db: Database, artistId: Id, museumId: Id,
                                                startDate: Option<Timestamp>, endDate: Option<Timestamp>,
                                                userId: Option<Id>, now: Timestamp,
                                                startDate': Option<Timestamp>, endDate': Option<Timestamp>,
                                                userId': Option<Id>, now': Timestamp)
    requires Wellformed(db)
    requires InsertExhibition(db, artistId, museumId, startDate, endDate, userId, now).Ok?
    ensures var db' := InsertExhibition(db, artistId, museumId, startDate, endDate, userId, now).value;
      && Wellformed(db')
      && db'.exhibitions[|db.exhibitions|] ==
           Exhibition(artistId, museumId, startDate.GetOr(now), endDate.GetOr(now), userId)
      && InsertExhibition(db', artistId, museumId, startDate', endDate', userId', now') == Err(DuplicateKey)
  {
    var db' := InsertExhibition(db, artistId, museumId, startDate, endDate, userId, now).value;
    var es := db'.exhibitions;
    var e := es[|es| - 1];
    assert (artistId, museumId) == ExhibitionKey(e);
    forall i, j | 0 <= i < j < |es| ensures ExhibitionKey(es[i]) != ExhibitionKey(es[j]) {
      if j == |es| - 1 {
        assert es[i] in db.exhibitions;
      } else {
        assert es[i] == db.exhibitions[i] && es[j] == db.exhibitions[j];
      }
    }
    assert e in es;
  }

  // ---------------------------------------------------------------------
  // Deleting a user
  // ---------------------------------------------------------------------

  /** ClientSetNull: a reference to the deleted user becomes null. */
  function ClearOwner(owner: Option<Id>, uid: Id): Option<Id> {
    if owner == Some(uid) then None else owner
  }

  /** Deleting user `uid`. Every owner reference to it (confirmation codes,
      artists, paintings, museums, exhibitions) is set to null and the rows
      stay. The profile's reference is its key and cannot be set to null, so
      a user that still has a profile cannot be deleted. */
  function DeleteUser(db: Database, uid: Id): (r: Result<Database, DbError>)
    ensures r.Ok? <==> uid in UserIds(db.users) && uid !in ProfileIds(db.profiles)
    ensures r.Ok? ==> uid !in UserIds(r.value.users) && r.value.profiles == db.profiles
  {
    if uid !in UserIds(db.users) then Err(NoSuchRow)
    else if uid in ProfileIds(db.profiles) then Err(ForeignKeyViolation)
    else Ok(Database(
      Where(db.users, (u: User) => u.id != uid),
      db.profiles,
      Select(db.codes, (c: ConfirmationCode) => c.(userId := ClearOwner(c.userId, uid))),
      Select(db.artists, (a: Artist) => a.(userId := ClearOwner(a.userId, uid))),
      Select(db.paintings, (p: Painting) => p.(userId := ClearOwner(p.userId, uid))),
      Select(db.museums, (m: Museum) => m.(userId := ClearOwner(m.userId, uid))),
      Select(db.exhibitions, (e: Exhibition) => e.(userId := ClearOwner(e.userId, uid)))))
  }

  /** Deleting a user removes exactly that user; no row is deleted from the
      other tables, each row keeps every column but its owner, and the owner
      is cleared exactly where it was the deleted user. */
  lemma DeleteUserSetsNull(db: Database, uid: Id)
    requires DeleteUser(db, uid).Ok?
    ensures var db' := DeleteUser(db, uid).value;
      && (forall u :: u in db'.users <==> u in db.users && u.id != uid)
      && |db'.codes| == |db.codes| && |db'.artists| == |db.artists|
      && |db'.paintings| == |db.paintings| && |db'.museums| == |db.museums|
      && |db'.exhibitions| == |db.exhibitions|
      && (forall i :: 0 <= i < |db.artists| ==>
            db'.artists[i] == db.artists[i].(userId := db'.artists[i].userId)
            && db'.artists[i].userId == (if db.artists[i].userId == Some(uid) then None else db.artists[i].userId))
      && (forall i :: 0 <= i < |db.paintings| ==>
            db'.paintings[i] == db.paintings[i].(userId := db'.paintings[i].userId)
            && db'.paintings[i].userId == (if db.paintings[i].userId == Some(uid) then None else db.paintings[i].userId))
      && (forall i :: 0 <= i < |db.museums| ==>
            db'.museums[i] == db.museums[i].(userId := db'.museums[i].userId)
            && db'.museums[i].userId == (if db.museums[i].userId == Some(uid) then None else db.museums[i].userId))
      && (forall i :: 0 <= i < |db.exhibitions| ==>
            db'.exhibitions[i] == db.exhibitions[i].(userId := db'.exhibitions[i].userId)
            && db'.exhibitions[i].userId == (if db.exhibitions[i].userId == Some(uid) then None else db.exhibitions[i].userId))
      && (forall i :: 0 <= i < |db.codes| ==>
            db'.codes[i] == db.codes[i].(userId := db'.codes[i].userId)
            && db'.codes[i].userId == (if db.codes[i].userId == Some(uid) then None else db.codes[i].userId))
  {
  }

  /** Deleting a user keeps every rule of the context: in particular no row
      is left owned by the deleted user. */
  lemma DeleteUserKeepsWellformed(db: Database, uid: Id)
    requires Wellformed(db)
    requires DeleteUser(db, uid).Ok?
    ensures Wellformed(DeleteUser(db, uid).value)
  {
    DeleteUserKeepsKeys(db, uid);
    DeleteUserKeepsReferences(db, uid);
    DeleteUserKeepsOwners(db, uid);
  }

  /** Deleting a user keeps every key and unique index. */
  lemma DeleteUserKeepsKeys(db: Database, uid: Id)
    requires KeysUnique(db) && IndexesUnique(db)
    requires DeleteUser(db, uid).Ok?
    ensures KeysUnique(DeleteUser(db, uid).value) && IndexesUnique(DeleteUser(db, uid).value)
  {
    WhereKeepsUnique(db.users, (u: User) => u.id != uid, UserKey);
    WhereKeepsUnique(db.users, (u: User) => u.id != uid, UserName);
    SelectKeepsKey(db.codes, (c: ConfirmationCode) => c.(userId := ClearOwner(c.userId, uid)), CodeKey);
    SelectKeepsKey(db.codes, (c: ConfirmationCode) => c.(userId := ClearOwner(c.userId, uid)), CodeValue);
    SelectKeepsKey(db.artists, (a: Artist) => a.(userId := ClearOwner(a.userId, uid)), ArtistKey);
    SelectKeepsKey(db.paintings, (p: Painting) => p.(userId := ClearOwner(p.userId, uid)), PaintingKey);
    SelectKeepsKey(db.museums, (m: Museum) => m.(userId := ClearOwner(m.userId, uid)), MuseumKey);
    SelectKeepsKey(db.exhibitions, (e: Exhibition) => e.(userId := ClearOwner(e.userId, uid)), ExhibitionKey);
  }

  /** Deleting a user keeps every required reference: the profiles, the
      paintings' artists and the exhibitions' artists and museums. */
  lemma DeleteUserKeepsReferences(db: Database, uid: Id)
    requires ReferencesResolve(db)
    requires DeleteUser(db, uid).Ok?
    ensures ReferencesResolve(DeleteUser(db, uid).value)
  {
    var db' := DeleteUser(db, uid).value;
    assert forall x :: x in UserIds(db.users) && x != uid ==> x in UserIds(db'.users) by {
      forall x | x in UserIds(db.users) && x != uid ensures x in UserIds(db'.users) {
        var u :| u in db.users && u.id == x;
        assert u in db'.users;
      }
    }
    assert ArtistIds(db'.artists) == ArtistIds(db.artists) by {
      SelectKeepsIds(db.artists, (a: Artist) => a.(userId := ClearOwner(a.userId, uid)), ArtistKey);
    }
    assert MuseumIds(db'.museums) == MuseumIds(db.museums) by {
      SelectKeepsIds(db.museums, (m: Museum) => m.(userId := ClearOwner(m.userId, uid)), MuseumKey);
    }
    forall e | e in db'.exhibitions
      ensures e.artistId in ArtistIds(db'.artists) && e.museumId in MuseumIds(db'.museums)
    {
      var i :| 0 <= i < |db'.exhibitions| && db'.exhibitions[i] == e;
      assert db.exhibitions[i] in db.exhibitions;
    }
    forall p | p in db'.paintings ensures p.artistId in ArtistIds(db'.artists) {
      var i :| 0 <= i < |db'.paintings| && db'.paintings[i] == p;
      assert db.paintings[i] in db.paintings;
    }
    forall p | p in db'.profiles ensures p.userId in UserIds(db'.users) {
      assert p.userId != uid;
    }
  }

  /** Deleting a user leaves every owner reference resolved: references to
      the deleted user are null, the others point at users that stay. */
  lemma DeleteUserKeepsOwners(db: Database, uid: Id)
    requires OwnersResolve(db)
    requires DeleteUser(db, uid).Ok?
    ensures OwnersResolve(DeleteUser(db, uid).value)
  {
    var db' := DeleteUser(db, uid).value;
    assert forall x :: x in UserIds(db.users) && x != uid ==> x in UserIds(db'.users) by {
      forall x | x in UserIds(db.users) && x != uid ensures x in UserIds(db'.users) {
        var u :| u in db.users && u.id == x;
        assert u in db'.users;
      }
    }
    forall e | e in db'.exhibitions ensures OwnerResolves(e.userId, db'.users) {
      var i :| 0 <= i < |db'.exhibitions| && db'.exhibitions[i] == e;
      assert db.exhibitions[i] in db.exhibitions;
    }
    forall p | p in db'.paintings ensures OwnerResolves(p.userId, db'.users) {
      var i :| 0 <= i < |db'.paintings| && db'.paintings[i] == p;
      assert db.paintings[i] in db.paintings;
    }
    forall c | c in db'.codes ensures OwnerResolves(c.userId, db'.users) {
      var i :| 0 <= i < |db'.codes| && db'.codes[i] == c;
      assert db.codes[i] in db.codes;
    }
    forall a | a in db'.artists ensures OwnerResolves(a.userId, db'.users) {
      var i :| 0 <= i < |db'.artists| && db'.artists[i] == a;
      assert db.artists[i] in db.artists;
    }
    forall m | m in db'.museums ensures OwnerResolves(m.userId, db'.users) {
      var i :| 0 <= i < |db'.museums| && db'.museums[i] == m;
      assert db.museums[i] in db.museums;
    }
  }

  /** A projection that leaves the key column alone keeps the key unique. */
  lemma SelectKeepsKey<T, K>(s: seq<T>, f: T -> T, key: T -> K)
    requires UniqueBy(s, key)
    requires forall x :: key(f(x)) == key(x)
    ensures UniqueBy(Select(s, f), key)
  {
  }

  /** ... and keeps the set of keys. */
  lemma SelectKeepsIds<T>(s: seq<T>, f: T -> T, key: T -> Id)
    requires forall x :: key(f(x)) == key(x)
    ensures (set x | x in Select(s, f) :: key(x)) == (set x | x in s :: key(x))
  {
    var r := Select(s, f);
    var before := set x | x in s :: key(x);
    var after := set x | x in r :: key(x);
    forall y | y in before ensures y in after {
      var x :| x in s && key(x) == y;
      var i :| 0 <= i < |s| && s[i] == x;
      assert r[i] in r;
    }
  }
}
