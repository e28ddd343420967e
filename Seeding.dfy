/** The seed-data generator (Backend/MuseumAPI/Utils/SeedData.cs): bulk
    inserts of fake users with their profiles, artists, paintings, museums
    and exhibitions.

    Randomness is a parameter. The calls `Random.Next(count)` a generator
    makes are read, in the order it makes them, from a stream
    `draw: nat -> nat`: the k-th call returns `draw(k) % count`. The records
    of the fake-data library are read from streams indexed the same way (one
    entry per candidate user name, one per generated record). The database
    numbers the rows of a bulk insert from the table's next free id. */
module Seeding {
  import opened Common
  import opened Schema

  /** How many redraws of a colliding candidate are made before giving up. */
  const StackOverflowLoops: int := 1_000_000

  /** The page preference stored in every seeded profile. */
  const SeededPagePreference: int := 5

  datatype SeedError =
    | UserNameNotFound  // no unique user name within the redraw budget
    | PairNotFound      // no unused (artist, museum) pair within the redraw budget
    | IndexOutOfRange   // a random index into an empty id list
    | NegativeCount     // the fake-data library asked for a negative number of records
    | SaveRejected      // saving rows whose owner is not a user

  /** `ids[new Random().Next(ids.Count)]` where the random source yields `d`.
      Next(0) returns 0, and indexing an empty list fails. */
  function PickId(ids: seq<Id>, d: nat): (r: Result<Id, SeedError>)
    ensures r.Ok? <==> |ids| > 0
    ensures r.Ok? ==> r.value in ids
    ensures r.Err? ==> r.error == IndexOutOfRange
  {
    if |ids| == 0 then Err(IndexOutOfRange) else Ok(ids[d % |ids|])
  }

  /** `userId ?? randomUserId()`: the owner every row of one run receives,
      fixed once when the generator is set up. */
  function RunOwner(db: Database, userId: Option<Id>, d: nat): (r: Result<Id, SeedError>)
    ensures r.Err? <==> userId.None? && |db.users| == 0
    ensures r.Ok? && userId.Some? ==> r.value == userId.value
    ensures r.Ok? && userId.None? ==> r.value in UserIds(db.users)
    ensures r.Err? ==> r.error == IndexOutOfRange
  {
    if userId.Some? then Ok(userId.value)
    else
      var r := PickId(Select(db.users, UserKey), d);
      if r.Ok? then
        var i :| 0 <= i < |db.users| && Select(db.users, UserKey)[i] == r.value;
        assert db.users[i] in db.users;
        r
      else r
  }

  /** The numbering the database gives a bulk insert: `count` consecutive
      ids starting at the table's next free id. */
  lemma AppendNumberedKeepsUnique<T>(s: seq<T>, t: seq<T>, key: T -> Id)
    requires UniqueBy(s, key)
    requires forall j :: 0 <= j < |t| ==> key(t[j]) == NextId(Select(s, key)) + j
    ensures UniqueBy(s + t, key)
    ensures forall x :: x in s ==> x in s + t
  {
    forall i, j | 0 <= i < |s| && 0 <= j < |t| ensures key(s[i]) != key(t[j]) {
      assert Select(s, key)[i] == key(s[i]);
    }
    AppendKeepsUnique(s, t, key);
  }

  // ---------------------------------------------------------------------
  // Users and their profiles
  // ---------------------------------------------------------------------

  /** What a successful run of SeedUsersAndProfilesAsync leaves behind:
      `count` users after the existing ones, numbered from the next free id,
      each with the given password and the Regular access level and a name
      that no other user has; then one profile for each of them, in the same
      order, with page preference 5. No other table changes. */
  predicate UsersSeeded(db: Database, db': Database, count: nat, password: string) {
    var k := |db.users|;
    var base := NextId(Select(db.users, UserKey));
    && |db'.users| == k + count
    && db'.users[..k] == db.users
    && (forall j :: k <= j < |db'.users| ==>
          && db'.users[j] == User(base + (j - k), db'.users[j].name, password, Regular)
          && db'.users[j].name !in Select(db.users, UserName))
    && (forall i, j :: k <= i < j < |db'.users| ==> db'.users[i].name != db'.users[j].name)
    && |db'.profiles| == |db.profiles| + count
    && db'.profiles[..|db.profiles|] == db.profiles
    && (forall j :: |db.profiles| <= j < |db'.profiles| ==>
          db'.profiles[j] == UserProfile(base + (j - |db.profiles|), SeededPagePreference))
    && db'.(users := db.users, profiles := db.profiles) == db
  }

  /** How a run of redraw loops ends: with the items it accepted and the
      next unread position of its stream; on an empty id list; or at the
      position `start` where one item's candidates ran out, with the items
      `accepted` before it. */
  datatype Run<T> =
    | Drawn(items: seq<T>, next: nat)
    | NoIds
    | Exhausted(accepted: seq<T>, start: nat)

  /** `run`, preceded by the items `done` accepted before it. */
  function After<T>(done: seq<T>, run: Run<T>): (r: Run<T>)
    ensures r.Drawn? <==> run.Drawn?
    ensures r.NoIds? <==> run.NoIds?
    ensures r.Drawn? ==> r.items == done + run.items && r.next == run.next
    ensures r.Exhausted? ==> r.accepted == done + run.accepted && r.start == run.start
  {
    match run
    case Drawn(items, next) => Drawn(done + items, next)
    case NoIds => NoIds
    case Exhausted(accepted, start) => Exhausted(done + accepted, start)
  }

  lemma AfterAfter<T>(a: seq<T>, b: seq<T>, run: Run<T>)
    ensures After(a, After(b, run)) == After(a + b, run)
  {
    assert a + (b + []) == (a + b) + [];
    if run.Drawn? {
      assert a + (b + run.items) == (a + b) + run.items;
    } else if run.Exhausted? {
      assert a + (b + run.accepted) == (a + b) + run.accepted;
    }
  }

  // The redraw loops of the generator (one per seeded user, one per seeded
  // exhibition) all follow one pattern: a candidate is read from a random
  // stream and redrawn while it is already used; after StackOverflowLoops + 1
  // redraws the loop gives up. Below, the stream is `cand`, indexed by the
  // candidate's position, and the run of several loops is stated once for
  // any type of item with equality.

  /** The StackOverflowLoops + 2 candidates from position `start` of the
      stream are all used: already `taken` before the run, or `accepted`
      earlier in it. Only then does one redraw loop give up. */
  ghost predicate WindowTaken<T>(cand: nat -> T, start: nat, taken: seq<T>, accepted: seq<T>) {
    forall k :: start <= k < start + StackOverflowLoops + 2 ==> cand(k) in taken || cand(k) in accepted
  }

  /** One redraw loop: the position of the first candidate from `k` up to
      `end` that is not in `used`, or None when they are all in `used`. A loop
      examines the StackOverflowLoops + 2 candidates from where it starts. */
  function FirstFree<T(==)>(cand: nat -> T, used: seq<T>, k: nat, end: nat): (r: Option<nat>)
    decreases end - k
    ensures r.Some? ==> k <= r.value < end && cand(r.value) !in used
  {
    if k >= end then None
    else if cand(k) !in used then Some(k)
    else FirstFree(cand, used, k + 1, end)
  }

  /** The position found is the first free one, and none is found exactly
      when every candidate up to `end` is used. */
  lemma {:induction false} FirstFreeIsFirst<T>(cand: nat -> T, used: seq<T>, k: nat, end: nat)
    decreases end - k
    ensures var r := FirstFree(cand, used, k, end);
      && (r.Some? ==> forall i :: k <= i < r.value ==> cand(i) in used)
      && (r.None? <==> forall i :: k <= i < end ==> cand(i) in used)
  {
    if k < end && cand(k) in used {
      FirstFreeIsFirst(cand, used, k + 1, end);
    }
  }

  /** A free candidate in the window, after used ones only, is the first free
      one. */
  lemma FirstFreeAt<T>(cand: nat -> T, used: seq<T>, k: nat, end: nat, p: nat)
    requires k <= p < end && cand(p) !in used
    requires forall l :: k <= l < p ==> cand(l) in used
    ensures FirstFree(cand, used, k, end) == Some(p)
  {
    FirstFreeIsFirst(cand, used, k, end);
  }

  /** The reference definition of a run of `n` redraw loops (none when `n` is
      not positive): each takes the first free candidate of its window, which
      then counts as used, and the next loop reads the stream from the
      position after it. */
  function RedrawRun<T(==)>(cand: nat -> T, used: seq<T>, n: int, d: nat): (r: Run<T>)
    decreases n
    ensures !r.NoIds?
    ensures r.Drawn? ==> |r.items| == (if n < 0 then 0 else n)
    ensures r.Exhausted? ==> |r.accepted| < n
  {
    if n <= 0 then Drawn([], d)
    else match FirstFree(cand, used, d, d + StackOverflowLoops + 2)
      case None => Exhausted([], d)
      case Some(p) => After([cand(p)], RedrawRun(cand, used + [cand(p)], n - 1, p + 1))
  }

  /** `whole` is a run that, after accepting `done`, goes on from `used` and
      position `d` with `m` loops still to go. */
  ghost predicate Resumes<T>(cand: nat -> T, whole: Run<T>, done: seq<T>, used: seq<T>, m: int, d: nat) {
    whole == After(done, RedrawRun(cand, used, m, d))
  }

  lemma ResumesAtStart<T>(cand: nat -> T, used: seq<T>, n: int, d: nat)
    ensures Resumes(cand, RedrawRun(cand, used, n, d), [], used, n, d)
  {
    var run := RedrawRun(cand, used, n, d);
    if run.Drawn? {
      assert [] + run.items == run.items;
    } else if run.Exhausted? {
      assert [] + run.accepted == run.accepted;
    }
  }

  /** A resumed run accepts one more free candidate. */
  lemma RunAdvance<T>(cand: nat -> T, whole: Run<T>, done: seq<T>, used: seq<T>, m: int, d: nat, p: nat)
    requires Resumes(cand, whole, done, used, m, d)
    requires m > 0 && FirstFree(cand, used, d, d + StackOverflowLoops + 2) == Some(p)
    ensures Resumes(cand, whole, done + [cand(p)], used + [cand(p)], m - 1, p + 1)
  {
    RedrawRunStep(cand, used, m, d, p);
    AfterAfter(done, [cand(p)], RedrawRun(cand, used + [cand(p)], m - 1, p + 1));
  }

  /** A resumed run stops when no free candidate is left in the window. */
  lemma RunStops<T>(cand: nat -> T, whole: Run<T>, done: seq<T>, used: seq<T>, m: int, d: nat)
    requires Resumes(cand, whole, done, used, m, d)
    requires m > 0 && FirstFree(cand, used, d, d + StackOverflowLoops + 2).None?
    ensures whole == Exhausted(done, d)
  {
  }

  /** A resumed run with no loop left to go has accepted exactly `done`. */
  lemma RunEnds<T>(cand: nat -> T, whole: Run<T>, done: seq<T>, used: seq<T>, m: int, d: nat)
    requires Resumes(cand, whole, done, used, m, d)
    requires m <= 0
    ensures whole == Drawn(done, d)
  {
    assert done + [] == done;
  }

  /** One step of a run: the first loop's free candidate, then the rest of
      the run. */
  lemma RedrawRunStep<T>(cand: nat -> T, used: seq<T>, n: int, d: nat, p: nat)
    requires n > 0 && FirstFree(cand, used, d, d + StackOverflowLoops + 2) == Some(p)
    ensures RedrawRun(cand, used, n, d) == After([cand(p)], RedrawRun(cand, used + [cand(p)], n - 1, p + 1))
  {
  }

  /** Items none of which is in `used`. */
  ghost predicate NoneIn<T>(items: seq<T>, used: seq<T>) {
    forall a :: 0 <= a < |items| ==> items[a] !in used
  }

  /** Items no two of which are equal. */
  ghost predicate Distinct<T>(items: seq<T>) {
    forall a, b :: 0 <= a < b < |items| ==> items[a] != items[b]
  }

  /** Accepting `x`, then items that avoid `used + [x]`, avoids `used` and
      repeats nothing when the later items repeat nothing. */
  lemma ConsKeepsFresh<T>(x: T, items: seq<T>, used: seq<T>)
    requires x !in used && NoneIn(items, used + [x])
    ensures NoneIn([x] + items, used)
    ensures Distinct(items) ==> Distinct([x] + items)
  {
    var all := [x] + items;
    forall a | 0 < a < |all| ensures all[a] !in used && all[a] != x {
      assert all[a] == items[a - 1];
      assert items[a - 1] !in used + [x];
    }
    if Distinct(items) {
      forall a, b | 0 <= a < b < |all| ensures all[a] != all[b] {
        if a > 0 {
          assert all[a] == items[a - 1] && all[b] == items[b - 1];
        }
      }
    }
  }

  /** A completed run accepts items that are neither used before it nor
      repeated. */
  lemma {:induction false} RedrawRunSound<T>(cand: nat -> T, used: seq<T>, n: int, d: nat)
    ensures var r := RedrawRun(cand, used, n, d);
      r.Drawn? ==> NoneIn(r.items, used) && Distinct(r.items)
    decreases n
  {
    var free := FirstFree(cand, used, d, d + StackOverflowLoops + 2);
    if n > 0 && free.Some? {
      var p := free.value;
      var x := cand(p);
      RedrawRunSound(cand, used + [x], n - 1, p + 1);
      RedrawRunStep(cand, used, n, d, p);
      var rest := RedrawRun(cand, used + [x], n - 1, p + 1);
      if rest.Drawn? {
        assert NoneIn(rest.items, used + [x]) && Distinct(rest.items);
        ConsKeepsFresh(x, rest.items, used);
        assert RedrawRun(cand, used, n, d).items == [x] + rest.items;
      }
    }
  }

  /** Moving an accepted item from the used ones to the accepted ones. */
  lemma ExhaustedShift<T>(cand: nat -> T, used: seq<T>, x: T, start: nat, accepted: seq<T>)
    requires WindowTaken(cand, start, used + [x], accepted)
    ensures WindowTaken(cand, start, used, [x] + accepted)
  {
    forall k | start <= k < start + StackOverflowLoops + 2
      ensures cand(k) in used || cand(k) in [x] + accepted
    {
      assert cand(k) in used + [x] || cand(k) in accepted;
    }
  }

  /** A run fails only where one loop's StackOverflowLoops + 2 candidates are
      all used, before the run or by the items accepted before that loop. */
  lemma {:induction false} RedrawRunExhausted<T>(cand: nat -> T, used: seq<T>, n: int, d: nat)
    ensures var r := RedrawRun(cand, used, n, d);
      r.Exhausted? ==> WindowTaken(cand, r.start, used, r.accepted)
    decreases n
  {
    var free := FirstFree(cand, used, d, d + StackOverflowLoops + 2);
    if n > 0 && free.Some? {
      var p := free.value;
      var x := cand(p);
      RedrawRunExhausted(cand, used + [x], n - 1, p + 1);
      RedrawRunStep(cand, used, n, d, p);
      var rest := RedrawRun(cand, used + [x], n - 1, p + 1);
      if rest.Exhausted? {
        ExhaustedShift(cand, used, x, rest.start, rest.accepted);
      }
    } else if n > 0 {
      FirstFreeIsFirst(cand, used, d, d + StackOverflowLoops + 2);
    }
  }

  /** Conversely, a loop whose candidates are all used ends the run there. */
  lemma RedrawRunFails<T>(cand: nat -> T, used: seq<T>, n: int, d: nat)
    ensures n > 0 && WindowTaken(cand, d, used, []) ==> RedrawRun(cand, used, n, d) == Exhausted([], d)
  {
    if n > 0 && WindowTaken(cand, d, used, []) {
      FirstFreeIsFirst(cand, used, d, d + StackOverflowLoops + 2);
    }
  }

  /** The `m` candidates from position `d` on are unused and pairwise
      distinct. */
  ghost predicate FreshFrom<T>(cand: nat -> T, used: seq<T>, d: nat, m: int) {
    && (forall k :: d <= k < d + m ==> cand(k) !in used)
    && (forall k, l :: d <= k < l < d + m ==> cand(k) != cand(l))
  }

  /** The first `m` candidates from `d` stay fresh once the first of them is
      used. */
  lemma FreshShift<T>(cand: nat -> T, used: seq<T>, d: nat, m: int)
    requires m > 0 && FreshFrom(cand, used, d, m)
    ensures FreshFrom(cand, used + [cand(d)], d + 1, m - 1)
  {
    forall k | d + 1 <= k < d + m ensures cand(k) !in used + [cand(d)] {
      assert cand(k) !in used && cand(d) != cand(k);
    }
  }

  /** `items` are the stream's candidates from position `d` on. */
  ghost predicate ReadFrom<T>(items: seq<T>, cand: nat -> T, d: nat) {
    forall k :: 0 <= k < |items| ==> items[k] == cand(d + k)
  }

  lemma ReadFromCons<T>(items: seq<T>, cand: nat -> T, d: nat)
    requires ReadFrom(items, cand, d + 1)
    ensures ReadFrom([cand(d)] + items, cand, d)
  {
    var all := [cand(d)] + items;
    forall k | 0 < k < |all| ensures all[k] == cand(d + k) {
      assert all[k] == items[k - 1];
    }
  }

  /** When the candidates the run reads first are fresh, nothing is redrawn:
      the run completes with exactly those candidates. */
  lemma {:induction false} RedrawRunFresh<T>(cand: nat -> T, used: seq<T>, d: nat, m: int)
    decreases m
    ensures FreshFrom(cand, used, d, m) ==>
      var r := RedrawRun(cand, used, m, d);
      r.Drawn? && ReadFrom(r.items, cand, d)
  {
    if m > 0 && FreshFrom(cand, used, d, m) {
      var x := cand(d);
      assert FirstFree(cand, used, d, d + StackOverflowLoops + 2) == Some(d);
      FreshShift(cand, used, d, m);
      RedrawRunFresh(cand, used + [x], d + 1, m - 1);
      RedrawRunStep(cand, used, m, d, d);
      ReadFromCons(RedrawRun(cand, used + [x], m - 1, d + 1).items, cand, d);
    }
  }

  /** One pass of the user loop of SeedUsersAndProfilesAsync: candidates are
      read from position `d` and redrawn while their name is in `userNames`;
      after 1 000 001 redraws the pass gives up. */
  method NextUser(userNames: seq<string>, password: string, fakeName: nat -> string, d: nat)
    returns (r: Option<User>, next: nat)
    ensures r.None? <==> FirstFree(fakeName, userNames, d, d + StackOverflowLoops + 2).None?
    ensures r.Some? ==>
      && next == FirstFree(fakeName, userNames, d, d + StackOverflowLoops + 2).value + 1
      && r.value == User(0, fakeName(next - 1), password, Regular)
      && r.value.name !in userNames
  {
    ghost var end := d + StackOverflowLoops + 2;
    FirstFreeIsFirst(fakeName, userNames, d, end);
    var user := User(0, fakeName(d), password, Regular);
    ghost var at := d;
    next := d + 1;
    var current := 0;
    while user.name in userNames
      invariant 0 <= current <= StackOverflowLoops + 1
      invariant user == User(0, fakeName(at), password, Regular)
      invariant at == d + current && next == at + 1
      invariant FirstFree(fakeName, userNames, d, end) == FirstFree(fakeName, userNames, at, end)
      decreases StackOverflowLoops + 1 - current
    {
      if current > StackOverflowLoops {
        assert FirstFree(fakeName, userNames, at + 1, end).None?;
        return None, next;
      }
      current := current + 1;
      user := User(0, fakeName(next), password, Regular);
      at := next;
      next := next + 1;
    }
    assert FirstFree(fakeName, userNames, d, end) == Some(at);
    r := Some(user);
  }

  /** The candidate loop of SeedUsersAndProfilesAsync: `n` users (none when
      `n` is negative) with the given password and the Regular access level,
      whose names are neither in `taken` nor repeated. A candidate whose name
      is in use is redrawn, and after 1 000 001 redraws for one user the run
      fails. The users are not numbered yet. */
  method DrawUsers(taken: seq<string>, n: int, password: string, fakeName: nat -> string)
    returns (r: Result<seq<User>, SeedError>)
    ensures r.Err? ==> r.error == UserNameNotFound
    ensures r.Ok? <==> RedrawRun(fakeName, taken, n, 0).Drawn?
    ensures r.Ok? ==> Select(r.value, UserName) == RedrawRun(fakeName, taken, n, 0).items
    ensures r.Ok? ==> |r.value| == (if n < 0 then 0 else n)
    ensures r.Ok? ==> forall a :: 0 <= a < |r.value| ==>
      r.value[a] == User(0, r.value[a].name, password, Regular) && r.value[a].name !in taken
    ensures r.Ok? ==> forall a, b :: 0 <= a < b < |r.value| ==> r.value[a].name != r.value[b].name
    ensures r.Err? ==>
      var run := RedrawRun(fakeName, taken, n, 0);
      && run.Exhausted? && |run.accepted| < n
      && WindowTaken(fakeName, run.start, taken, run.accepted)
    ensures FreshFrom(fakeName, taken, 0, n) ==> r.Ok?
  {
    var userNames := taken;
    var users: seq<User> := [];
    var d: nat := 0;
    ghost var whole := RedrawRun(fakeName, taken, n, 0);
    ResumesAtStart(fakeName, taken, n, 0);
    ghost var drawn: seq<string> := [];
    var i := 0;
    while i < n
      invariant 0 <= i && (n >= 0 ==> i <= n) && (n < 0 ==> i == 0)
      invariant |users| == |drawn| == i
      invariant forall a :: 0 <= a < i ==> users[a] == User(0, drawn[a], password, Regular)
      invariant Resumes(fakeName, whole, drawn, userNames, n - i, d)
    {
      var user, next := NextUser(userNames, password, fakeName, d);
      if user.None? {
        RunStops(fakeName, whole, drawn, userNames, n - i, d);
        RedrawRunExhausted(fakeName, taken, n, 0);
        RedrawRunFresh(fakeName, taken, 0, n);
        return Err(UserNameNotFound);
      }
      var name := user.value.name;
      RunAdvance(fakeName, whole, drawn, userNames, n - i, d, next - 1);
      users := users + [user.value];
      userNames := userNames + [name];
      drawn := drawn + [name];
      d := next;
      i := i + 1;
    }
    RunEnds(fakeName, whole, drawn, userNames, n - i, d);
    assert Select(users, UserName) == drawn;
    RedrawRunSound(fakeName, taken, n, 0);
    r := Ok(users);
  }

  /** The profile loop of SeedUsersAndProfilesAsync: one profile with page
      preference 5 for each user id, in order. */
  method ProfilesFor(userIds: seq<Id>) returns (profiles: seq<UserProfile>)
    ensures |profiles| == |userIds|
    ensures forall j :: 0 <= j < |userIds| ==> profiles[j] == UserProfile(userIds[j], SeededPagePreference)
  {
    profiles := [];
    var k := 0;
    while k < |userIds|
      invariant k <= |userIds| && |profiles| == k
      invariant forall j :: 0 <= j < k ==> profiles[j] == UserProfile(userIds[j], SeededPagePreference)
    {
      profiles := profiles + [UserProfile(userIds[k], SeededPagePreference)];
      k := k + 1;
    }
  }

  /** SeedUsersAndProfilesAsync: `n` users with fresh names, saved, then a
      profile for every user whose id was not there before. */
  method SeedUsersAndProfiles(db: Database, n: int, password: string, fakeName: nat -> string)
    returns (r: Result<Database, SeedError>)
    ensures r.Err? ==> r.error == UserNameNotFound
    ensures r.Ok? ==> UsersSeeded(db, r.value, if n < 0 then 0 else n, password)
    ensures r.Ok? <==> RedrawRun(fakeName, Select(db.users, UserName), n, 0).Drawn?
    ensures r.Ok? ==>
      Select(r.value.users[|db.users|..], UserName) == RedrawRun(fakeName, Select(db.users, UserName), n, 0).items
    ensures r.Err? ==>
      var run := RedrawRun(fakeName, Select(db.users, UserName), n, 0);
      && run.Exhausted? && |run.accepted| < n
      && WindowTaken(fakeName, run.start, Select(db.users, UserName), run.accepted)
    ensures FreshFrom(fakeName, Select(db.users, UserName), 0, n) ==> r.Ok?
  {
    var existingUserIds := Select(db.users, UserKey);
    var drawnUsers := DrawUsers(Select(db.users, UserName), n, password, fakeName);
    if drawnUsers.Err? {
      return Err(drawnUsers.error);
    }
    var users := drawnUsers.value;

    // AddRange and SaveChanges: the database numbers the new users.
    var saved := Numbered(users, NextId(existingUserIds));
    var allUsers := db.users + saved;

    var newUserIds := Select(Where(allUsers, (u: User) => u.id !in existingUserIds), UserKey);
    NewUsersAreTheSaved(db.users, saved, existingUserIds);
    var profiles := ProfilesFor(newUserIds);

    assert allUsers[|db.users|..] == saved;
    assert Select(saved, UserName) == Select(users, UserName);
    r := Ok(db.(users := allUsers, profiles := db.profiles + profiles));
    SavedUsersAreSeeded(db, users, password, profiles);
  }

  /** Rows numbered from `base` in insertion order, as a bulk insert saves them. */
  function Numbered(users: seq<User>, base: Id): (r: seq<User>)
    ensures |r| == |users|
    ensures forall j :: 0 <= j < |users| ==> r[j] == users[j].(id := base + j)
  {
    seq(|users|, j requires 0 <= j < |users| => users[j].(id := base + j))
  }

  /** Saving users drawn by DrawUsers, with a profile for each, is a seeding run. */
  lemma SavedUsersAreSeeded(db: Database, users: seq<User>, password: string, profiles: seq<UserProfile>)
    requires forall a :: 0 <= a < |users| ==>
      users[a] == User(0, users[a].name, password, Regular) && users[a].name !in Select(db.users, UserName)
    requires forall a, b :: 0 <= a < b < |users| ==> users[a].name != users[b].name
    requires |profiles| == |users|
    requires forall j :: 0 <= j < |users| ==>
      profiles[j] == UserProfile(NextId(Select(db.users, UserKey)) + j, SeededPagePreference)
    ensures UsersSeeded(db, db.(users := db.users + Numbered(users, NextId(Select(db.users, UserKey))),
                                profiles := db.profiles + profiles), |users|, password)
  {
    var db' := db.(users := db.users + Numbered(users, NextId(Select(db.users, UserKey))),
                   profiles := db.profiles + profiles);
    assert db'.users[..|db.users|] == db.users;
    assert db'.profiles[..|db.profiles|] == db.profiles;
  }

  /** The users that were not there before the insert are exactly the
      inserted ones, in insertion order. */
  lemma NewUsersAreTheSaved(old_: seq<User>, saved: seq<User>, existing: seq<Id>)
    requires existing == Select(old_, UserKey)
    requires forall j :: 0 <= j < |saved| ==> saved[j].id >= NextId(existing)
    ensures Where(old_ + saved, (u: User) => u.id !in existing) == saved
  {
    var isNew := (u: User) => u.id !in existing;
    WhereAppend(old_, saved, isNew);
    forall j | 0 <= j < |old_| ensures !isNew(old_[j]) {
      assert existing[j] == old_[j].id;
    }
    WhereNone(old_, isNew);
    WhereAll(saved, isNew);
  }

  /** The seeded users keep the user table's key and its unique name index,
      and every user that was there still is. */
  lemma SeededUsersUnique(db: Database, db': Database, count: nat, password: string)
    requires UniqueBy(db.users, UserKey) && UniqueBy(db.users, UserName)
    requires UsersSeeded(db, db', count, password)
    ensures UniqueBy(db'.users, UserKey) && UniqueBy(db'.users, UserName)
    ensures UserIds(db.users) <= UserIds(db'.users)
  {
    SeededUserKeysUnique(db, db', count, password);
    SeededUserNamesUnique(db, db', count, password);
  }

  /** The seeded users are numbered past every existing id. */
  lemma SeededUserKeysUnique(db: Database, db': Database, count: nat, password: string)
    requires UniqueBy(db.users, UserKey)
    requires UsersSeeded(db, db', count, password)
    ensures UniqueBy(db'.users, UserKey)
    ensures UserIds(db.users) <= UserIds(db'.users)
  {
    var k := |db.users|;
    var added := db'.users[k..];
    assert db'.users == db.users + added;
    forall j | 0 <= j < |added| ensures UserKey(added[j]) == NextId(Select(db.users, UserKey)) + j {
      assert added[j] == db'.users[k + j];
    }
    AppendNumberedKeepsUnique(db.users, added, UserKey);
    forall x | x in UserIds(db.users) ensures x in UserIds(db'.users) {
      var u :| u in db.users && u.id == x;
      assert u in db'.users;
    }
  }

  /** The seeded users' names are new and pairwise distinct. */
  lemma SeededUserNamesUnique(db: Database, db': Database, count: nat, password: string)
    requires UniqueBy(db.users, UserName)
    requires UsersSeeded(db, db', count, password)
    ensures UniqueBy(db'.users, UserName)
  {
    var k := |db.users|;
    var added := db'.users[k..];
    assert db'.users == db.users + added;
    forall j | 0 <= j < |added| ensures added[j].name !in Select(db.users, UserName) {
      assert added[j] == db'.users[k + j];
    }
    forall i, j | 0 <= i < j < |added| ensures added[i].name != added[j].name {
      assert added[i] == db'.users[k + i] && added[j] == db'.users[k + j];
    }
    NewNamesKeepUnique(db.users, added);
  }

  /** Appending users whose names are not taken and pairwise distinct keeps
      the unique name index. */
  lemma NewNamesKeepUnique(users: seq<User>, added: seq<User>)
    requires UniqueBy(users, UserName)
    requires forall j :: 0 <= j < |added| ==> added[j].name !in Select(users, UserName)
    requires forall i, j :: 0 <= i < j < |added| ==> added[i].name != added[j].name
    ensures UniqueBy(users + added, UserName)
  {
    forall i, j | 0 <= i < |users| && 0 <= j < |added|
      ensures UserName(users[i]) != UserName(added[j])
    {
      assert Select(users, UserName)[i] == users[i].name;
    }
    AppendKeepsUnique(users, added, UserName);
  }

  /** The seeded profiles keep the profile key: one profile per user. */
  lemma SeededProfilesUnique(db: Database, db': Database, count: nat, password: string)
    requires UniqueBy(db.profiles, ProfileKey)
    requires forall q :: q in db.profiles ==> q.userId in UserIds(db.users)
    requires UsersSeeded(db, db', count, password)
    ensures UniqueBy(db'.profiles, ProfileKey)
  {
    var k := |db.users|;
    var p := |db.profiles|;
    var base := NextId(Select(db.users, UserKey));
    var newProfiles := db'.profiles[p..];
    assert db'.profiles == db.profiles + newProfiles;
    forall j | 0 <= j < |newProfiles| ensures newProfiles[j].userId == base + j {
      assert newProfiles[j] == db'.profiles[p + j];
    }
    forall i, j | 0 <= i < p && 0 <= j < |newProfiles|
      ensures ProfileKey(db.profiles[i]) != ProfileKey(newProfiles[j])
    {
      assert db.profiles[i] in db.profiles;
      var u :| u in db.users && u.id == db.profiles[i].userId;
      var x :| 0 <= x < k && db.users[x] == u;
      assert Select(db.users, UserKey)[x] == u.id;
    }
    AppendKeepsUnique(db.profiles, newProfiles, ProfileKey);
  }

  /** Every profile still belongs to a user, and each seeded user has its
      profile. */
  lemma SeededProfilesResolve(db: Database, db': Database, count: nat, password: string)
    requires forall q :: q in db.profiles ==> q.userId in UserIds(db.users)
    requires UsersSeeded(db, db', count, password)
    requires UserIds(db.users) <= UserIds(db'.users)
    ensures forall q :: q in db'.profiles ==> q.userId in UserIds(db'.users)
    ensures forall u :: u in db'.users && u !in db.users ==>
      UserProfile(u.id, SeededPagePreference) in db'.profiles
  {
    var k := |db.users|;
    var p := |db.profiles|;
    forall q | q in db'.profiles ensures q.userId in UserIds(db'.users) {
      var i :| 0 <= i < |db'.profiles| && db'.profiles[i] == q;
      if i >= p {
        assert db'.users[k + (i - p)] in db'.users;
      } else {
        assert q == db.profiles[i];
      }
    }
    forall u | u in db'.users && u !in db.users
      ensures UserProfile(u.id, SeededPagePreference) in db'.profiles
    {
      var i :| 0 <= i < |db'.users| && db'.users[i] == u;
      if i >= k {
        assert db'.profiles[p + (i - k)] == UserProfile(u.id, SeededPagePreference);
      }
    }
  }

  /** Seeding users keeps every rule of the database context, and every
      seeded user has a profile with page preference 5. */
  lemma UsersSeededKeepsWellformed(db: Database, db': Database, count: nat, password: string)
    requires Wellformed(db) && UsersSeeded(db, db', count, password)
    ensures Wellformed(db')
    ensures forall u :: u in db'.users && u !in db.users ==>
      UserProfile(u.id, SeededPagePreference) in db'.profiles
  {
    SeededUsersUnique(db, db', count, password);
    SeededProfilesUnique(db, db', count, password);
    SeededProfilesResolve(db, db', count, password);
    assert db'.(users := db.users, profiles := db.profiles) == db;
  }

  // ---------------------------------------------------------------------
  // Artists, paintings and museums: rules fixed when the generator is set up
  // ---------------------------------------------------------------------

  /** SeedArtistsAsync: `n` artists from the record stream `fake`. The owner
      is a rule given a constant value, so it is drawn once and every artist
      of the run gets the same one. The owner is drawn before the records
      are generated; a negative count fails in the generator, and rows owned
      by a missing user fail when saved. */
  function SeedArtists(db: Database, n: int, userId: Option<Id>, draw: nat -> nat, fake: nat -> Artist)
    : (r: Result<Database, SeedError>)
    ensures r.Err? <==>
      || (userId.None? && |db.users| == 0)
      || n < 0
      || (n > 0 && userId.Some? && userId.value !in UserIds(db.users))
    ensures r.Ok? ==>
      var k := |db.artists|;
      var base := NextId(Select(db.artists, ArtistKey));
      var added := r.value.artists;
      && |added| == k + n
      && added[..k] == db.artists
      && r.value.(artists := db.artists) == db
      && (forall j :: k <= j < |added| ==>
            && added[j] == fake(j - k).(id := base + (j - k), userId := added[k].userId)
            && added[k].userId.Some?
            && added[k].userId.value in UserIds(db.users)
            && (userId.Some? ==> added[k].userId == userId))
  {
    var owner := RunOwner(db, userId, draw(0));
    if owner.Err? then Err(owner.error)
    else if n < 0 then Err(NegativeCount)
    else if n > 0 && owner.value !in UserIds(db.users) then Err(SaveRejected)
    else
      var base := NextId(Select(db.artists, ArtistKey));
      var added := seq(n, j requires 0 <= j < n => fake(j).(id := base + j, userId := Some(owner.value)));
      var db' := db.(artists := db.artists + added);
      assert db'.artists[..|db.artists|] == db.artists;
      Ok(db')
  }

  /** Seeding artists keeps every rule of the database context. */
  lemma SeedArtistsKeepsWellformed(db: Database, n: int, userId: Option<Id>, draw: nat -> nat, fake: nat -> Artist)
    requires Wellformed(db)
    requires SeedArtists(db, n, userId, draw, fake).Ok?
    ensures Wellformed(SeedArtists(db, n, userId, draw, fake).value)
  {
    var db' := SeedArtists(db, n, userId, draw, fake).value;
    var k := |db.artists|;
    var added := db'.artists[k..];
    assert db'.artists == db.artists + added;
    AppendNumberedKeepsUnique(db.artists, added, ArtistKey);
    assert ArtistIds(db.artists) <= ArtistIds(db'.artists) by {
      forall x | x in ArtistIds(db.artists) ensures x in ArtistIds(db'.artists) {
        var a :| a in db.artists && a.id == x;
        assert a in db'.artists;
      }
    }
    forall a | a in db'.artists ensures OwnerResolves(a.userId, db'.users) {
      var i :| 0 <= i < |db'.artists| && db'.artists[i] == a;
      if i < k {
        assert a == db.artists[i];
      }
    }
  }

  /** SeedPaintingsAsync: `n` paintings from the record stream `fake`. Both
      the artist and the owner are rules given constant values: the artist
      is drawn first and the owner second, once each, so every painting of a
      run is by the same artist and has the same owner. */
  function SeedPaintings(db: Database, n: int, userId: Option<Id>, draw: nat -> nat, fake: nat -> Painting)
    : (r: Result<Database, SeedError>)
    ensures r.Err? <==>
      || |db.artists| == 0
      || (userId.None? && |db.users| == 0)
      || n < 0
      || (n > 0 && userId.Some? && userId.value !in UserIds(db.users))
    ensures r.Ok? ==>
      var k := |db.paintings|;
      var base := NextId(Select(db.paintings, PaintingKey));
      var added := r.value.paintings;
      && |added| == k + n
      && added[..k] == db.paintings
      && r.value.(paintings := db.paintings) == db
      && (forall j :: k <= j < |added| ==>
            && added[j] == fake(j - k).(id := base + (j - k), artistId := added[k].artistId,
                                        userId := added[k].userId)
            && added[k].artistId in ArtistIds(db.artists)
            && added[k].userId.Some?
            && added[k].userId.value in UserIds(db.users)
            && (userId.Some? ==> added[k].userId == userId))
  {
    var artist := PickId(Select(db.artists, ArtistKey), draw(0));
    if artist.Err? then Err(artist.error)
    else
      var owner := RunOwner(db, userId, draw(1));
      if owner.Err? then Err(owner.error)
      else if n < 0 then Err(NegativeCount)
      else if n > 0 && owner.value !in UserIds(db.users) then Err(SaveRejected)
      else
        var i :| 0 <= i < |db.artists| && Select(db.artists, ArtistKey)[i] == artist.value;
        assert db.artists[i] in db.artists;
        var base := NextId(Select(db.paintings, PaintingKey));
        var added := seq(n, j requires 0 <= j < n =>
                         fake(j).(id := base + j, artistId := artist.value, userId := Some(owner.value)));
        var db' := db.(paintings := db.paintings + added);
        assert db'.paintings[..|db.paintings|] == db.paintings;
        Ok(db')
  }

  /** Seeding paintings keeps every rule of the database context. */
  lemma SeedPaintingsKeepsWellformed(db: Database, n: int, userId: Option<Id>, draw: nat -> nat, fake: nat -> Painting)
    requires Wellformed(db)
    requires SeedPaintings(db, n, userId, draw, fake).Ok?
    ensures Wellformed(SeedPaintings(db, n, userId, draw, fake).value)
  {
    var db' := SeedPaintings(db, n, userId, draw, fake).value;
    var k := |db.paintings|;
    var added := db'.paintings[k..];
    assert db'.paintings == db.paintings + added;
    AppendNumberedKeepsUnique(db.paintings, added, PaintingKey);
    assert forall j :: k <= j < |db'.paintings| ==>
      db'.paintings[j].artistId in ArtistIds(db.artists) && OwnerResolves(db'.paintings[j].userId, db.users);
    SeededPaintingsResolve(db.paintings, db'.paintings, db.artists, db.users);
  }

  /** Kept rows resolve as before, and every added row names an existing
      artist and owner: then every row does. */
  lemma SeededPaintingsResolve(before: seq<Painting>, after: seq<Painting>, artists: seq<Artist>, users: seq<User>)
    requires |before| <= |after| && after[..|before|] == before
    requires forall p :: p in before ==> p.artistId in ArtistIds(artists) && OwnerResolves(p.userId, users)
    requires forall j :: |before| <= j < |after| ==>
      after[j].artistId in ArtistIds(artists) && OwnerResolves(after[j].userId, users)
    ensures forall p :: p in after ==> p.artistId in ArtistIds(artists) && OwnerResolves(p.userId, users)
  {
    forall p | p in after ensures p.artistId in ArtistIds(artists) && OwnerResolves(p.userId, users) {
      var i :| 0 <= i < |after| && after[i] == p;
      if i < |before| {
        assert p == before[i];
      }
    }
  }

  /** SeedMuseumsAsync: `n` museums from the record stream `fake`, all with
      the one owner drawn when the generator is set up. */
  function SeedMuseums(db: Database, n: int, userId: Option<Id>, draw: nat -> nat, fake: nat -> Museum)
    : (r: Result<Database, SeedError>)
    ensures r.Err? <==>
      || (userId.None? && |db.users| == 0)
      || n < 0
      || (n > 0 && userId.Some? && userId.value !in UserIds(db.users))
    ensures r.Ok? ==>
      var k := |db.museums|;
      var base := NextId(Select(db.museums, MuseumKey));
      var added := r.value.museums;
      && |added| == k + n
      && added[..k] == db.museums
      && r.value.(museums := db.museums) == db
      && (forall j :: k <= j < |added| ==>
            && added[j] == fake(j - k).(id := base + (j - k), userId := added[k].userId)
            && added[k].userId.Some?
            && added[k].userId.value in UserIds(db.users)
            && (userId.Some? ==> added[k].userId == userId))
  {
    var owner := RunOwner(db, userId, draw(0));
    if owner.Err? then Err(owner.error)
    else if n < 0 then Err(NegativeCount)
    else if n > 0 && owner.value !in UserIds(db.users) then Err(SaveRejected)
    else
      var base := NextId(Select(db.museums, MuseumKey));
      var added := seq(n, j requires 0 <= j < n => fake(j).(id := base + j, userId := Some(owner.value)));
      var db' := db.(museums := db.museums + added);
      assert db'.museums[..|db.museums|] == db.museums;
      Ok(db')
  }

  /** Seeding museums keeps every rule of the database context. */
  lemma SeedMuseumsKeepsWellformed(db: Database, n: int, userId: Option<Id>, draw: nat -> nat, fake: nat -> Museum)
    requires Wellformed(db)
    requires SeedMuseums(db, n, userId, draw, fake).Ok?
    ensures Wellformed(SeedMuseums(db, n, userId, draw, fake).value)
  {
    var db' := SeedMuseums(db, n, userId, draw, fake).value;
    var k := |db.museums|;
    var added := db'.museums[k..];
    assert db'.museums == db.museums + added;
    AppendNumberedKeepsUnique(db.museums, added, MuseumKey);
    assert MuseumIds(db.museums) <= MuseumIds(db'.museums) by {
      forall x | x in MuseumIds(db.museums) ensures x in MuseumIds(db'.museums) {
        var m :| m in db.museums && m.id == x;
        assert m in db'.museums;
      }
    }
    forall m | m in db'.museums ensures OwnerResolves(m.userId, db'.users) {
      var i :| 0 <= i < |db'.museums| && db'.museums[i] == m;
      if i < k {
        assert m == db.museums[i];
      }
    }
  }

  // ---------------------------------------------------------------------
  // Exhibitions: a unique (artist, museum) pair per row
  // ---------------------------------------------------------------------

  /** An id list read from a table holds exactly the table's keys. */
  lemma SelectedKeys<T, K>(s: seq<T>, key: T -> K)
    ensures forall x :: x in Select(s, key) <==> x in (set y | y in s :: key(y))
  {
    var r := Select(s, key);
    forall x | x in (set y | y in s :: key(y)) ensures x in r {
      var y :| y in s && key(y) == x;
      var i :| 0 <= i < |s| && s[i] == y;
      assert r[i] == x;
    }
  }

  /** Every existing artist already exhibits at every existing museum. */
  ghost predicate AllPairsTaken(db: Database) {
    forall a, m :: a in ArtistIds(db.artists) && m in MuseumIds(db.museums) ==>
      (a, m) in ExhibitionKeys(db.exhibitions)
  }

  /** What a successful run of SeedExhibitionsAsync leaves behind: `count`
      exhibitions after the existing ones, the j-th with the j-th pair of
      dates, each joining an existing artist and museum in a pair that no
      other exhibition has, all owned by the one user of the run. */
  predicate ExhibitionsSeeded(db: Database, db': Database, count: nat, userId: Option<Id>,
                              fakeDates: nat -> (Timestamp, Timestamp)) {
    var k := |db.exhibitions|;
    && |db'.exhibitions| == k + count
    && db'.exhibitions[..k] == db.exhibitions
    && db'.(exhibitions := db.exhibitions) == db
    && (forall j :: k <= j < |db'.exhibitions| ==>
          var e := db'.exhibitions[j];
          && (e.startDate, e.endDate) == fakeDates(j - k)
          && e.artistId in ArtistIds(db.artists) && e.museumId in MuseumIds(db.museums)
          && ExhibitionKey(e) !in ExhibitionKeys(db.exhibitions)
          && e.userId == db'.exhibitions[k].userId
          && e.userId.Some? && e.userId.value in UserIds(db.users)
          && (userId.Some? ==> e.userId == userId))
    && (forall i, j :: k <= i < j < |db'.exhibitions| ==>
          ExhibitionKey(db'.exhibitions[i]) != ExhibitionKey(db'.exhibitions[j]))
  }

  /** The j-th (artist, museum) candidate drawn from position `d0` of the
      random stream: an artist index, then a museum index. */
  function PairAt(artistIds: seq<Id>, museumIds: seq<Id>, draw: nat -> nat, d0: nat, j: nat): (r: (Id, Id))
    requires |artistIds| > 0 && |museumIds| > 0
    ensures r.0 in artistIds && r.1 in museumIds
  {
    (artistIds[draw(d0 + 2 * j) % |artistIds|], museumIds[draw(d0 + 2 * j + 1) % |museumIds|])
  }

  /** The pair candidates read from position `d0`, as a stream indexed by
      the candidate: the j-th uses draws d0 + 2j and d0 + 2j + 1. */
  function PairStream(artistIds: seq<Id>, museumIds: seq<Id>, draw: nat -> nat, d0: nat): nat -> (Id, Id)
    requires |artistIds| > 0 && |museumIds| > 0
  {
    (j: nat) => PairAt(artistIds, museumIds, draw, d0, j)
  }

  /** The first candidate and its StackOverflowLoops + 1 redraws from
      position `d0` are all used pairs: randomArtistMuseumPair gives up. */
  ghost predicate PairsExhausted(pairs: seq<(Id, Id)>, artistIds: seq<Id>, museumIds: seq<Id>,
                                 draw: nat -> nat, d0: nat) {
    && |artistIds| > 0 && |museumIds| > 0
    && forall j :: 0 <= j < StackOverflowLoops + 2 ==> PairAt(artistIds, museumIds, draw, d0, j) in pairs
  }

  /** Candidate j from draw position `d0 + 2k` is candidate k + j from `d0`. */
  lemma PairAtShift(artistIds: seq<Id>, museumIds: seq<Id>, draw: nat -> nat, d0: nat, k: nat, j: nat)
    requires |artistIds| > 0 && |museumIds| > 0
    ensures PairAt(artistIds, museumIds, draw, d0 + 2 * k, j) == PairAt(artistIds, museumIds, draw, d0, k + j)
  {
    assert d0 + 2 * k + 2 * j == d0 + 2 * (k + j);
  }

  /** Exhaustion at draw position `d0 + 2k` is a taken window of the stream
      from `d0`, starting at its k-th candidate. */
  lemma PairsExhaustedWindow(pairs: seq<(Id, Id)>, accepted: seq<(Id, Id)>, artistIds: seq<Id>,
                             museumIds: seq<Id>, draw: nat -> nat, d0: nat, k: nat)
    requires |artistIds| > 0 && |museumIds| > 0
    ensures PairsExhausted(pairs + accepted, artistIds, museumIds, draw, d0 + 2 * k)
            <==> WindowTaken(PairStream(artistIds, museumIds, draw, d0), k, pairs, accepted)
  {
    var cand := PairStream(artistIds, museumIds, draw, d0);
    var dk := d0 + 2 * k;
    if WindowTaken(cand, k, pairs, accepted) {
      forall j: nat | j < StackOverflowLoops + 2
        ensures PairAt(artistIds, museumIds, draw, dk, j) in pairs + accepted
      {
        PairAtShift(artistIds, museumIds, draw, d0, k, j);
        assert cand(k + j) in pairs || cand(k + j) in accepted;
      }
    }
    if PairsExhausted(pairs + accepted, artistIds, museumIds, draw, d0 + 2 * k) {
      forall i | k <= i < k + StackOverflowLoops + 2 ensures cand(i) in pairs || cand(i) in accepted {
        PairAtShift(artistIds, museumIds, draw, d0, k, i - k);
        assert PairAt(artistIds, museumIds, draw, d0 + 2 * k, i - k) in pairs + accepted;
      }
    }
  }

  /** The loop of randomArtistMuseumPair stopping at candidate `p`, all
      earlier ones used, is the first free candidate of its window. */
  lemma PairFound(pairs: seq<(Id, Id)>, artistIds: seq<Id>, museumIds: seq<Id>, draw: nat -> nat,
                  d0: nat, k: nat, p: nat)
    requires |artistIds| > 0 && |museumIds| > 0
    requires k <= p < k + StackOverflowLoops + 2
    requires PairAt(artistIds, museumIds, draw, d0, p) !in pairs
    requires forall l :: k <= l < p ==> PairAt(artistIds, museumIds, draw, d0, l) in pairs
    ensures FirstFree(PairStream(artistIds, museumIds, draw, d0), pairs, k, k + StackOverflowLoops + 2) == Some(p)
    ensures !PairsExhausted(pairs, artistIds, museumIds, draw, d0 + 2 * k)
    ensures PairAt(artistIds, museumIds, draw, d0, p).0 in artistIds
    ensures PairAt(artistIds, museumIds, draw, d0, p).1 in museumIds
    ensures PairAt(artistIds, museumIds, draw, d0, k) !in pairs ==> p == k
    ensures !(forall a, m :: a in artistIds && m in museumIds ==> (a, m) in pairs)
  {
    var cand := PairStream(artistIds, museumIds, draw, d0);
    forall l | k <= l < p ensures cand(l) in pairs {
      assert PairAt(artistIds, museumIds, draw, d0, l) in pairs;
    }
    FirstFreeAt(cand, pairs, k, k + StackOverflowLoops + 2, p);
    PairFreeInWindow(pairs, artistIds, museumIds, draw, d0, k, p);
  }

  /** A free candidate in the window: the window is not exhausted, and not
      every pair of the id lists is used. */
  lemma PairFreeInWindow(pairs: seq<(Id, Id)>, artistIds: seq<Id>, museumIds: seq<Id>, draw: nat -> nat,
                         d0: nat, k: nat, p: nat)
    requires |artistIds| > 0 && |museumIds| > 0
    requires k <= p < k + StackOverflowLoops + 2
    requires PairAt(artistIds, museumIds, draw, d0, p) !in pairs
    ensures !PairsExhausted(pairs, artistIds, museumIds, draw, d0 + 2 * k)
    ensures !(forall a, m :: a in artistIds && m in museumIds ==> (a, m) in pairs)
  {
    var dk := d0 + 2 * k;
    PairAtShift(artistIds, museumIds, draw, d0, k, p - k);
    assert PairAt(artistIds, museumIds, draw, dk, p - k) !in pairs;
    var (a, m) := PairAt(artistIds, museumIds, draw, d0, p);
    assert a in artistIds && m in museumIds && (a, m) !in pairs;
  }

  /** The loop of randomArtistMuseumPair giving up: its whole window is
      used. */
  lemma PairsAllUsed(pairs: seq<(Id, Id)>, artistIds: seq<Id>, museumIds: seq<Id>, draw: nat -> nat,
                     d0: nat, k: nat)
    requires |artistIds| > 0 && |museumIds| > 0
    requires forall l :: k <= l < k + StackOverflowLoops + 2 ==> PairAt(artistIds, museumIds, draw, d0, l) in pairs
    ensures FirstFree(PairStream(artistIds, museumIds, draw, d0), pairs, k, k + StackOverflowLoops + 2).None?
    ensures PairsExhausted(pairs, artistIds, museumIds, draw, d0 + 2 * k)
  {
    var cand := PairStream(artistIds, museumIds, draw, d0);
    FirstFreeIsFirst(cand, pairs, k, k + StackOverflowLoops + 2);
    forall i | k <= i < k + StackOverflowLoops + 2 ensures cand(i) in pairs {
      assert PairAt(artistIds, museumIds, draw, d0, i) in pairs;
    }
    var dk := d0 + 2 * k;
    forall j: nat | j < StackOverflowLoops + 2
      ensures PairAt(artistIds, museumIds, draw, dk, j) in pairs
    {
      PairAtShift(artistIds, museumIds, draw, d0, k, j);
    }
  }

  /** randomArtistMuseumPair: an artist and a museum drawn from the id
      lists, both redrawn while the pair is in `pairs`; after 1 000 001
      redraws it fails. Reads the random stream from draw position
      `d0 + 2k`, that is from the k-th candidate of the stream from `d0`;
      `at` is the index of the candidate read last, on success the one
      accepted. */
  method UniquePair(pairs: seq<(Id, Id)>, artistIds: seq<Id>, museumIds: seq<Id>, draw: nat -> nat,
                    d0: nat, k: nat)
    returns (r: Result<(Id, Id), SeedError>, at: nat)
    ensures r.Ok? ==> r.value !in pairs && r.value.0 in artistIds && r.value.1 in museumIds
    ensures r == Err(IndexOutOfRange) <==> |artistIds| == 0 || |museumIds| == 0
    ensures r == Err(PairNotFound) <==> PairsExhausted(pairs, artistIds, museumIds, draw, d0 + 2 * k)
    ensures r.Err? ==> r.error == IndexOutOfRange || r.error == PairNotFound
    ensures |artistIds| > 0 && |museumIds| > 0 ==>
      (r.Ok? <==> FirstFree(PairStream(artistIds, museumIds, draw, d0), pairs, k, k + StackOverflowLoops + 2).Some?)
    ensures r.Ok? ==>
      && |artistIds| > 0 && |museumIds| > 0
      && FirstFree(PairStream(artistIds, museumIds, draw, d0), pairs, k, k + StackOverflowLoops + 2) == Some(at)
      && r.value == PairAt(artistIds, museumIds, draw, d0, at)
      && forall l :: k <= l < at ==> PairAt(artistIds, museumIds, draw, d0, l) in pairs
    ensures |artistIds| > 0 && |museumIds| > 0 && PairAt(artistIds, museumIds, draw, d0, k) !in pairs ==>
      r == Ok(PairAt(artistIds, museumIds, draw, d0, k)) && at == k
    ensures (forall a, m :: a in artistIds && m in museumIds ==> (a, m) in pairs) ==> r.Err?
  {
    at := k;
    var d := d0 + 2 * k;
    var artist := PickId(artistIds, draw(d));
    if artist.Err? {
      return Err(IndexOutOfRange), at;
    }
    d := d + 1;
    var museum := PickId(museumIds, draw(d));
    if museum.Err? {
      return Err(IndexOutOfRange), at;
    }
    d := d + 1;
    var artistId, museumId := artist.value, museum.value;
    var current := 0;
    while (artistId, museumId) in pairs
      invariant 0 <= current <= StackOverflowLoops + 1
      invariant at == k + current && d == d0 + 2 * at + 2
      invariant (artistId, museumId) == PairAt(artistIds, museumIds, draw, d0, at)
      invariant forall l :: k <= l < at ==> PairAt(artistIds, museumIds, draw, d0, l) in pairs
      decreases StackOverflowLoops + 1 - current
    {
      if current > StackOverflowLoops {
        PairsAllUsed(pairs, artistIds, museumIds, draw, d0, k);
        return Err(PairNotFound), at;
      }
      current := current + 1;
      at := at + 1;
      artistId := artistIds[draw(d) % |artistIds|];
      d := d + 1;
      museumId := museumIds[draw(d) % |museumIds|];
      d := d + 1;
    }
    PairFound(pairs, artistIds, museumIds, draw, d0, k, at);
    r := Ok((artistId, museumId));
  }

  /** Exhaustion against the existing pairs and the pairs `accepted` earlier
      in the run. */
  ghost predicate ExhaustedAfter(oldPairs: seq<(Id, Id)>, accepted: seq<(Id, Id)>, artistIds: seq<Id>,
                                 museumIds: seq<Id>, draw: nat -> nat, start: nat) {
    PairsExhausted(oldPairs + accepted, artistIds, museumIds, draw, start)
  }

  /** The loop of SeedExhibitionsAsync as a reference run: `n` redraw loops
      over the pair candidates read from position `d0`, which fail at once
      on an empty id list. The run's positions are candidate indices. */
  function PairRun(oldPairs: seq<(Id, Id)>, artistIds: seq<Id>, museumIds: seq<Id>, draw: nat -> nat,
                   d0: nat, n: int): (r: Run<(Id, Id)>)
    ensures r.NoIds? <==> n > 0 && (|artistIds| == 0 || |museumIds| == 0)
    ensures r.Drawn? ==> |r.items| == (if n < 0 then 0 else n)
    ensures r.Exhausted? ==> |r.accepted| < n
  {
    if |artistIds| == 0 || |museumIds| == 0 then (if n <= 0 then Drawn([], 0) else NoIds)
    else RedrawRun(PairStream(artistIds, museumIds, draw, d0), oldPairs, n, 0)
  }

  /** The first `n` pair candidates from position `d0` are neither existing
      pairs nor repeated: then no pair is ever redrawn. */
  ghost predicate FreshPairs(oldPairs: seq<(Id, Id)>, artistIds: seq<Id>, museumIds: seq<Id>,
                             draw: nat -> nat, d0: nat, n: int) {
    && |artistIds| > 0 && |museumIds| > 0
    && FreshFrom(PairStream(artistIds, museumIds, draw, d0), oldPairs, 0, n)
  }

  /** A pair run that fails ends at an exhausted window. */
  lemma PairRunExhausted(oldPairs: seq<(Id, Id)>, artistIds: seq<Id>, museumIds: seq<Id>, draw: nat -> nat,
                         d0: nat, n: int)
    ensures var r := PairRun(oldPairs, artistIds, museumIds, draw, d0, n);
      r.Exhausted? ==> ExhaustedAfter(oldPairs, r.accepted, artistIds, museumIds, draw, d0 + 2 * r.start)
  {
    var r := PairRun(oldPairs, artistIds, museumIds, draw, d0, n);
    if r.Exhausted? {
      RedrawRunExhausted(PairStream(artistIds, museumIds, draw, d0), oldPairs, n, 0);
      PairsExhaustedWindow(oldPairs, r.accepted, artistIds, museumIds, draw, d0, r.start);
    }
  }

  /** A pair run over fresh candidates completes with exactly those pairs. */
  lemma PairRunFresh(oldPairs: seq<(Id, Id)>, artistIds: seq<Id>, museumIds: seq<Id>, draw: nat -> nat,
                     d0: nat, n: int)
    ensures FreshPairs(oldPairs, artistIds, museumIds, draw, d0, n) ==>
      var r := PairRun(oldPairs, artistIds, museumIds, draw, d0, n);
      && r.Drawn?
      && forall j :: 0 <= j < |r.items| ==> r.items[j] == PairAt(artistIds, museumIds, draw, d0, j)
  {
    if FreshPairs(oldPairs, artistIds, museumIds, draw, d0, n) {
      RedrawRunFresh(PairStream(artistIds, museumIds, draw, d0), oldPairs, 0, n);
    }
  }

  /** A completed pair run draws pairs from the id lists that are neither
      existing pairs nor repeated. */
  lemma PairRunSound(oldPairs: seq<(Id, Id)>, artistIds: seq<Id>, museumIds: seq<Id>, draw: nat -> nat,
                     d0: nat, n: int)
    ensures var r := PairRun(oldPairs, artistIds, museumIds, draw, d0, n);
      r.Drawn? ==> NoneIn(r.items, oldPairs) && Distinct(r.items)
  {
    if |artistIds| > 0 && |museumIds| > 0 {
      RedrawRunSound(PairStream(artistIds, museumIds, draw, d0), oldPairs, n, 0);
    }
  }

  /** The rows generated so far: the a-th has the a-th pair of dates, the
      run's owner, and an (artist, museum) pair from the id lists that is
      not among the existing pairs nor shared with another row. */
  ghost predicate RowsDrawn(oldPairs: seq<(Id, Id)>, artistIds: seq<Id>, museumIds: seq<Id>, owner: Id,
                            fakeDates: nat -> (Timestamp, Timestamp), rows: seq<Exhibition>) {
    && (forall a :: 0 <= a < |rows| ==>
          var e := rows[a];
          && (e.startDate, e.endDate) == fakeDates(a)
          && e.artistId in artistIds && e.museumId in museumIds
          && ExhibitionKey(e) !in oldPairs
          && e.userId == Some(owner))
    && (forall a, b :: 0 <= a < b < |rows| ==> ExhibitionKey(rows[a]) != ExhibitionKey(rows[b]))
  }

  /** A row with a new pair extends the rows generated so far. */
  lemma RowAppended(oldPairs: seq<(Id, Id)>, artistIds: seq<Id>, museumIds: seq<Id>, owner: Id,
                    fakeDates: nat -> (Timestamp, Timestamp), rows: seq<Exhibition>, e: Exhibition)
    requires RowsDrawn(oldPairs, artistIds, museumIds, owner, fakeDates, rows)
    requires ExhibitionKey(e) !in oldPairs + Select(rows, ExhibitionKey)
    requires e.artistId in artistIds && e.museumId in museumIds
    requires (e.startDate, e.endDate) == fakeDates(|rows|) && e.userId == Some(owner)
    ensures RowsDrawn(oldPairs, artistIds, museumIds, owner, fakeDates, rows + [e])
    ensures Select(rows + [e], ExhibitionKey) == Select(rows, ExhibitionKey) + [ExhibitionKey(e)]
  {
    var pairs := oldPairs + Select(rows, ExhibitionKey);
    forall a | 0 <= a < |rows| ensures ExhibitionKey(rows[a]) != ExhibitionKey(e) {
      assert pairs[|oldPairs| + a] == ExhibitionKey(rows[a]);
    }
    var next := rows + [e];
    assert forall a :: 0 <= a < |rows| ==> next[a] == rows[a];
  }

  /** One pass of the loop of SeedExhibitionsAsync: the row gets the next
      pair of dates, the owner and the pair randomArtistMuseumPair draws from
      the k-th candidate of the stream from `d0` on, avoiding `oldPairs` and
      the earlier rows; `at` is the index of the candidate read last. */
  method DrawRow(oldPairs: seq<(Id, Id)>, rows: seq<Exhibition>, artistIds: seq<Id>, museumIds: seq<Id>,
                 owner: Id, draw: nat -> nat, d0: nat, k: nat, fakeDates: nat -> (Timestamp, Timestamp))
    returns (r: Result<Exhibition, SeedError>, at: nat)
    requires RowsDrawn(oldPairs, artistIds, museumIds, owner, fakeDates, rows)
    ensures r.Ok? ==> RowsDrawn(oldPairs, artistIds, museumIds, owner, fakeDates, rows + [r.value])
    ensures r.Ok? ==> Select(rows + [r.value], ExhibitionKey) == Select(rows, ExhibitionKey) + [ExhibitionKey(r.value)]
    ensures r == Err(IndexOutOfRange) <==> |artistIds| == 0 || |museumIds| == 0
    ensures r.Err? ==> r.error == IndexOutOfRange || r.error == PairNotFound
    ensures r == Err(PairNotFound) <==>
      ExhaustedAfter(oldPairs, Select(rows, ExhibitionKey), artistIds, museumIds, draw, d0 + 2 * k)
    ensures |artistIds| > 0 && |museumIds| > 0 ==>
      (r.Ok? <==> FirstFree(PairStream(artistIds, museumIds, draw, d0), oldPairs + Select(rows, ExhibitionKey),
                            k, k + StackOverflowLoops + 2).Some?)
    ensures r.Ok? ==>
      && |artistIds| > 0 && |museumIds| > 0
      && FirstFree(PairStream(artistIds, museumIds, draw, d0), oldPairs + Select(rows, ExhibitionKey),
                   k, k + StackOverflowLoops + 2) == Some(at)
      && r.value == Exhibition(PairAt(artistIds, museumIds, draw, d0, at).0,
                               PairAt(artistIds, museumIds, draw, d0, at).1,
                               fakeDates(|rows|).0, fakeDates(|rows|).1, Some(owner))
    ensures |artistIds| > 0 && |museumIds| > 0
            && PairAt(artistIds, museumIds, draw, d0, k) !in oldPairs + Select(rows, ExhibitionKey)
            ==> r.Ok? && at == k
  {
    var (startDate, endDate) := fakeDates(|rows|);
    var pair;
    pair, at := UniquePair(oldPairs + Select(rows, ExhibitionKey), artistIds, museumIds, draw, d0, k);
    if pair.Err? {
      return Err(pair.error), at;
    }
    var (artistId, museumId) := pair.value;
    var e := Exhibition(artistId, museumId, startDate, endDate, Some(owner));
    RowAppended(oldPairs, artistIds, museumIds, owner, fakeDates, rows, e);
    r := Ok(e);
  }

  /** DrawRow as a step of the reference run `whole`: a new row is the
      pair the run accepts next; "no unique pair" is where the run stops. */
  method NextRow(oldPairs: seq<(Id, Id)>, rows: seq<Exhibition>, artistIds: seq<Id>, museumIds: seq<Id>,
                 owner: Id, draw: nat -> nat, d0: nat, k: nat, fakeDates: nat -> (Timestamp, Timestamp),
                 ghost cand: nat -> (Id, Id), ghost whole: Run<(Id, Id)>, ghost left: int)
    returns (r: Result<Exhibition, SeedError>, at: nat)
    requires RowsDrawn(oldPairs, artistIds, museumIds, owner, fakeDates, rows)
    requires |artistIds| > 0 && |museumIds| > 0 ==>
      && cand == PairStream(artistIds, museumIds, draw, d0)
      && Resumes(cand, whole, Select(rows, ExhibitionKey), oldPairs + Select(rows, ExhibitionKey), left, k)
    requires left > 0
    ensures r.Ok? ==> RowsDrawn(oldPairs, artistIds, museumIds, owner, fakeDates, rows + [r.value])
    ensures r.Ok? ==>
      && |artistIds| > 0 && |museumIds| > 0
      && Resumes(cand, whole, Select(rows + [r.value], ExhibitionKey),
                 oldPairs + Select(rows + [r.value], ExhibitionKey), left - 1, at + 1)
    ensures r.Err? ==>
      || (r.error == IndexOutOfRange && (|artistIds| == 0 || |museumIds| == 0))
      || (r.error == PairNotFound && |artistIds| > 0 && |museumIds| > 0
          && whole == Exhausted(Select(rows, ExhibitionKey), k))
  {
    ghost var done := Select(rows, ExhibitionKey);
    r, at := DrawRow(oldPairs, rows, artistIds, museumIds, owner, draw, d0, k, fakeDates);
    if r == Err(PairNotFound) {
      RunStops(cand, whole, done, oldPairs + done, left, k);
    } else if r.Ok? {
      var key := ExhibitionKey(r.value);
      RunAdvance(cand, whole, done, oldPairs + done, left, k, at);
      assert (oldPairs + done) + [key] == oldPairs + (done + [key]);
    }
  }

  /** The loop of SeedExhibitionsAsync: `n` rows (none when `n` is
      negative), the i-th with the i-th pair of dates, the owner given, and
      the i-th pair of the reference run; it stops at the first row that
      fails, with the error that row raised. */
  method DrawRows(oldPairs: seq<(Id, Id)>, artistIds: seq<Id>, museumIds: seq<Id>, n: int,
                  owner: Id, draw: nat -> nat, d0: nat, fakeDates: nat -> (Timestamp, Timestamp))
    returns (r: Result<seq<Exhibition>, SeedError>)
    ensures r.Ok? ==> |r.value| == (if n < 0 then 0 else n)
    ensures r.Ok? ==> RowsDrawn(oldPairs, artistIds, museumIds, owner, fakeDates, r.value)
    ensures r.Ok? ==>
      var run := PairRun(oldPairs, artistIds, museumIds, draw, d0, n);
      run.Drawn? && run.items == Select(r.value, ExhibitionKey)
    ensures r.Err? ==>
      || (r.error == IndexOutOfRange && n > 0 && (|artistIds| == 0 || |museumIds| == 0))
      || (r.error == PairNotFound && PairRun(oldPairs, artistIds, museumIds, draw, d0, n).Exhausted?)
  {
    var k: nat := 0;
    var exhibitions: seq<Exhibition> := [];
    ghost var nonEmpty := |artistIds| > 0 && |museumIds| > 0;
    ghost var cand: nat -> (Id, Id) := (j: nat) => (0, 0);
    ghost var whole := PairRun(oldPairs, artistIds, museumIds, draw, d0, n);
    if nonEmpty {
      cand := PairStream(artistIds, museumIds, draw, d0);
      ResumesAtStart(cand, oldPairs, n, 0);
      assert oldPairs + Select(exhibitions, ExhibitionKey) == oldPairs;
    }
    var i := 0;
    ghost var left := n;
    while i < n
      invariant 0 <= i <= if n < 0 then 0 else n
      invariant |exhibitions| == i
      invariant RowsDrawn(oldPairs, artistIds, museumIds, owner, fakeDates, exhibitions)
      invariant i > 0 ==> nonEmpty
      invariant left == n - i
      invariant nonEmpty ==>
        Resumes(cand, whole, Select(exhibitions, ExhibitionKey), oldPairs + Select(exhibitions, ExhibitionKey), left, k)
    {
      var row, at := NextRow(oldPairs, exhibitions, artistIds, museumIds, owner, draw, d0, k, fakeDates,
                             cand, whole, left);
      if row.Err? {
        return Err(row.error);
      }
      exhibitions := exhibitions + [row.value];
      k := at + 1;
      i := i + 1;
      left := left - 1;
    }
    if nonEmpty {
      RunEnds(cand, whole, Select(exhibitions, ExhibitionKey), oldPairs + Select(exhibitions, ExhibitionKey), left, k);
    }
    r := Ok(exhibitions);
  }

  /** The rows of SeedExhibitionsAsync, described by the reference run:
      `n` rows (none when `n` is negative), the i-th with the i-th pair of
      dates, the owner given, and a pair from randomArtistMuseumPair, which
      avoids `oldPairs` and the earlier rows. */
  method DrawExhibitions(oldPairs: seq<(Id, Id)>, artistIds: seq<Id>, museumIds: seq<Id>, n: int,
                         owner: Id, draw: nat -> nat, d0: nat, fakeDates: nat -> (Timestamp, Timestamp))
    returns (r: Result<seq<Exhibition>, SeedError>)
    ensures r.Ok? ==> |r.value| == (if n < 0 then 0 else n)
    ensures r.Ok? ==> forall a :: 0 <= a < |r.value| ==>
      var e := r.value[a];
      && (e.startDate, e.endDate) == fakeDates(a)
      && e.artistId in artistIds && e.museumId in museumIds
      && ExhibitionKey(e) !in oldPairs
      && e.userId == Some(owner)
    ensures r.Ok? ==> forall a, b :: 0 <= a < b < |r.value| ==>
      ExhibitionKey(r.value[a]) != ExhibitionKey(r.value[b])
    ensures r == Err(IndexOutOfRange) <==> n > 0 && (|artistIds| == 0 || |museumIds| == 0)
    ensures r.Err? ==> r.error == IndexOutOfRange || r.error == PairNotFound
    ensures r.Ok? <==> PairRun(oldPairs, artistIds, museumIds, draw, d0, n).Drawn?
    ensures r.Ok? ==> Select(r.value, ExhibitionKey) == PairRun(oldPairs, artistIds, museumIds, draw, d0, n).items
    ensures r == Err(PairNotFound) <==> PairRun(oldPairs, artistIds, museumIds, draw, d0, n).Exhausted?
    ensures r == Err(PairNotFound) ==>
      var run := PairRun(oldPairs, artistIds, museumIds, draw, d0, n);
      ExhaustedAfter(oldPairs, run.accepted, artistIds, museumIds, draw, d0 + 2 * run.start)
    ensures r == Err(PairNotFound) ==> exists start: nat, accepted: seq<(Id, Id)> ::
      |accepted| < n && ExhaustedAfter(oldPairs, accepted, artistIds, museumIds, draw, start)
    ensures FreshPairs(oldPairs, artistIds, museumIds, draw, d0, n) ==> r.Ok?
  {
    r := DrawRows(oldPairs, artistIds, museumIds, n, owner, draw, d0, fakeDates);
    PairRunExhausted(oldPairs, artistIds, museumIds, draw, d0, n);
    PairRunFresh(oldPairs, artistIds, museumIds, draw, d0, n);
    if r == Err(PairNotFound) {
      var run := PairRun(oldPairs, artistIds, museumIds, draw, d0, n);
      assert |run.accepted| < n && ExhaustedAfter(oldPairs, run.accepted, artistIds, museumIds, draw, d0 + 2 * run.start);
    }
  }

  /** SeedExhibitionsAsync: the owner is drawn once when the generator is
      set up (before anything else), then the rows are generated and saved;
      saving rows whose owner is not a user fails. The pair candidates are
      read from the position after the owner's draw. */
  method SeedExhibitions(db: Database, n: int, userId: Option<Id>, draw: nat -> nat,
                         fakeDates: nat -> (Timestamp, Timestamp))
    returns (r: Result<Database, SeedError>)
    ensures r.Ok? ==> ExhibitionsSeeded(db, r.value, if n < 0 then 0 else n, userId, fakeDates)
    ensures r.Err? ==> r.error in {IndexOutOfRange, PairNotFound, SaveRejected}
    ensures r == Err(IndexOutOfRange) <==>
      || (userId.None? && |db.users| == 0)
      || (n > 0 && (|db.artists| == 0 || |db.museums| == 0))
    ensures var run := PairRun(Select(db.exhibitions, ExhibitionKey), Select(db.artists, ArtistKey),
                               Select(db.museums, MuseumKey), draw, if userId.None? then 1 else 0, n);
      && (r.Ok? <==>
            && (userId.None? ==> |db.users| > 0)
            && run.Drawn?
            && (n > 0 && userId.Some? ==> userId.value in UserIds(db.users)))
      && (r.Ok? ==> Select(r.value.exhibitions[|db.exhibitions|..], ExhibitionKey) == run.items)
      && (r == Err(PairNotFound) <==> (userId.None? ==> |db.users| > 0) && run.Exhausted?)
      && (r == Err(PairNotFound) ==>
            ExhaustedAfter(Select(db.exhibitions, ExhibitionKey), run.accepted, Select(db.artists, ArtistKey),
                           Select(db.museums, MuseumKey), draw, (if userId.None? then 1 else 0) + 2 * run.start))
    ensures r == Err(PairNotFound) ==> n > 0
    ensures r == Err(SaveRejected) ==> n > 0 && userId.Some? && userId.value !in UserIds(db.users)
    ensures n > 0 && AllPairsTaken(db) ==> r.Err?
    ensures n > 0 && userId.Some? && userId.value !in UserIds(db.users) ==> r.Err?
    ensures (userId.None? ==> |db.users| > 0)
            && (n > 0 && userId.Some? ==> userId.value in UserIds(db.users))
            && FreshPairs(Select(db.exhibitions, ExhibitionKey), Select(db.artists, ArtistKey),
                          Select(db.museums, MuseumKey), draw, if userId.None? then 1 else 0, n)
            ==> r.Ok?
  {
    var owner := RunOwner(db, userId, draw(0));
    if owner.Err? {
      return Err(owner.error);
    }
    var d: nat := if userId.None? then 1 else 0;
    var artistIds := Select(db.artists, ArtistKey);
    var museumIds := Select(db.museums, MuseumKey);
    var oldPairs := Select(db.exhibitions, ExhibitionKey);
    var rows := DrawExhibitions(oldPairs, artistIds, museumIds, n, owner.value, draw, d, fakeDates);
    if rows.Err? {
      return Err(rows.error);
    }
    var exhibitions := rows.value;
    if |exhibitions| > 0 && owner.value !in UserIds(db.users) {
      return Err(SaveRejected);
    }
    r := Ok(db.(exhibitions := db.exhibitions + exhibitions));
    assert r.value.exhibitions[|db.exhibitions|..] == exhibitions;
    SelectedKeys(db.exhibitions, ExhibitionKey);
    SelectedKeys(db.artists, ArtistKey);
    SelectedKeys(db.museums, MuseumKey);
    SavedExhibitionsAreSeeded(db, exhibitions, owner.value, userId, fakeDates);
  }

  /** Saving the rows SeedExhibitions generates is a seeding run; in
      particular, some artist did not yet exhibit at some museum. */
  lemma SavedExhibitionsAreSeeded(db: Database, exhibitions: seq<Exhibition>, owner: Id, userId: Option<Id>,
                                  fakeDates: nat -> (Timestamp, Timestamp))
    requires forall a :: 0 <= a < |exhibitions| ==>
      var e := exhibitions[a];
      && (e.startDate, e.endDate) == fakeDates(a)
      && e.artistId in ArtistIds(db.artists) && e.museumId in MuseumIds(db.museums)
      && ExhibitionKey(e) !in ExhibitionKeys(db.exhibitions)
      && e.userId == Some(owner)
    requires forall a, b :: 0 <= a < b < |exhibitions| ==> ExhibitionKey(exhibitions[a]) != ExhibitionKey(exhibitions[b])
    requires |exhibitions| > 0 ==> owner in UserIds(db.users)
    requires userId.Some? ==> owner == userId.value
    ensures ExhibitionsSeeded(db, db.(exhibitions := db.exhibitions + exhibitions), |exhibitions|, userId, fakeDates)
    ensures |exhibitions| > 0 ==> !AllPairsTaken(db)
  {
    var db' := db.(exhibitions := db.exhibitions + exhibitions);
    assert db'.exhibitions[..|db.exhibitions|] == db.exhibitions;
    if |exhibitions| > 0 {
      var e := exhibitions[0];
      assert (e.artistId, e.museumId) !in ExhibitionKeys(db.exhibitions);
    }
  }

  /** Seeding exhibitions keeps every rule of the database context. */
  lemma ExhibitionsSeededKeepsWellformed(db: Database, db': Database, count: nat, userId: Option<Id>,
                                         fakeDates: nat -> (Timestamp, Timestamp))
    requires Wellformed(db) && ExhibitionsSeeded(db, db', count, userId, fakeDates)
    ensures Wellformed(db')
  {
    SeededExhibitionKeysUnique(db, db', count, userId, fakeDates);
    SeededExhibitionsResolve(db, db', count, userId, fakeDates);
  }

  /** The seeded pairs are new and pairwise distinct, so the exhibition key
      stays unique. */
  lemma SeededExhibitionKeysUnique(db: Database, db': Database, count: nat, userId: Option<Id>,
                                   fakeDates: nat -> (Timestamp, Timestamp))
    requires UniqueBy(db.exhibitions, ExhibitionKey)
    requires ExhibitionsSeeded(db, db', count, userId, fakeDates)
    ensures UniqueBy(db'.exhibitions, ExhibitionKey)
  {
    var k := |db.exhibitions|;
    var added := db'.exhibitions[k..];
    assert db'.exhibitions == db.exhibitions + added;
    forall j | 0 <= j < |added| ensures ExhibitionKey(added[j]) !in ExhibitionKeys(db.exhibitions) {
      assert added[j] == db'.exhibitions[k + j];
    }
    forall i, j | 0 <= i < j < |added| ensures ExhibitionKey(added[i]) != ExhibitionKey(added[j]) {
      assert added[i] == db'.exhibitions[k + i] && added[j] == db'.exhibitions[k + j];
    }
    NewPairsKeepUnique(db.exhibitions, added);
  }

  /** Appending exhibitions whose pairs are not taken and pairwise distinct
      keeps the composite key unique. */
  lemma NewPairsKeepUnique(exhibitions: seq<Exhibition>, added: seq<Exhibition>)
    requires UniqueBy(exhibitions, ExhibitionKey)
    requires forall j :: 0 <= j < |added| ==> ExhibitionKey(added[j]) !in ExhibitionKeys(exhibitions)
    requires UniqueBy(added, ExhibitionKey)
    ensures UniqueBy(exhibitions + added, ExhibitionKey)
  {
    forall i, j | 0 <= i < |exhibitions| && 0 <= j < |added|
      ensures ExhibitionKey(exhibitions[i]) != ExhibitionKey(added[j])
    {
      assert exhibitions[i] in exhibitions;
    }
    AppendKeepsUnique(exhibitions, added, ExhibitionKey);
  }

  /** Every exhibition, old or seeded, joins an existing artist and museum
      and is owned by an existing user or nobody. */
  lemma SeededExhibitionsResolve(db: Database, db': Database, count: nat, userId: Option<Id>,
                                 fakeDates: nat -> (Timestamp, Timestamp))
    requires Wellformed(db) && ExhibitionsSeeded(db, db', count, userId, fakeDates)
    ensures forall e :: e in db'.exhibitions ==>
      && e.artistId in ArtistIds(db'.artists) && e.museumId in MuseumIds(db'.museums)
      && OwnerResolves(e.userId, db'.users)
  {
    var k := |db.exhibitions|;
    forall e | e in db'.exhibitions
      ensures e.artistId in ArtistIds(db'.artists) && e.museumId in MuseumIds(db'.museums)
      ensures OwnerResolves(e.userId, db'.users)
    {
      var i :| 0 <= i < |db'.exhibitions| && db'.exhibitions[i] == e;
      if i < k {
        assert e == db.exhibitions[i];
      }
    }
  }

  // ---------------------------------------------------------------------
  // Start-up
  // ---------------------------------------------------------------------

  /** Start-up (InitializeAsync). Opening the context runs `EnsureCreated`,
      which creates a missing database with empty tables and inserts no rows
      (the context declares no seed data), so it changes no table held here.
      InitializeAsync then returns: the seeding calls after the `return` never
      run, so start-up leaves every table as it found it, even an empty one. */
  function Initialize(db: Database): (r: Database)
    ensures r == db
  {
    db
  }
}
