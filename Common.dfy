/** Building blocks shared by the rest of the model: nullable values and
    error results, the LINQ sequence operators the queries are written with,
    the substring test of C#'s String.Contains, and 32-bit integer wrap-around. */
module Common {

  datatype Option<+T> = None | Some(value: T) {
    /** The `??` operator: the value, or `default` when there is none. */
    function GetOr(default: T): T {
      match this
      case Some(v) => v
      case None => default
    }
  }

  datatype Result<+T, +E> = Ok(value: T) | Err(error: E)

  // ---------------------------------------------------------------------
  // LINQ operators over a table held in its natural (insertion) order
  // ---------------------------------------------------------------------

  /** Enumerable.Where: the rows satisfying `p`, in table order. */
  function Where<T>(s: seq<T>, p: T -> bool): (r: seq<T>)
    ensures |r| <= |s|
    ensures forall i :: 0 <= i < |r| ==> r[i] in s && p(r[i])
    ensures forall i :: 0 <= i < |s| && p(s[i]) ==> s[i] in r
  {
    if s == [] then [] else (if p(s[0]) then [s[0]] else []) + Where(s[1..], p)
  }

  /** Where distributes over concatenation, so it keeps the table's order. */
  lemma {:induction false} WhereAppend<T>(s: seq<T>, t: seq<T>, p: T -> bool)
    ensures Where(s + t, p) == Where(s, p) + Where(t, p)
  {
    if s == [] {
      assert s + t == t;
    } else {
      assert (s + t)[1..] == s[1..] + t;
      WhereAppend(s[1..], t, p);
    }
  }

  /** No two rows of `s` share a value of `key`: a primary key or a unique index. */
  predicate UniqueBy<T, K(==)>(s: seq<T>, key: T -> K) {
    forall i, j :: 0 <= i < j < |s| ==> key(s[i]) != key(s[j])
  }

  /** Filtering rows out of a table cannot break a key. */
  lemma {:induction false} WhereKeepsUnique<T, K>(s: seq<T>, p: T -> bool, key: T -> K)
    requires UniqueBy(s, key)
    ensures UniqueBy(Where(s, p), key)
  {
    if s != [] {
      var rest := Where(s[1..], p);
      WhereKeepsUnique(s[1..], p, key);
      if p(s[0]) {
        var r := [s[0]] + rest;
        assert Where(s, p) == r;
        forall i, j | 0 <= i < j < |r| ensures key(r[i]) != key(r[j]) {
          if i == 0 {
            assert rest[j - 1] in s[1..];
            var k :| 0 <= k < |s[1..]| && s[1..][k] == rest[j - 1];
            assert s[k + 1] == r[j];
          } else {
            assert r[i] == rest[i - 1] && r[j] == rest[j - 1];
          }
        }
      } else {
        assert Where(s, p) == rest;
      }
    }
  }

  /** Where the row with key `k` sits (the first one, if the key is not unique). */
  function IndexOfKey<T, K(==)>(s: seq<T>, key: T -> K, k: K): (r: Option<nat>)
    ensures r.Some? ==> r.value < |s| && key(s[r.value]) == k
    ensures r.Some? ==> forall i :: 0 <= i < r.value ==> key(s[i]) != k
    ensures r.None? <==> forall i :: 0 <= i < |s| ==> key(s[i]) != k
  {
    if s == [] then None
    else if key(s[0]) == k then Some(0)
    else match IndexOfKey(s[1..], key, k)
      case None => None
      case Some(j) => Some(j + 1)
  }

  /** Rows that come first among those satisfying `p` do not depend on the
      rows after the n-th match: Take(Where(...)) reads the table in order. */
  lemma FirstMatchesIgnoreRest<T>(a: seq<T>, b: seq<T>, p: T -> bool, n: int)
    requires n <= |Where(a, p)|
    ensures Take(Where(a + b, p), n) == Take(Where(a, p), n)
  {
    WhereAppend(a, b, p);
  }

  /** Where keeps the whole table when every row satisfies `p`. */
  lemma {:induction false} WhereAll<T>(s: seq<T>, p: T -> bool)
    requires forall i :: 0 <= i < |s| ==> p(s[i])
    ensures Where(s, p) == s
  {
    if s != [] {
      WhereAll(s[1..], p);
      assert [s[0]] + s[1..] == s;
    }
  }

  /** Where keeps nothing when no row satisfies `p`. */
  lemma {:induction false} WhereNone<T>(s: seq<T>, p: T -> bool)
    requires forall i :: 0 <= i < |s| ==> !p(s[i])
    ensures Where(s, p) == []
  {
    if s != [] {
      WhereNone(s[1..], p);
    }
  }

  /** Appending rows whose keys are distinct and new keeps a key unique. */
  lemma AppendKeepsUnique<T, K>(s: seq<T>, t: seq<T>, key: T -> K)
    requires UniqueBy(s, key) && UniqueBy(t, key)
    requires forall i, j :: 0 <= i < |s| && 0 <= j < |t| ==> key(s[i]) != key(t[j])
    ensures UniqueBy(s + t, key)
  {
    var u := s + t;
    forall i, j | 0 <= i < j < |u| ensures key(u[i]) != key(u[j]) {
      if j < |s| {
        assert u[i] == s[i] && u[j] == s[j];
      } else if i < |s| {
        assert u[i] == s[i] && u[j] == t[j - |s|];
      } else {
        assert u[i] == t[i - |s|] && u[j] == t[j - |s|];
      }
    }
  }

  /** Enumerable.Select: `f` applied to every row. */
  function Select<T, U>(s: seq<T>, f: T -> U): (r: seq<U>)
    ensures |r| == |s|
    ensures forall i :: 0 <= i < |s| ==> r[i] == f(s[i])
  {
    seq(|s|, i requires 0 <= i < |s| => f(s[i]))
  }

  /** Enumerable.Take: the first `n` rows; none when `n` is not positive. */
  function Take<T>(s: seq<T>, n: int): (r: seq<T>)
    ensures r <= s
    ensures |r| == if n <= 0 then 0 else if n < |s| then n else |s|
  {
    if n <= 0 then [] else if n < |s| then s[..n] else s
  }

  /** Enumerable.Skip: all but the first `n` rows; all of them when `n` is not positive. */
  function Skip<T>(s: seq<T>, n: int): (r: seq<T>)
    ensures |r| == if n <= 0 then |s| else if n < |s| then |s| - n else 0
    ensures forall i :: 0 <= i < |r| ==> r[i] == s[i + |s| - |r|]
  {
    if n <= 0 then s else if n < |s| then s[n..] else []
  }

  /** Select commutes with Take: projecting before or after the cut is the same. */
  lemma SelectTake<T, U>(s: seq<T>, f: T -> U, n: int)
    ensures Select(Take(s, n), f) == Take(Select(s, f), n)
  {
  }

  function Min(a: int, b: int): int {
    if a <= b then a else b
  }

  /** Page number `page` (from 0) of `size` rows each, as Skip/Take. */
  function Page<T>(s: seq<T>, page: nat, size: nat): (r: seq<T>)
    ensures |r| <= size
    ensures page * size >= |s| ==> r == []
  {
    Take(Skip(s, page * size), size)
  }

  /** Skipping `lo` rows and taking `size` is the slice lo .. lo+size of the
      table, both ends cut at its length. */
  lemma SkipTakeIsSlice<T>(s: seq<T>, lo: nat, size: nat)
    ensures Take(Skip(s, lo), size) == s[Min(lo, |s|)..Min(lo + size, |s|)]
  {
  }

  /** A page holds the rows page*size .. page*size+size-1, cut at the table's end. */
  lemma PageIsSlice<T>(s: seq<T>, page: nat, size: nat)
    ensures Page(s, page, size) == s[Min(page * size, |s|)..Min(page * size + size, |s|)]
  {
    var lo := page * size;
    SkipTakeIsSlice(s, lo, size);
    assert Page(s, page, size) == Take(Skip(s, lo), size);
  }

  /** Concatenating pages 0 .. count-1. */
  function Pages<T>(s: seq<T>, count: nat, size: nat): seq<T>
  {
    if count == 0 then [] else Pages(s, count - 1, size) + Page(s, count - 1, size)
  }

  /** The pages 0 .. count-1 together are the first count*size rows of the
      table: pages of one size are consecutive and do not overlap. */
  lemma {:induction false} PagesArePrefix<T>(s: seq<T>, count: nat, size: nat)
    ensures Pages(s, count, size) == s[..Min(count * size, |s|)]
  {
    if count > 0 {
      var lo := (count - 1) * size;
      var hi := count * size;
      MulStep(count - 1, size);
      PagesArePrefix(s, count - 1, size);
      assert hi == lo + size;
      var a := Min(lo, |s|);
      var b := Min(hi, |s|);
      assert a <= b;
      PageIsSlice(s, count - 1, size);
      assert Pages(s, count - 1, size) == s[..a];
      assert Page(s, count - 1, size) == s[a..b];
      PagesStep(s, count, size, a, b);
    }
  }

  /** Appending page count-1 to the earlier pages extends the prefix. */
  lemma PagesStep<T>(s: seq<T>, count: nat, size: nat, a: nat, b: nat)
    requires count > 0 && a <= b <= |s|
    requires Pages(s, count - 1, size) == s[..a]
    requires Page(s, count - 1, size) == s[a..b]
    ensures Pages(s, count, size) == s[..b]
  {
    assert s[..a] + s[a..b] == s[..b];
  }

  /** The product step of PagesArePrefix, kept apart so that the
      nonlinear fact stays out of that proof's context. */
  lemma MulStep(k: nat, size: nat)
    ensures (k + 1) * size == k * size + size
  {
  }

  // ---------------------------------------------------------------------
  // Strings
  // ---------------------------------------------------------------------

  /** C#'s String.Contains: `q` occurs in `s` at some position (the empty
      string occurs everywhere). */
  predicate Contains(s: string, q: string) {
    exists k :: 0 <= k <= |s| && q <= s[k..]
  }

  // ---------------------------------------------------------------------
  // 32-bit integers
  // ---------------------------------------------------------------------

  const Int32Modulus: int := 0x1_0000_0000

  predicate IsInt32(x: int) {
    -0x8000_0000 <= x < 0x8000_0000
  }

  /** The value C# keeps for an `int` expression evaluated in the default
      unchecked context: `x` reduced into the signed 32-bit range. */
  function WrapInt32(x: int): (r: int)
    ensures IsInt32(r)
    ensures (x - r) % Int32Modulus == 0
    ensures IsInt32(x) ==> r == x
  {
    var m := x % Int32Modulus;
    if m < 0x8000_0000 then m else m - Int32Modulus
  }
}
