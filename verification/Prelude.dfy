/** Types and orders shared by every part of the model. */
module Prelude {

  datatype Option<+T> = None | Some(value: T)

  /** Go's uint32. */
  type UInt32 = x: int | 0 <= x < 0x1_0000_0000

  /** Go's int64. */
  type Int64 = x: int | -0x8000_0000_0000_0000 <= x < 0x8000_0000_0000_0000

  /** The int64 value left by arithmetic that wraps around at 64 bits. */
  function Wrap64(x: int): Int64 {
    (x + 0x8000_0000_0000_0000) % 0x1_0000_0000_0000_0000 - 0x8000_0000_0000_0000
  }

  /** Wrapping an addend early does not change a wrapped sum. */
  lemma WrapAbsorbs(a: int, b: int)
    ensures Wrap64(Wrap64(a) + b) == Wrap64(a + b)
    ensures Wrap64(b + Wrap64(a)) == Wrap64(a + b)
  {
    var q := (a + 0x8000_0000_0000_0000) / 0x1_0000_0000_0000_0000;
    assert a == Wrap64(a) + 0x1_0000_0000_0000_0000 * q;
    assert a + b == (Wrap64(a) + b) + 0x1_0000_0000_0000_0000 * q;
  }

  /** Wrapped sums stay in agreement when one adds a part that the other adds wrapped. */
  lemma WrapStep(x: int, a: int, x': int, a': int, b: int)
    requires Wrap64(x) == Wrap64(a) && x' == x + Wrap64(b) && a' == a + b
    ensures Wrap64(x') == Wrap64(a')
  {
    WrapAbsorbs(b, x);
    WrapAbsorbs(x, b);
    WrapAbsorbs(a, b);
  }

  /** Some member of a non-empty set. */
  ghost function Pick<T>(s: set<T>): (x: T)
    requires s != {}
    ensures x in s
  {
    var x :| x in s;
    x
  }

  lemma {:induction false} SomeListing<T>(s: set<T>) returns (r: seq<T>)
    ensures NoDup(r) && forall x :: x in r <==> x in s
    decreases s
  {
    if s == {} {
      r := [];
    } else {
      var x := Pick(s);
      r := SomeListing(s - {x});
      r := r + [x];
    }
  }

  /** The next key of a map iteration: any key not visited yet. */
  method NextKey<T(==)>(pending: set<T>) returns (x: T)
    requires pending != {}
    ensures x in pending
  {
    x :| x in pending;
  }

  predicate NoDup<T(==)>(s: seq<T>) {
    forall i, j | 0 <= i < j < |s| :: s[i] != s[j]
  }

  lemma NoDupTogether<T>(a: seq<T>, b: seq<T>)
    ensures NoDup(a + b) <==> NoDup(a) && NoDup(b) && forall x :: !(x in a && x in b)
  {
    var c := a + b;
    assert forall i | 0 <= i < |b| :: c[|a| + i] == b[i];
    if x :| x in a && x in b {
      var i :| 0 <= i < |a| && a[i] == x;
      var j :| 0 <= j < |b| && b[j] == x;
      assert c[i] == c[|a| + j];
    }
    if !NoDup(b) {
      var i, j :| 0 <= i < j < |b| && b[i] == b[j];
      assert c[|a| + i] == c[|a| + j];
    }
    if !NoDup(a) {
      var i, j :| 0 <= i < j < |a| && a[i] == a[j];
      assert c[i] == c[j];
    }
    if NoDup(a) && NoDup(b) && forall x :: !(x in a && x in b) {
      forall i, j | 0 <= i < j < |c| ensures c[i] != c[j] {
        assert i < |a| ==> c[i] in a;
        assert |a| <= j ==> c[j] in b;
      }
    }
  }
}

/** What the sort package promises, and what a listing in strict order determines. */
module Sorting {

  /** A strict weak order: what sort.Slice asks of its comparison. */
  ghost predicate Ordering<T(!new)>(less: (T, T) -> bool) {
    && (forall x, y :: less(x, y) ==> !less(y, x))
    && (forall x, y, z :: less(x, y) ==> less(x, z) || less(z, y))
  }

  ghost predicate Sorted<T>(s: seq<T>, less: (T, T) -> bool) {
    forall i, j | 0 <= i < j < |s| :: !less(s[j], s[i])
  }

  ghost predicate Ascending<T>(s: seq<T>, less: (T, T) -> bool) {
    forall i, j | 0 <= i < j < |s| :: less(s[i], s[j])
  }

  /** No two positions of s are ties under less. */
  ghost predicate Comparable<T>(s: seq<T>, less: (T, T) -> bool) {
    forall i, j | 0 <= i < j < |s| :: less(s[i], s[j]) || less(s[j], s[i])
  }

  lemma WithoutPlace<T>(s: seq<T>, i: nat)
    requires i < |s|
    ensures multiset(s[..i] + s[i + 1..]) == multiset(s) - multiset{s[i]}
  {
    assert s == s[..i] + [s[i]] + s[i + 1..];
  }

  lemma AscendingPrefix<T>(s: seq<T>, n: nat, less: (T, T) -> bool)
    requires Ascending(s, less) && n <= |s|
    ensures Ascending(s[..n], less)
  {
  }

  function Insert<T>(x: T, s: seq<T>, less: (T, T) -> bool): (r: seq<T>)
    ensures multiset(r) == multiset(s) + multiset{x}
  {
    if s == [] || less(x, s[0]) then
      assert [x] + s == [x] + s[..];
      [x] + s
    else
      assert s == [s[0]] + s[1..];
      [s[0]] + Insert(x, s[1..], less)
  }

  lemma {:induction false} InsertKeepsSorted<T(!new)>(x: T, s: seq<T>, less: (T, T) -> bool)
    requires Ordering(less) && Sorted(s, less)
    ensures Sorted(Insert(x, s, less), less)
  {
    if s == [] {
    } else if less(x, s[0]) {
      forall j | 0 <= j < |s| ensures !less(s[j], x) {
        assert j == 0 || !less(s[j], s[0]);
      }
    } else {
      InsertKeepsSorted(x, s[1..], less);
      var rest := Insert(x, s[1..], less);
      forall j | 0 <= j < |rest| ensures !less(rest[j], s[0]) {
        assert rest[j] in multiset(rest);
        assert rest[j] in multiset(s[1..]) + multiset{x};
        if rest[j] != x {
          assert rest[j] in s[1..];
        }
      }
    }
  }

  lemma TwiceMeansTwoPlaces<T>(s: seq<T>, x: T)
    requires multiset(s)[x] >= 2
    ensures exists i, j :: 0 <= i < j < |s| && s[i] == s[j] == x
  {
    assert s == [s[0]] + s[1..];
    if s[0] == x {
      assert x in multiset(s[1..]);
      var j :| 1 <= j < |s| && s[j] == x;
      assert s[0] == s[j] == x;
    } else {
      TwiceMeansTwoPlaces(s[1..], x);
      var i, j :| 0 <= i < j < |s[1..]| && s[1..][i] == s[1..][j] == x;
      assert s[i + 1] == s[j + 1] == x;
    }
  }

  /** A sorted rearrangement of values without ties is in strict order. */
  lemma WithoutTiesAscending<T(!new)>(s: seq<T>, r: seq<T>, less: (T, T) -> bool)
    requires Ordering(less) && Sorted(r, less) && multiset(r) == multiset(s) && Comparable(s, less)
    ensures Ascending(r, less)
  {
    forall i, j | 0 <= i < j < |r| ensures less(r[i], r[j]) {
      assert r[i] in multiset(s) && r[j] in multiset(s) by {
        assert r[i] in multiset(r) && r[j] in multiset(r);
      }
      if r[i] == r[j] {
        assert r == r[..j] + [r[j]] + r[j + 1..];
        assert r[i] in r[..j];
        assert multiset(r)[r[i]] >= 2;
        TwiceMeansTwoPlaces(s, r[i]);
        assert false;
      } else {
        var a :| 0 <= a < |s| && s[a] == r[i];
        var b :| 0 <= b < |s| && s[b] == r[j];
      }
    }
  }

  /** sort.Slice: any rearrangement in order; the order of ties is not promised. */
  method SortSlice<T(!new)>(s: seq<T>, less: (T, T) -> bool) returns (r: seq<T>)
    requires Ordering(less)
    ensures multiset(r) == multiset(s)
    ensures Sorted(r, less)
    ensures Comparable(s, less) ==> Ascending(r, less)
  {
    r := [];
    for n := 0 to |s|
      invariant multiset(r) == multiset(s[..n])
      invariant Sorted(r, less)
    {
      assert s[..n + 1] == s[..n] + [s[n]];
      InsertKeepsSorted(s[n], r, less);
      r := Insert(s[n], r, less);
    }
    assert s[..|s|] == s;
    if Comparable(s, less) {
      WithoutTiesAscending(s, r, less);
    }
  }

  /** Every sequence has a sorted rearrangement. */
  lemma {:induction false} SomeSorting<T(!new)>(s: seq<T>, less: (T, T) -> bool)
    requires Ordering(less)
    ensures exists r :: IsSorting(r, s, less)
  {
    if s == [] {
      assert IsSorting([], s, less);
    } else {
      SomeSorting(s[1..], less);
      var rest :| IsSorting(rest, s[1..], less);
      assert s == [s[0]] + s[1..];
      InsertKeepsSorted(s[0], rest, less);
      var r := Insert(s[0], rest, less);
      if Comparable(s, less) {
        WithoutTiesAscending(s, r, less);
      }
      assert IsSorting(r, s, less);
    }
  }

  /** r is what sort.Slice may make of s. */
  ghost predicate IsSorting<T(!new)>(r: seq<T>, s: seq<T>, less: (T, T) -> bool) {
    multiset(r) == multiset(s) && Sorted(r, less) && (Comparable(s, less) ==> Ascending(r, less))
  }

  /** A listing in strict order is determined by what it lists. */
  lemma {:induction false} ListingUnique<T(!new)>(s: seq<T>, t: seq<T>, less: (T, T) -> bool)
    requires Ordering(less) && Ascending(s, less) && Ascending(t, less)
    requires forall x :: x in s <==> x in t
    ensures s == t
  {
    assert t == [] || t[0] in s;
    if s == [] {
    } else {
      assert s[0] in s && s[0] in t;
      assert t[0] in t && t[0] in s;
      var k :| 0 <= k < |t| && t[k] == s[0];
      var j :| 0 <= j < |s| && s[j] == t[0];
      assert s[0] == t[0];
      forall x ensures x in s[1..] <==> x in t[1..] {
        if x in s[1..] {
          assert x in s;
          assert x != s[0] by {
            assert less(s[0], x);
          }
        }
        if x in t[1..] {
          assert x in t;
          assert x != t[0] by {
            assert less(t[0], x);
          }
        }
      }
      ListingUnique(s[1..], t[1..], less);
    }
  }

  /** Go's byte-wise string comparison. */
  predicate StringLess(a: string, b: string) {
    if b == [] then false
    else if a == [] then true
    else if a[0] != b[0] then a[0] < b[0]
    else StringLess(a[1..], b[1..])
  }

  /** The first difference decides; a proper prefix comes first. */
  lemma {:induction false} FirstDifferenceDecides(p: string, x: char, a: string, y: char, b: string)
    requires x < y
    ensures StringLess(p + [x] + a, p + [y] + b) && StringLess(p, p + [y] + b)
  {
    if p == [] {
      assert [] + [x] + a == [x] + a && [] + [y] + b == [y] + b;
    } else {
      FirstDifferenceDecides(p[1..], x, a, y, b);
      assert (p + [x] + a)[1..] == p[1..] + [x] + a && (p + [y] + b)[1..] == p[1..] + [y] + b;
    }
  }

  lemma {:induction false} StringLessAsymmetric(a: string, b: string)
    ensures StringLess(a, b) ==> !StringLess(b, a)
    ensures a != b ==> StringLess(a, b) || StringLess(b, a)
  {
    if a != [] && b != [] && a[0] == b[0] {
      StringLessAsymmetric(a[1..], b[1..]);
      if a != b {
        assert a == [a[0]] + a[1..] && b == [b[0]] + b[1..];
      }
    }
  }

  lemma {:induction false} StringLessBetween(a: string, b: string, c: string)
    requires StringLess(a, b)
    ensures StringLess(a, c) || StringLess(c, b)
  {
    if a != [] && b != [] && c != [] && a[0] == b[0] == c[0] {
      StringLessBetween(a[1..], b[1..], c[1..]);
    }
  }

  lemma StringOrder()
    ensures Ordering(StringLess)
    ensures forall a: string, b: string :: a != b ==> StringLess(a, b) || StringLess(b, a)
  {
    forall a: string, b: string ensures StringLess(a, b) ==> !StringLess(b, a)
      ensures a != b ==> StringLess(a, b) || StringLess(b, a) {
      StringLessAsymmetric(a, b);
    }
    forall a: string, b: string, c: string | StringLess(a, b)
      ensures StringLess(a, c) || StringLess(c, b) {
      StringLessBetween(a, b, c);
    }
  }

  predicate IntLess(a: int, b: int) { a < b }

  lemma IntListingUnique(s: seq<int>, t: seq<int>)
    requires Ascending(s, IntLess) && Ascending(t, IntLess)
    requires forall x :: x in s <==> x in t
    ensures s == t
  {
    assert forall x: int :: (x in s) == (x in t);
    ListingUnique(s, t, IntLess);
  }
}
