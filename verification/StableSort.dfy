/**
 The stable sort of `Array.prototype.sort`. A comparator returns a negative
 number when its first argument comes first, a positive one when its second
 does, and 0 when neither must.
 */
module StableSort {

  /** What a comparator must satisfy for the sorted order to be defined at all. */
  ghost predicate Consistent<T(!new)>(compare: (T, T) -> int) {
    && (forall a, b :: compare(a, b) < 0 <==> compare(b, a) > 0)
    && (forall a, b, c :: compare(a, b) <= 0 && compare(b, c) <= 0 ==> compare(a, c) <= 0)
  }

  ghost predicate Sorted<T>(compare: (T, T) -> int, s: seq<T>) {
    forall i, j | 0 <= i < j < |s| :: compare(s[i], s[j]) <= 0
  }

  /** The elements that tie with `like`, in their order of appearance. */
  function Ties<T>(compare: (T, T) -> int, s: seq<T>, like: T): seq<T> {
    if s == [] then []
    else if compare(s[0], like) == 0 then [s[0]] + Ties(compare, s[1..], like)
    else Ties(compare, s[1..], like)
  }

  /** `sorted` is a stable sort of `s`: ordered, and each class of ties keeps its elements and their order. */
  ghost predicate IsStableSort<T(!new)>(compare: (T, T) -> int, s: seq<T>, sorted: seq<T>) {
    Sorted(compare, sorted) && forall x :: Ties(compare, sorted, x) == Ties(compare, s, x)
  }

  /** Places `x` before every element it must not follow. */
  function Insert<T>(compare: (T, T) -> int, x: T, s: seq<T>): (r: seq<T>)
    ensures multiset(r) == multiset(s) + multiset{x}
  {
    if s == [] then [x]
    else if compare(x, s[0]) <= 0 then [x] + s
    else
      assert s == [s[0]] + s[1..];
      [s[0]] + Insert(compare, x, s[1..])
  }

  function Sort<T>(compare: (T, T) -> int, s: seq<T>): (r: seq<T>)
    ensures multiset(r) == multiset(s)
  {
    if s == [] then []
    else
      assert s == [s[0]] + s[1..];
      Insert(compare, s[0], Sort(compare, s[1..]))
  }

  lemma {:induction false} InsertIsSorted<T(!new)>(compare: (T, T) -> int, x: T, s: seq<T>)
    requires Consistent(compare) && Sorted(compare, s)
    ensures Sorted(compare, Insert(compare, x, s))
  {
    if s == [] {
    } else if compare(x, s[0]) <= 0 {
      forall j | 0 <= j < |s| ensures compare(x, s[j]) <= 0 {
        if j > 0 { assert compare(s[0], s[j]) <= 0; }
      }
    } else {
      var rest := Insert(compare, x, s[1..]);
      InsertIsSorted(compare, x, s[1..]);
      forall i | 0 <= i < |rest| ensures compare(s[0], rest[i]) <= 0 {
        assert rest[i] in multiset(rest);
        assert rest[i] == x || rest[i] in s[1..];
      }
    }
  }

  lemma {:induction false} InsertKeepsTies<T(!new)>(compare: (T, T) -> int, x: T, s: seq<T>, like: T)
    requires Consistent(compare)
    ensures Ties(compare, Insert(compare, x, s), like) == Ties(compare, [x] + s, like)
  {
    assert ([x] + s)[1..] == s;
    if s != [] && compare(x, s[0]) > 0 {
      var rest := Insert(compare, x, s[1..]);
      InsertKeepsTies(compare, x, s[1..], like);
      assert ([x] + s[1..])[1..] == s[1..];
      assert ([s[0]] + rest)[1..] == rest;
      // the two cannot both tie with `like`
      assert compare(s[0], like) == 0 ==> compare(like, s[0]) <= 0;
    }
  }

  lemma {:induction false} SortIsStable<T(!new)>(compare: (T, T) -> int, s: seq<T>)
    requires Consistent(compare)
    ensures IsStableSort(compare, s, Sort(compare, s))
  {
    if s != [] {
      SortIsStable(compare, s[1..]);
      var rest := Sort(compare, s[1..]);
      InsertIsSorted(compare, s[0], rest);
      forall x ensures Ties(compare, Sort(compare, s), x) == Ties(compare, s, x) {
        InsertKeepsTies(compare, s[0], rest, x);
        assert ([s[0]] + rest)[1..] == rest;
      }
    }
  }

  lemma {:induction false} TiesMember<T(!new)>(compare: (T, T) -> int, s: seq<T>, like: T) returns (i: nat)
    requires Ties(compare, s, like) != []
    ensures i < |s| && compare(s[i], like) == 0
  {
    if compare(s[0], like) == 0 { i := 0; } else { var j := TiesMember(compare, s[1..], like); i := j + 1; }
  }

  /** There is only one stable sort: whatever algorithm the engine uses returns `Sort`. */
  lemma {:induction false} StableSortIsUnique<T(!new)>(compare: (T, T) -> int, s: seq<T>, a: seq<T>, b: seq<T>)
    requires Consistent(compare) && IsStableSort(compare, s, a) && IsStableSort(compare, s, b)
    ensures a == b
    decreases |a|
  {
    assert a != [] ==> Ties(compare, a, a[0]) == Ties(compare, b, a[0]);
    assert b != [] ==> Ties(compare, b, b[0]) == Ties(compare, a, b[0]);
    if a != [] && b != [] {
      assert Ties(compare, a, a[0]) == Ties(compare, b, a[0]);
      assert Ties(compare, a, b[0]) == Ties(compare, b, b[0]);
      var i := TiesMember(compare, b, a[0]);
      var j := TiesMember(compare, a, b[0]);
      assert compare(b[0], b[i]) <= 0 && compare(a[0], a[j]) <= 0;
      assert a[0] == Ties(compare, a, a[0])[0] == b[0];
      forall x ensures Ties(compare, a[1..], x) == Ties(compare, b[1..], x) {
        assert Ties(compare, a, x) == Ties(compare, b, x);
        if compare(a[0], x) == 0 {
          assert Ties(compare, a[1..], x) == Ties(compare, a, x)[1..];
          assert Ties(compare, b[1..], x) == Ties(compare, b, x)[1..];
        }
      }
      StableSortIsUnique(compare, a[1..], a[1..], b[1..]);
    }
  }

  function Map<T, U>(f: T -> U, s: seq<T>): (r: seq<U>)
    ensures |r| == |s| && forall i :: 0 <= i < |s| ==> r[i] == f(s[i])
  {
    if s == [] then [] else [f(s[0])] + Map(f, s[1..])
  }

  lemma {:induction false} InsertCommutesWithMap<T, U>(f: T -> U, before: (T, T) -> int, after: (U, U) -> int, x: T, s: seq<T>)
    requires forall a, b :: before(a, b) == after(f(a), f(b))
    ensures Insert(after, f(x), Map(f, s)) == Map(f, Insert(before, x, s))
  {
    if s == [] {
      assert [x][1..] == [];
    } else if before(x, s[0]) <= 0 {
      assert ([x] + s)[1..] == s;
    } else {
      InsertCommutesWithMap(f, before, after, x, s[1..]);
      var rest := Insert(before, x, s[1..]);
      assert ([s[0]] + rest)[1..] == rest && Map(f, s)[1..] == Map(f, s[1..]);
    }
  }

  /** Sorting images by a key their originals already have is sorting the originals. */
  lemma {:induction false} SortCommutesWithMap<T, U>(f: T -> U, before: (T, T) -> int, after: (U, U) -> int, s: seq<T>)
    requires forall a, b :: before(a, b) == after(f(a), f(b))
    ensures Sort(after, Map(f, s)) == Map(f, Sort(before, s))
  {
    if s != [] {
      assert Map(f, s)[1..] == Map(f, s[1..]);
      SortCommutesWithMap(f, before, after, s[1..]);
      InsertCommutesWithMap(f, before, after, s[0], Sort(before, s[1..]));
    }
  }
}
