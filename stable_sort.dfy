/**
 * Python's `list.sort(key=...)`, which the photo fetcher calls on the album and
 * image records. The library sort is stable: elements whose keys compare equal
 * keep their listing order. It is modelled by insertion sort under a comparison
 * `le(a, b)` meaning "the key of `a` is not greater than the key of `b`", and
 * proved sorted, a permutation of its input, and stable.
 */
module StableSort {

  ghost predicate Total<T(!new)>(le: (T, T) -> bool) {
    forall a, b :: le(a, b) || le(b, a)
  }

  ghost predicate Transitive<T(!new)>(le: (T, T) -> bool) {
    forall a, b, c :: le(a, b) && le(b, c) ==> le(a, c)
  }

  /** The comparison induced by a key with a total order. */
  ghost predicate TotalPreorder<T(!new)>(le: (T, T) -> bool) {
    Total(le) && Transitive(le)
  }

  predicate SortedBy<T>(s: seq<T>, le: (T, T) -> bool) {
    forall i, j :: 0 <= i < j < |s| ==> le(s[i], s[j])
  }

  /** `a` and `b` have equal keys. */
  predicate Equivalent<T>(le: (T, T) -> bool, a: T, b: T) {
    le(a, b) && le(b, a)
  }

  /** The elements of `s` whose key equals the key of `x`, in the order of `s`. */
  function Ties<T>(s: seq<T>, le: (T, T) -> bool, x: T): (r: seq<T>)
    ensures |r| <= |s|
  {
    if s == [] then []
    else if Equivalent(le, x, s[0]) then [s[0]] + Ties(s[1..], le, x)
    else Ties(s[1..], le, x)
  }

  /** Puts `x` before the first element whose key is not smaller than its own. */
  function Insert<T>(x: T, s: seq<T>, le: (T, T) -> bool): (r: seq<T>)
    ensures multiset(r) == multiset(s) + multiset{x}
  {
    if s == [] then [x]
    else if le(x, s[0]) then [x] + s
    else
      assert s == [s[0]] + s[1..];
      [s[0]] + Insert(x, s[1..], le)
  }

  /** The stable sort of `s`. */
  function SortBy<T>(s: seq<T>, le: (T, T) -> bool): (r: seq<T>)
    ensures multiset(r) == multiset(s)
  {
    if s == [] then []
    else
      assert s == [s[0]] + s[1..];
      Insert(s[0], SortBy(s[1..], le), le)
  }

  lemma SortByLength<T>(s: seq<T>, le: (T, T) -> bool)
    ensures |SortBy(s, le)| == |s|
  {
    assert |multiset(SortBy(s, le))| == |multiset(s)|;
  }

  lemma {:induction false} InsertSorted<T(!new)>(x: T, s: seq<T>, le: (T, T) -> bool)
    requires TotalPreorder(le)
    requires SortedBy(s, le)
    ensures SortedBy(Insert(x, s, le), le)
  {
    if s != [] && !le(x, s[0]) {
      var t := Insert(x, s[1..], le);
      InsertSorted(x, s[1..], le);
      forall j | 0 <= j < |t| ensures le(s[0], t[j]) {
        assert t[j] in multiset(t);
        if t[j] != x {
          assert t[j] in multiset(s[1..]);
          var k :| 0 <= k < |s[1..]| && s[1..][k] == t[j];
          assert s[k + 1] == t[j];
        }
      }
      assert Insert(x, s, le) == [s[0]] + t;
    }
  }

  /** The sort orders its result by key. */
  lemma {:induction false} SortBySorted<T(!new)>(s: seq<T>, le: (T, T) -> bool)
    requires TotalPreorder(le)
    ensures SortedBy(SortBy(s, le), le)
  {
    if s != [] {
      SortBySorted(s[1..], le);
      InsertSorted(s[0], SortBy(s[1..], le), le);
    }
  }

  /** Two elements with the key of `x` are ordered both ways. */
  lemma TiesCompare<T(!new)>(le: (T, T) -> bool, x: T, y: T, z: T)
    requires Transitive(le)
    ensures Equivalent(le, x, y) && Equivalent(le, x, z) ==> le(y, z)
  {
  }

  lemma {:induction false} InsertTies<T(!new)>(y: T, s: seq<T>, le: (T, T) -> bool, x: T)
    requires Transitive(le)
    ensures Ties(Insert(y, s, le), le, x) ==
      if Equivalent(le, x, y) then [y] + Ties(s, le, x) else Ties(s, le, x)
  {
    if s == [] {
      assert Insert(y, s, le) == [y];
      assert [y][1..] == [];
    } else if le(y, s[0]) {
      assert Insert(y, s, le) == [y] + s;
      assert ([y] + s)[1..] == s;
    } else {
      var t := Insert(y, s[1..], le);
      assert Insert(y, s, le) == [s[0]] + t;
      assert ([s[0]] + t)[1..] == t;
      InsertTies(y, s[1..], le, x);
      // s[0] comes before y, so its key is smaller and it is not a tie of x
      TiesCompare(le, x, y, s[0]);
    }
  }

  /** Stability: the elements with any one key keep their listing order. */
  lemma {:induction false} SortByStable<T(!new)>(s: seq<T>, le: (T, T) -> bool, x: T)
    requires TotalPreorder(le)
    ensures Ties(SortBy(s, le), le, x) == Ties(s, le, x)
  {
    if s != [] {
      SortByStable(s[1..], le, x);
      InsertTies(s[0], SortBy(s[1..], le), le, x);
    }
  }
}
