/** Bounded and sorted sequences: what a container that drops its oldest element keeps, and the
    sort the containers use. */
module Lists {

  /** The last n elements, or all of them. */
  function LastN<T>(s: seq<T>, n: nat): (r: seq<T>)
    ensures |r| <= |s|
  {
    if |s| <= n then s else s[|s| - n..]
  }

  /** Dropping as elements arrive keeps the same elements as dropping at the end. */
  lemma LastOfLast<T>(s: seq<T>, t: seq<T>, n: nat)
    ensures LastN(LastN(s, n) + t, n) == LastN(s + t, n)
  {
    var kept := LastN(s, n);
    var all := s + t;
    assert kept == s[|s| - |kept|..];
    assert kept + t == all[|s| - |kept|..];
    Suffix(all, |s| - |kept|, n);
  }

  lemma Suffix<T>(s: seq<T>, k: nat, n: nat)
    requires k <= |s| && (k > 0 ==> |s| - k >= n)
    ensures LastN(s[k..], n) == LastN(s, n)
  {
    if |s| - k > n {
      assert s[k..][|s| - k - n..] == s[|s| - n..];
    }
  }

  lemma Regroup<T>(a: seq<T>, b: seq<T>, c: seq<T>)
    ensures (a + b) + c == a + (b + c)
  {
  }

  // ---------------------------------------------------------------------------
  // Sorting
  // ---------------------------------------------------------------------------

  function Insert<T>(less: (T, T) -> bool, x: T, s: seq<T>): seq<T> {
    if s == [] || less(x, s[0]) then [x] + s else [s[0]] + Insert(less, x, s[1..])
  }

  function SortBy<T>(less: (T, T) -> bool, s: seq<T>): seq<T> {
    if s == [] then [] else Insert(less, s[0], SortBy(less, s[1..]))
  }

  lemma {:induction false} InsertMembers<T>(less: (T, T) -> bool, x: T, s: seq<T>)
    ensures multiset(Insert(less, x, s)) == multiset{x} + multiset(s)
    ensures |Insert(less, x, s)| == |s| + 1
  {
    if s == [] || less(x, s[0]) {
    } else {
      InsertMembers(less, x, s[1..]);
      assert s == [s[0]] + s[1..];
    }
  }

  lemma {:induction false} SortMembers<T>(less: (T, T) -> bool, s: seq<T>)
    ensures multiset(SortBy(less, s)) == multiset(s)
    ensures |SortBy(less, s)| == |s|
  {
    if s != [] {
      SortMembers(less, s[1..]);
      InsertMembers(less, s[0], SortBy(less, s[1..]));
      assert s == [s[0]] + s[1..];
    }
  }

  ghost predicate StrictOrder<T(!new)>(less: (T, T) -> bool) {
    && (forall a, b :: less(a, b) ==> !less(b, a))
    && (forall a, b, c :: less(a, b) && !less(c, b) ==> less(a, c))
  }

  ghost predicate Sorted<T>(less: (T, T) -> bool, s: seq<T>) {
    forall i, j :: 0 <= i < j < |s| ==> !less(s[j], s[i])
  }

  lemma {:induction false} InsertSorted<T(!new)>(less: (T, T) -> bool, x: T, s: seq<T>)
    requires StrictOrder(less) && Sorted(less, s)
    ensures Sorted(less, Insert(less, x, s))
  {
    if s == [] || less(x, s[0]) {
      forall i | 0 <= i < |s|
        ensures !less(s[i], x)
      {
        assert i > 0 ==> !less(s[i], s[0]);
      }
    } else {
      InsertSorted(less, x, s[1..]);
      var t := Insert(less, x, s[1..]);
      InsertMembers(less, x, s[1..]);
      forall i | 0 <= i < |t|
        ensures !less(t[i], s[0])
      {
        assert t[i] in multiset(t);
        assert t[i] == x || t[i] in s[1..];
      }
    }
  }

  lemma {:induction false} SortSorted<T(!new)>(less: (T, T) -> bool, s: seq<T>)
    requires StrictOrder(less)
    ensures Sorted(less, SortBy(less, s))
  {
    hide Insert, StrictOrder;
    if s != [] {
      SortSorted(less, s[1..]);
      InsertSorted(less, s[0], SortBy(less, s[1..]));
    }
  }

  lemma LastBehind<T>(a: T, t: seq<T>, n: nat)
    requires |t| >= n
    ensures LastN([a] + t, n) == LastN(t, n)
  {
  }

  lemma LargestStart<T(!new)>(less: (T, T) -> bool, x: T, s: seq<T>, n: nat)
    requires StrictOrder(less) && Sorted(less, s) && |s| > n && less(x, s[0])
    ensures LastN(Insert(less, x, LastN(s, n)), n) == LastN(s, n)
  {
    var kept := LastN(s, n);
    assert n > 0 ==> less(x, kept[0]);
    LastBehind(x, kept, n);
  }

  /** A sorted container that drops its smallest element when full keeps the n largest of all. */
  lemma {:induction false} InsertIntoLargest<T(!new)>(less: (T, T) -> bool, x: T, s: seq<T>, n: nat)
    requires StrictOrder(less) && Sorted(less, s)
    ensures LastN(Insert(less, x, LastN(s, n)), n) == LastN(Insert(less, x, s), n)
  {
    hide StrictOrder;
    if |s| <= n {
      assert LastN(s, n) == s;
    } else if less(x, s[0]) {
      LargestStart(less, x, s, n);
      LastBehind(x, s, n);
    } else {
      var rest := s[1..];
      assert s == [s[0]] + rest;
      InsertMembers(less, x, rest);
      InsertIntoLargest(less, x, rest, n);
      LastBehind(s[0], rest, n);
      LastBehind(s[0], Insert(less, x, rest), n);
    }
  }

  /** Sorting a sorted sequence changes nothing. */
  lemma {:induction false} SortingSorted<T>(less: (T, T) -> bool, s: seq<T>)
    requires forall i, j :: 0 <= i < j < |s| ==> less(s[i], s[j])
    ensures SortBy(less, s) == s
  {
    if s != [] {
      SortingSorted(less, s[1..]);
    }
  }
}
