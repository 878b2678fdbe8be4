/**
  Sorting by a strict order.  A strictly sorted sequence is determined by its elements, so
  on distinct keys every sorting algorithm returns what this one returns.
*/
module Sorting {

  function Sort<T>(s: seq<T>, lt: (T, T) -> bool): seq<T> {
    if s == [] then [] else Insert(s[0], Sort(s[1..], lt), lt)
  }

  function Insert<T>(x: T, s: seq<T>, lt: (T, T) -> bool): seq<T> {
    if s == [] || lt(x, s[0]) then [x] + s else [s[0]] + Insert(x, s[1..], lt)
  }

  ghost predicate Strict<T(!new)>(lt: (T, T) -> bool) {
    && (forall a, b :: lt(a, b) ==> !lt(b, a))
    && (forall a, b, c :: lt(a, b) && lt(b, c) ==> lt(a, c))
  }

  ghost predicate Sorted<T>(s: seq<T>, lt: (T, T) -> bool) {
    forall i, j :: 0 <= i < j < |s| ==> lt(s[i], s[j])
  }

  /** Any two entries have comparable keys; in particular no key occurs twice. */
  ghost predicate Comparable<T>(s: seq<T>, lt: (T, T) -> bool) {
    forall i, j :: 0 <= i < j < |s| ==> lt(s[i], s[j]) || lt(s[j], s[i])
  }

  ghost predicate SameElements<T>(s: seq<T>, t: seq<T>) {
    (forall x :: x in s ==> x in t) && (forall x :: x in t ==> x in s)
  }

  lemma {:induction false} InsertElements<T>(x: T, s: seq<T>, lt: (T, T) -> bool)
    ensures |Insert(x, s, lt)| == |s| + 1
    ensures forall y :: y in Insert(x, s, lt) <==> y == x || y in s
    decreases |s|
  {
    if s != [] && !lt(x, s[0]) {
      InsertElements(x, s[1..], lt);
      assert s == [s[0]] + s[1..];
    }
  }

  lemma {:induction false} InsertSorted<T(!new)>(x: T, s: seq<T>, lt: (T, T) -> bool)
    requires Strict(lt) && Sorted(s, lt)
    requires forall i :: 0 <= i < |s| ==> lt(x, s[i]) || lt(s[i], x)
    ensures Sorted(Insert(x, s, lt), lt)
    decreases |s|
  {
    if s == [] || lt(x, s[0]) {
      assert forall i :: 0 <= i < |s| ==> lt(x, s[i]);
    } else {
      var r := Insert(x, s[1..], lt);
      InsertSorted(x, s[1..], lt);
      InsertElements(x, s[1..], lt);
      forall i | 0 <= i < |r| ensures lt(s[0], r[i]) {
        assert r[i] in r;
      }
    }
  }

  lemma {:induction false} SortElements<T(!new)>(s: seq<T>, lt: (T, T) -> bool)
    ensures |Sort(s, lt)| == |s| && SameElements(s, Sort(s, lt))
    decreases |s|
  {
    if s != [] {
      var t := Sort(s[1..], lt);
      SortElements(s[1..], lt);
      InsertElements(s[0], t, lt);
      forall x ensures x in s <==> x in Sort(s, lt) {
        assert s == [s[0]] + s[1..];
        assert x in s[1..] <==> x in t;
      }
    }
  }

  lemma {:induction false} SortSorted<T(!new)>(s: seq<T>, lt: (T, T) -> bool)
    requires Strict(lt) && Comparable(s, lt)
    ensures Sorted(Sort(s, lt), lt)
    decreases |s|
  {
    if s != [] {
      var t := Sort(s[1..], lt);
      SortSorted(s[1..], lt);
      SortElements(s[1..], lt);
      forall i | 0 <= i < |t| ensures lt(s[0], t[i]) || lt(t[i], s[0]) {
        assert t[i] in t;
        assert t[i] in s[1..];
        var k :| 0 <= k < |s| - 1 && s[1..][k] == t[i];
        assert s[k + 1] == t[i];
      }
      InsertSorted(s[0], t, lt);
    }
  }

  lemma HeadIsElement<T>(s: seq<T>)
    ensures s == [] || s[0] in s
  {
  }

  lemma {:induction false} HeadIsLeast<T(!new)>(s: seq<T>, lt: (T, T) -> bool, x: T)
    requires Sorted(s, lt) && x in s
    ensures x == s[0] || lt(s[0], x)
  {
    var k :| 0 <= k < |s| && s[k] == x;
  }

  /** Strictly sorted sequences with the same elements are equal. */
  lemma {:induction false} SortedUnique<T(!new)>(s: seq<T>, t: seq<T>, lt: (T, T) -> bool)
    requires Strict(lt) && Sorted(s, lt) && Sorted(t, lt) && SameElements(s, t)
    ensures s == t
    decreases |s|
  {
    if s == [] || t == [] {
      HeadIsElement(s);
      HeadIsElement(t);
    } else {
      assert s[0] in s;
      assert t[0] in t;
      HeadIsLeast(t, lt, s[0]);
      HeadIsLeast(s, lt, t[0]);
      assert s[0] == t[0];
      TailElements(s, t, lt);
      TailElements(t, s, lt);
      SortedUnique(s[1..], t[1..], lt);
      assert s == [s[0]] + s[1..] && t == [t[0]] + t[1..];
    }
  }

  lemma TailElements<T(!new)>(s: seq<T>, t: seq<T>, lt: (T, T) -> bool)
    requires Strict(lt) && Sorted(s, lt) && SameElements(s, t) && s != [] && t != [] && s[0] == t[0]
    ensures forall x :: x in s[1..] ==> x in t[1..]
  {
    forall x | x in s[1..] ensures x in t[1..] {
      var k :| 0 <= k < |s| - 1 && s[1..][k] == x;
      assert lt(s[0], s[k + 1]);
      assert x in s;
      assert t == [t[0]] + t[1..];
    }
  }

  lemma {:induction false} SortedConcat<T(!new)>(s: seq<T>, t: seq<T>, lt: (T, T) -> bool)
    requires Sorted(s, lt) && Sorted(t, lt)
    requires forall a, b :: a in s && b in t ==> lt(a, b)
    ensures Sorted(s + t, lt)
  {
  }
}
