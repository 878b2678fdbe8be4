/**
  The order in which two styles of traversal visit a tree.  Collecting all leaves and sorting
  the list by path gives the same sequence as sorting each directory by name before
  descending into it, whatever order the directories are enumerated in.
*/
module TreeOrder {
  import opened Wrappers
  import opened Paths
  import opened Trees
  import opened Sorting

  predicate ItemLt<T>(a: Item<T>, b: Item<T>) {
    PathLt(a.path, b.path)
  }

  predicate EntryLt<T>(a: Entry<T>, b: Entry<T>) {
    NameLt(a.name, b.name)
  }

  /** All leaves, then sorted by path. */
  function SortedWalk<T>(node: Node<T>, dir: Path, skip: Path -> bool, take: (Path, T) -> bool): seq<Item<T>> {
    Sort(Walk(node, dir, skip, take), ItemLt)
  }

  /** The entries in the given order, the leaves below each of them sorted by path. */
  function EntryWise<T>(es: seq<Entry<T>>, dir: Path, skip: Path -> bool, take: (Path, T) -> bool): seq<Item<T>> {
    if es == [] then []
    else Sort(WalkEntry(es[0], dir, skip, take), ItemLt) + EntryWise(es[1..], dir, skip, take)
  }

  lemma ItemOrder<T(!new)>()
    ensures Strict<Item<T>>(ItemLt)
  {
    forall a: Item<T>, b: Item<T> | ItemLt(a, b) ensures !ItemLt(b, a) {
      PathLtTotal(a.path, b.path);
    }
    forall a: Item<T>, b: Item<T>, c: Item<T> | ItemLt(a, b) && ItemLt(b, c) ensures ItemLt(a, c) {
      PathLtTransitive(a.path, b.path, c.path);
    }
  }

  lemma EntryOrder<T(!new)>()
    ensures Strict<Entry<T>>(EntryLt)
  {
    forall a: Entry<T>, b: Entry<T> | EntryLt(a, b) ensures !EntryLt(b, a) {
      NameLtTotal(a.name, b.name);
    }
    forall a: Entry<T>, b: Entry<T>, c: Entry<T> | EntryLt(a, b) && EntryLt(b, c) ensures EntryLt(a, c) {
      NameLtTransitive(a.name, b.name, c.name);
    }
  }

  // ---------------------------------------------------------------- no path twice

  lemma EntryPaths<T>(
    e: Entry<T>, dir: Path, skip: Path -> bool, take: (Path, T) -> bool, item: Item<T>)
    returns (rel: Path)
    requires WellFormed(e.node) && item in WalkEntry(e, dir, skip, take)
    ensures item.path == dir + [e.name] + rel
  {
    rel := WalkSound(e.node, dir + [e.name], skip, take, item);
  }

  /** Leaves below different entries are ordered as the entries are. */
  lemma CrossOrder<T>(
    d: Entry<T>, e: Entry<T>, dir: Path, skip: Path -> bool, take: (Path, T) -> bool, a: Item<T>, b: Item<T>)
    requires WellFormed(d.node) && WellFormed(e.node)
    requires a in WalkEntry(d, dir, skip, take) && b in WalkEntry(e, dir, skip, take)
    ensures EntryLt(d, e) ==> ItemLt(a, b)
  {
    if EntryLt(d, e) {
      var p := EntryPaths(d, dir, skip, take, a);
      var q := EntryPaths(e, dir, skip, take, b);
      PathLtSiblings(dir, d.name, e.name, p, q);
    }
  }

  lemma ComparableConcat<T>(s: seq<T>, t: seq<T>, lt: (T, T) -> bool)
    requires Comparable(s, lt) && Comparable(t, lt)
    requires forall i, j :: 0 <= i < |s| && 0 <= j < |t| ==> lt(s[i], t[j]) || lt(t[j], s[i])
    ensures Comparable(s + t, lt)
  {
  }

  lemma {:induction false} WalkDistinct<T>(node: Node<T>, dir: Path, skip: Path -> bool, take: (Path, T) -> bool)
    requires WellFormed(node)
    ensures Comparable(Walk(node, dir, skip, take), ItemLt)
    decreases node, 1
  {
    match node
    case Leaf(x) =>
    case Dir(es) => WalkAllDistinct(es, dir, skip, take);
  }

  lemma {:induction false} WalkAllDistinct<T>(es: seq<Entry<T>>, dir: Path, skip: Path -> bool, take: (Path, T) -> bool)
    requires WellFormed(Dir(es))
    ensures Comparable(WalkAll(es, dir, skip, take), ItemLt)
    decreases es, 0
  {
    if es != [] {
      var s, t := WalkEntry(es[0], dir, skip, take), WalkAll(es[1..], dir, skip, take);
      WalkDistinct(es[0].node, dir + [es[0].name], skip, take);
      WalkAllDistinct(es[1..], dir, skip, take);
      forall i, j | 0 <= i < |s| && 0 <= j < |t| ensures ItemLt(s[i], t[j]) || ItemLt(t[j], s[i]) {
        HeadAgainstTail(es, dir, skip, take, s[i], t[j]);
      }
      ComparableConcat(s, t, ItemLt);
    }
  }

  lemma HeadAgainstTail<T>(
    es: seq<Entry<T>>, dir: Path, skip: Path -> bool, take: (Path, T) -> bool, a: Item<T>, b: Item<T>)
    requires WellFormed(Dir(es)) && es != []
    requires a in WalkEntry(es[0], dir, skip, take) && b in WalkAll(es[1..], dir, skip, take)
    ensures ItemLt(a, b) || ItemLt(b, a)
  {
    var k := WalkAllIndex(es[1..], dir, skip, take, b);
    var e := es[k + 1];
    NameLtTotal(es[0].name, e.name);
    CrossOrder(es[0], e, dir, skip, take, a, b);
    CrossOrder(e, es[0], dir, skip, take, b, a);
  }

  lemma SortedWalkIsSorted<T(!new)>(node: Node<T>, dir: Path, skip: Path -> bool, take: (Path, T) -> bool)
    requires WellFormed(node)
    ensures Sorted(SortedWalk(node, dir, skip, take), ItemLt)
    ensures SameElements(SortedWalk(node, dir, skip, take), Walk(node, dir, skip, take))
  {
    ItemOrder<T>();
    WalkDistinct(node, dir, skip, take);
    SortSorted(Walk(node, dir, skip, take), ItemLt);
    SortElements(Walk(node, dir, skip, take), ItemLt);
  }

  // ---------------------------------------------------------------- sorting each directory

  lemma SortedEntries<T(!new)>(es: seq<Entry<T>>)
    requires WellFormed(Dir(es))
    ensures Sorted(Sort(es, EntryLt), EntryLt) && SameElements(es, Sort(es, EntryLt))
  {
    EntryOrder<T>();
    forall i, j | 0 <= i < j < |es| ensures EntryLt(es[i], es[j]) || EntryLt(es[j], es[i]) {
      NameLtTotal(es[i].name, es[j].name);
    }
    SortSorted(es, EntryLt);
    SortElements(es, EntryLt);
  }

  ghost predicate AllWellFormed<T>(es: seq<Entry<T>>) {
    forall i :: 0 <= i < |es| ==> WellFormed(es[i].node)
  }

  lemma EntrySorted<T(!new)>(e: Entry<T>, dir: Path, skip: Path -> bool, take: (Path, T) -> bool)
    requires WellFormed(e.node)
    ensures Sorted(Sort(WalkEntry(e, dir, skip, take), ItemLt), ItemLt)
    ensures SameElements(WalkEntry(e, dir, skip, take), Sort(WalkEntry(e, dir, skip, take), ItemLt))
  {
    SortElements(WalkEntry(e, dir, skip, take), ItemLt);
    SortedWalkIsSorted(e.node, dir + [e.name], skip, take);
  }

  lemma {:induction false} EntryWiseElements<T(!new)>(
    es: seq<Entry<T>>, dir: Path, skip: Path -> bool, take: (Path, T) -> bool)
    ensures SameElements(WalkAll(es, dir, skip, take), EntryWise(es, dir, skip, take))
    decreases |es|
  {
    if es != [] {
      SortElements(WalkEntry(es[0], dir, skip, take), ItemLt);
      EntryWiseElements(es[1..], dir, skip, take);
    }
  }

  lemma {:induction false} EntryWiseSorted<T(!new)>(
    es: seq<Entry<T>>, dir: Path, skip: Path -> bool, take: (Path, T) -> bool)
    requires Sorted(es, EntryLt) && AllWellFormed(es)
    ensures Sorted(EntryWise(es, dir, skip, take), ItemLt)
    decreases |es|
  {
    if es != [] {
      var s, t := Sort(WalkEntry(es[0], dir, skip, take), ItemLt), EntryWise(es[1..], dir, skip, take);
      EntrySorted(es[0], dir, skip, take);
      EntryWiseSorted(es[1..], dir, skip, take);
      EntryWiseElements(es[1..], dir, skip, take);
      forall a, b | a in s && b in t ensures ItemLt(a, b) {
        var k := WalkAllIndex(es[1..], dir, skip, take, b);
        assert EntryLt(es[0], es[k + 1]);
        CrossOrder(es[0], es[k + 1], dir, skip, take, a, b);
      }
      SortedConcat(s, t, ItemLt);
    }
  }

  /** Sorting each directory and then descending visits the leaves in path order. */
  lemma SortEachDirectory<T(!new)>(es: seq<Entry<T>>, dir: Path, skip: Path -> bool, take: (Path, T) -> bool)
    requires WellFormed(Dir(es))
    ensures EntryWise(Sort(es, EntryLt), dir, skip, take) == SortedWalk(Dir(es), dir, skip, take)
  {
    var ordered := Sort(es, EntryLt);
    SortedEntries(es);
    assert AllWellFormed(ordered) by {
      forall i | 0 <= i < |ordered| ensures WellFormed(ordered[i].node) {
        assert ordered[i] in ordered;
        assert ordered[i] in es;
      }
    }
    EntryWiseSorted(ordered, dir, skip, take);
    EntryWiseElements(ordered, dir, skip, take);
    WalkAllElements(es, ordered, dir, skip, take);
    WalkAllElements(ordered, es, dir, skip, take);
    SortedWalkIsSorted(Dir(es), dir, skip, take);
    ItemOrder<T>();
    SortedUnique(EntryWise(ordered, dir, skip, take), SortedWalk(Dir(es), dir, skip, take), ItemLt);
  }

  lemma WalkAllElements<T(!new)>(
    es: seq<Entry<T>>, ds: seq<Entry<T>>, dir: Path, skip: Path -> bool, take: (Path, T) -> bool)
    requires forall e :: e in es ==> e in ds
    ensures forall x :: x in WalkAll(es, dir, skip, take) ==> x in WalkAll(ds, dir, skip, take)
  {
    forall x | x in WalkAll(es, dir, skip, take) ensures x in WalkAll(ds, dir, skip, take) {
      var i := WalkAllIndex(es, dir, skip, take, x);
      assert es[i] in es;
      var k :| 0 <= k < |ds| && ds[k] == es[i];
      WalkAllContains(ds, dir, skip, take, k, x);
    }
  }

  // ---------------------------------------------------------------- enumeration order

  /** The same leaves at the same paths, in whatever enumeration order. */
  ghost predicate SameTree<T(!new)>(a: Node<T>, b: Node<T>) {
    forall p :: Lookup(a, p) == Lookup(b, p)
  }

  lemma SubWalk<T(!new)>(a: Node<T>, b: Node<T>, dir: Path, skip: Path -> bool, take: (Path, T) -> bool)
    requires WellFormed(a) && WellFormed(b) && SameTree(a, b)
    ensures forall x :: x in Walk(a, dir, skip, take) ==> x in Walk(b, dir, skip, take)
  {
    forall x | x in Walk(a, dir, skip, take) ensures x in Walk(b, dir, skip, take) {
      var rel := WalkSound(a, dir, skip, take, x);
      WalkComplete(b, dir, rel, x.payload, skip, take);
    }
  }

  /** The sorted walk depends only on which leaf is at which path. */
  lemma EnumerationOrderIsIrrelevant<T(!new)>(
    a: Node<T>, b: Node<T>, dir: Path, skip: Path -> bool, take: (Path, T) -> bool)
    requires WellFormed(a) && WellFormed(b) && SameTree(a, b)
    ensures SortedWalk(a, dir, skip, take) == SortedWalk(b, dir, skip, take)
  {
    SubWalk(a, b, dir, skip, take);
    SubWalk(b, a, dir, skip, take);
    SortedWalkIsSorted(a, dir, skip, take);
    SortedWalkIsSorted(b, dir, skip, take);
    ItemOrder<T>();
    SortedUnique(SortedWalk(a, dir, skip, take), SortedWalk(b, dir, skip, take), ItemLt);
  }
}
