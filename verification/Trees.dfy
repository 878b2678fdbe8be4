/**
  Directory trees as a program lists them: every directory is a sequence of entries in
  some enumeration order.  A walk descends through the directories it does not skip and
  collects the leaves it wants.
*/
module Trees {
  import opened Wrappers
  import opened Paths

  datatype Node<T> = Leaf(payload: T) | Dir(entries: seq<Entry<T>>)

  datatype Entry<T> = Entry(name: Name, node: Node<T>)

  datatype Item<T> = Item(path: Path, payload: T)

  /** No directory lists a name twice. */
  ghost predicate WellFormed<T>(node: Node<T>) {
    match node
    case Leaf(_) => true
    case Dir(es) =>
      && (forall i, j :: 0 <= i < j < |es| ==> es[i].name != es[j].name)
      && (forall i :: 0 <= i < |es| ==> WellFormed(es[i].node))
  }

  /** The leaf at a relative path. */
  function Lookup<T>(node: Node<T>, path: Path): Option<T>
    decreases |path|
  {
    if path == [] then (if node.Leaf? then Some(node.payload) else None)
    else if node.Leaf? then None
    else
      var e := Find(node.entries, path[0]);
      if e.None? then None else Lookup(e.value, path[1..])
  }

  function Find<T>(es: seq<Entry<T>>, name: Name): Option<Node<T>> {
    if es == [] then None
    else if es[0].name == name then Some(es[0].node)
    else Find(es[1..], name)
  }

  /** Depth first in enumeration order; `skip` prunes an entry together with all below it. */
  function Walk<T>(node: Node<T>, path: Path, skip: Path -> bool, take: (Path, T) -> bool): seq<Item<T>>
    decreases node, 1
  {
    match node
    case Leaf(x) => if take(path, x) then [Item(path, x)] else []
    case Dir(es) => WalkAll(es, path, skip, take)
  }

  function WalkAll<T>(es: seq<Entry<T>>, path: Path, skip: Path -> bool, take: (Path, T) -> bool): seq<Item<T>>
    decreases es, 0
  {
    if es == [] then []
    else WalkEntry(es[0], path, skip, take) + WalkAll(es[1..], path, skip, take)
  }

  function WalkEntry<T>(e: Entry<T>, path: Path, skip: Path -> bool, take: (Path, T) -> bool): seq<Item<T>>
    decreases e, 2
  {
    if skip(path + [e.name]) then [] else Walk(e.node, path + [e.name], skip, take)
  }

  // ---------------------------------------------------------------- what a walk finds

  /** No step on the way down from `dir` along `rel` is pruned. */
  ghost predicate Open(dir: Path, rel: Path, skip: Path -> bool) {
    forall k :: 0 < k <= |rel| ==> !skip(dir + rel[..k])
  }

  /** The leaf x lies at `dir` + `rel`, is wanted and is not pruned away. */
  ghost predicate Wanted<T>(node: Node<T>, dir: Path, rel: Path, x: T, skip: Path -> bool, take: (Path, T) -> bool) {
    Lookup(node, rel) == Some(x) && take(dir + rel, x) && Open(dir, rel, skip)
  }

  lemma {:induction false} FindIndex<T>(es: seq<Entry<T>>, i: nat)
    requires i < |es| && forall i, j :: 0 <= i < j < |es| ==> es[i].name != es[j].name
    ensures Find(es, es[i].name) == Some(es[i].node)
    decreases |es|
  {
    if i > 0 { FindIndex(es[1..], i - 1); }
  }

  lemma {:induction false} FindSound<T>(es: seq<Entry<T>>, name: Name) returns (i: nat)
    requires Find(es, name).Some?
    ensures i < |es| && es[i].name == name && es[i].node == Find(es, name).value
    decreases |es|
  {
    if es[0].name == name {
      i := 0;
    } else {
      var k := FindSound(es[1..], name);
      i := k + 1;
    }
  }

  lemma OpenStep(dir: Path, name: Name, rel: Path, skip: Path -> bool)
    ensures Open(dir, [name] + rel, skip) <==> !skip(dir + [name]) && Open(dir + [name], rel, skip)
  {
    var full := [name] + rel;
    assert full[..1] == [name];
    forall k | 0 < k <= |rel| ensures dir + full[..k + 1] == (dir + [name]) + rel[..k] {
    }
    if Open(dir, full, skip) {
      assert !skip(dir + full[..1]);
      forall k | 0 < k <= |rel| ensures !skip((dir + [name]) + rel[..k]) {
        assert !skip(dir + full[..k + 1]);
      }
    }
    if !skip(dir + [name]) && Open(dir + [name], rel, skip) {
      forall k | 0 < k <= |full| ensures !skip(dir + full[..k]) {
        if k == 1 {
          assert full[..k] == [name];
        } else {
          assert dir + full[..k] == (dir + [name]) + rel[..k - 1];
        }
      }
    }
  }

  lemma WantedStep<T>(
    es: seq<Entry<T>>, i: nat, dir: Path, rel: Path, x: T, skip: Path -> bool, take: (Path, T) -> bool)
    requires WellFormed(Dir(es)) && i < |es|
    ensures Wanted(Dir(es), dir, [es[i].name] + rel, x, skip, take)
            <==> !skip(dir + [es[i].name]) && Wanted(es[i].node, dir + [es[i].name], rel, x, skip, take)
  {
    var name := es[i].name;
    FindIndex(es, i);
    OpenStep(dir, name, rel, skip);
    assert ([name] + rel)[1..] == rel;
    assert dir + ([name] + rel) == (dir + [name]) + rel;
  }

  /** Everything a walk returns is wanted. */
  lemma {:induction false} WalkSound<T>(
    node: Node<T>, dir: Path, skip: Path -> bool, take: (Path, T) -> bool, item: Item<T>)
    returns (rel: Path)
    requires WellFormed(node) && item in Walk(node, dir, skip, take)
    ensures item.path == dir + rel && Wanted(node, dir, rel, item.payload, skip, take)
    decreases node, 1
  {
    match node
    case Leaf(x) =>
      rel := [];
      assert dir + [] == dir;
    case Dir(es) =>
      var i := WalkAllIndex(es, dir, skip, take, item);
      var tail := WalkSound(es[i].node, dir + [es[i].name], skip, take, item);
      rel := [es[i].name] + tail;
      WantedStep(es, i, dir, tail, item.payload, skip, take);
      assert dir + rel == (dir + [es[i].name]) + tail;
  }

  lemma {:induction false} WalkAllIndex<T>(
    es: seq<Entry<T>>, dir: Path, skip: Path -> bool, take: (Path, T) -> bool, item: Item<T>)
    returns (i: nat)
    requires item in WalkAll(es, dir, skip, take)
    ensures i < |es| && item in WalkEntry(es[i], dir, skip, take)
    decreases |es|
  {
    if item in WalkEntry(es[0], dir, skip, take) {
      i := 0;
    } else {
      var k := WalkAllIndex(es[1..], dir, skip, take, item);
      i := k + 1;
    }
  }

  lemma {:induction false} WalkAllContains<T>(
    es: seq<Entry<T>>, dir: Path, skip: Path -> bool, take: (Path, T) -> bool, i: nat, item: Item<T>)
    requires i < |es| && item in WalkEntry(es[i], dir, skip, take)
    ensures item in WalkAll(es, dir, skip, take)
    decreases |es|
  {
    if i > 0 { WalkAllContains(es[1..], dir, skip, take, i - 1, item); }
  }

  /** A walk returns everything that is wanted. */
  lemma {:induction false} WalkComplete<T>(
    node: Node<T>, dir: Path, rel: Path, x: T, skip: Path -> bool, take: (Path, T) -> bool)
    requires WellFormed(node) && Wanted(node, dir, rel, x, skip, take)
    ensures Item(dir + rel, x) in Walk(node, dir, skip, take)
    decreases |rel|
  {
    if rel == [] {
      assert dir + [] == dir;
    } else {
      var i := FindSound(node.entries, rel[0]);
      assert rel == [rel[0]] + rel[1..];
      WantedStep(node.entries, i, dir, rel[1..], x, skip, take);
      WalkComplete(node.entries[i].node, dir + [rel[0]], rel[1..], x, skip, take);
      assert (dir + [rel[0]]) + rel[1..] == dir + rel;
      WalkAllContains(node.entries, dir, skip, take, i, Item(dir + rel, x));
    }
  }
}
