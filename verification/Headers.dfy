/**
  The header hash of two build scripts.  The flash-attention script collects every header,
  sorts the whole list and hashes it; the core script sorts each directory and hashes while
  it descends.
*/
module Headers {
  import opened Wrappers
  import opened Paths
  import opened FileNames
  import opened Trees
  import opened Sorting
  import opened TreeOrder
  import opened Fnv

  /** What reading a file gives; `Unlistable` is a directory whose listing fails. */
  datatype Contents = Readable(bytes: seq<Byte>) | Unreadable | Unlistable

  predicate IsHeader(path: Path) {
    path != [] && Extension(path[|path| - 1]) in {Some("h"), Some("cuh"), Some("hpp")}
  }

  /** What a traversal has to deal with: headers, and directories that stop it. */
  predicate TakeHeader(path: Path, c: Contents) {
    c.Unlistable? || IsHeader(path)
  }

  predicate NoSkip(path: Path) {
    false
  }

  /** Headers, and directories that cannot be listed, in the order of their full paths. */
  function HeaderList(root: Node<Contents>, dir: Path): seq<Item<Contents>> {
    SortedWalk(root, dir, NoSkip, TakeHeader)
  }

  /** Name and contents of each file in turn; the first that cannot be read or listed is an error. */
  function HashFiles(hash: Word, files: seq<Item<Contents>>, render: Path -> seq<Byte>): (r: Result<Word>)
    ensures r.Err? ==> r.error == "io"
    decreases |files|
  {
    if files == [] then Ok(hash)
    else if !files[0].payload.Readable? then Err("io")
    else
      var named := HashBytes(hash, render(files[0].path));
      HashFiles(HashBytes(named, files[0].payload.bytes), files[1..], render)
  }

  // ---------------------------------------------------------------- flash attention: one flat list

  ghost predicate NoneUnlistable(files: seq<Item<Contents>>) {
    forall i :: 0 <= i < |files| ==> !files[i].payload.Unlistable?
  }

  /** `visit`: a listing error anywhere ends the traversal. */
  method CollectHeaders(node: Node<Contents>, path: Path, files: seq<Item<Contents>>)
    returns (r: Result<seq<Item<Contents>>>)
    ensures r.Ok? <==> NoneUnlistable(Walk(node, path, NoSkip, TakeHeader))
    ensures r.Ok? ==> r.value == files + Walk(node, path, NoSkip, TakeHeader)
    decreases node
  {
    match node {
      case Dir(entries) =>
        var found := files;
        assert entries[0..] == entries;
        for i := 0 to |entries|
          invariant files + WalkHeaders(entries, path) == found + WalkHeaders(entries[i..], path)
          invariant NoneUnlistable(WalkHeaders(entries, path)) <==> NoneUnlistable(WalkHeaders(entries[i..], path))
        {
          var e := entries[i];
          var step := CollectHeaders(e.node, path + [e.name], found);
          WalkStep(entries, i, path);
          if step.Err? {
            return step;
          }
          found := step.value;
        }
        r := Ok(found);
      case Leaf(c) =>
        if c.Unlistable? {
          assert Walk(node, path, NoSkip, TakeHeader)[0].payload == c;
          return Err("io");
        }
        r := Ok(if IsHeader(path) then files + [Item(path, c)] else files);
    }
  }

  function WalkHeaders(entries: seq<Entry<Contents>>, path: Path): seq<Item<Contents>> {
    WalkAll(entries, path, NoSkip, TakeHeader)
  }

  lemma WalkStep(entries: seq<Entry<Contents>>, i: nat, path: Path)
    requires i < |entries|
    ensures var here := Walk(entries[i].node, path + [entries[i].name], NoSkip, TakeHeader);
            var rest := WalkHeaders(entries[i + 1..], path);
            && WalkHeaders(entries[i..], path) == here + rest
            && (NoneUnlistable(WalkHeaders(entries[i..], path)) <==> NoneUnlistable(here) && NoneUnlistable(rest))
  {
    var here := Walk(entries[i].node, path + [entries[i].name], NoSkip, TakeHeader);
    var rest := WalkHeaders(entries[i + 1..], path);
    var tail := entries[i..];
    assert tail[0] == entries[i] && tail[1..] == entries[i + 1..];
    assert WalkAll(tail, path, NoSkip, TakeHeader) == WalkEntry(tail[0], path, NoSkip, TakeHeader) + rest;
    assert WalkEntry(tail[0], path, NoSkip, TakeHeader) == here;
    NoneInEither(here, rest);
  }

  lemma NoneInEither(s: seq<Item<Contents>>, t: seq<Item<Contents>>)
    ensures NoneUnlistable(s + t) <==> NoneUnlistable(s) && NoneUnlistable(t)
  {
    assert forall i :: 0 <= i < |s| ==> s[i] == (s + t)[i];
    assert forall i :: 0 <= i < |t| ==> t[i] == (s + t)[|s| + i];
  }

  method HeaderFiles(root: Node<Contents>, dir: Path) returns (files: Result<seq<Item<Contents>>>)
    ensures files.Ok? <==> NoneUnlistable(HeaderList(root, dir))
    ensures files.Ok? ==> files.value == HeaderList(root, dir)
  {
    ghost var walk := Walk(root, dir, NoSkip, TakeHeader);
    files := CollectHeaders(root, dir, []);
    SortElements(walk, ItemLt);
    SameListings(walk, HeaderList(root, dir));
    if files.Ok? {
      assert [] + walk == walk;
      files := Ok(Sort(files.value, ItemLt));
    }
  }

  lemma SameListings(s: seq<Item<Contents>>, t: seq<Item<Contents>>)
    requires SameElements(s, t)
    ensures NoneUnlistable(s) <==> NoneUnlistable(t)
  {
    assert forall i :: 0 <= i < |s| ==> s[i] in t;
    assert forall i :: 0 <= i < |t| ==> t[i] in s;
  }

  method HeaderHash(files: seq<Item<Contents>>, render: Path -> seq<Byte>) returns (r: Result<Word>)
    ensures r == HashFiles(OFFSET_BASIS, files, render)
  {
    var hash: Word := OFFSET_BASIS;
    for i := 0 to |files|
      invariant HashFiles(OFFSET_BASIS, files, render) == HashFiles(hash, files[i..], render)
    {
      ghost var rest := files[i..];
      assert rest[0] == files[i] && rest[1..] == files[i + 1..];
      hash := UpdateHash(hash, render(files[i].path));
      if !files[i].payload.Readable? {
        return Err("io");
      }
      hash := UpdateHash(hash, files[i].payload.bytes);
    }
    r := Ok(hash);
  }

  method FlashAttnHeaderHash(root: Node<Contents>, dir: Path, render: Path -> seq<Byte>) returns (r: Result<Word>)
    ensures r == HashFiles(OFFSET_BASIS, HeaderList(root, dir), render)
  {
    var files := HeaderFiles(root, dir);
    if files.Err? {
      HashFilesOk(OFFSET_BASIS, HeaderList(root, dir), render);
      return Err("io");
    }
    r := HeaderHash(files.value, render);
  }

  // ---------------------------------------------------------------- core: directory by directory

  method VisitHeaders(node: Node<Contents>, path: Path, hash: Word, render: Path -> seq<Byte>) returns (r: Result<Word>)
    requires WellFormed(node)
    ensures r == HashFiles(hash, HeaderList(node, path), render)
    decreases node
  {
    match node {
      case Dir(es) =>
        var entries := Sort(es, EntryLt);
        SortedEntries(es);
        SortEachDirectory(es, path, NoSkip, TakeHeader);
        var h := hash;
        for i := 0 to |entries|
          invariant HashFiles(hash, HeaderList(node, path), render)
                    == HashFiles(h, EntryWise(entries[i..], path, NoSkip, TakeHeader), render)
        {
          var e := entries[i];
          assert e in entries && e in es;
          ghost var rest := entries[i..];
          assert rest[0] == e && rest[1..] == entries[i + 1..];
          var step := VisitHeaders(e.node, path + [e.name], h, render);
          HashFilesConcat(h, HeaderList(e.node, path + [e.name]),
                          EntryWise(rest[1..], path, NoSkip, TakeHeader), render);
          if step.Err? {
            return step;
          }
          h := step.value;
        }
        r := Ok(h);
      case Leaf(c) =>
        SingleHeader(c, path);
        if c.Unlistable? {
          return Err("io");
        }
        if !IsHeader(path) {
          return Ok(hash);
        }
        var h := UpdateHash(hash, render(path));
        if c.Unreadable? {
          return Err("io");
        }
        h := UpdateHash(h, c.bytes);
        r := Ok(h);
    }
  }

  lemma SingleHeader(c: Contents, path: Path)
    ensures HeaderList(Leaf(c), path) == if c.Unlistable? || IsHeader(path) then [Item(path, c)] else []
  {
    var one := [Item(path, c)];
    assert Sort(one, ItemLt) == one by {
      assert one[1..] == [];
      assert Sort(one[1..], ItemLt) == [];
    }
  }

  method CudaHeaderHash(root: Node<Contents>, dir: Path, render: Path -> seq<Byte>) returns (r: Result<Word>)
    requires WellFormed(root)
    ensures r == HashFiles(OFFSET_BASIS, HeaderList(root, dir), render)
  {
    r := VisitHeaders(root, dir, OFFSET_BASIS, render);
  }

  lemma {:induction false} HashFilesConcat(
    h: Word, s: seq<Item<Contents>>, t: seq<Item<Contents>>, render: Path -> seq<Byte>)
    ensures HashFiles(h, s + t, render)
            == var first := HashFiles(h, s, render); if first.Err? then first else HashFiles(first.value, t, render)
    decreases |s|
  {
    if s == [] {
      assert s + t == t;
    } else {
      assert (s + t)[1..] == s[1..] + t;
      if s[0].payload.Readable? {
        HashFilesConcat(HashBytes(HashBytes(h, render(s[0].path)), s[0].payload.bytes), s[1..], t, render);
      }
    }
  }

  // ---------------------------------------------------------------- what the hash promises

  lemma {:induction false} HashFilesOk(h: Word, files: seq<Item<Contents>>, render: Path -> seq<Byte>)
    ensures HashFiles(h, files, render).Ok? <==> forall i :: 0 <= i < |files| ==> files[i].payload.Readable?
    decreases |files|
  {
    if files != [] {
      if files[0].payload.Readable? {
        var rest := files[1..];
        HashFilesOk(HashBytes(HashBytes(h, render(files[0].path)), files[0].payload.bytes), rest, render);
        assert (forall i :: 0 <= i < |rest| ==> rest[i].payload.Readable?) ==>
          forall i :: 0 < i < |files| ==> files[i] == rest[i - 1];
        assert forall i :: 0 <= i < |rest| ==> rest[i] == files[i + 1];
      }
    }
  }

  lemma {:induction false} HashFilesInjectiveInState(
    h: Word, k: Word, files: seq<Item<Contents>>, render: Path -> seq<Byte>)
    requires h != k && HashFiles(h, files, render).Ok?
    ensures HashFiles(k, files, render).Ok? && HashFiles(k, files, render) != HashFiles(h, files, render)
    decreases |files|
  {
    if files != [] {
      var name, bytes := render(files[0].path), files[0].payload.bytes;
      HashInjectiveInState(h, k, name);
      HashInjectiveInState(HashBytes(h, name), HashBytes(k, name), bytes);
      HashFilesInjectiveInState(HashBytes(HashBytes(h, name), bytes),
                                HashBytes(HashBytes(k, name), bytes), files[1..], render);
    }
  }

  /** One byte of one listed header. */
  lemma {:induction false} OneByteChangesListHash(
    h: Word, files: seq<Item<Contents>>, i: nat, at: nat, b: Byte, render: Path -> seq<Byte>)
    requires HashFiles(h, files, render).Ok? && i < |files|
    requires files[i].payload.Readable? && at < |files[i].payload.bytes| && files[i].payload.bytes[at] != b
    ensures var changed := files[i := Item(files[i].path, Readable(files[i].payload.bytes[at := b]))];
            HashFiles(h, changed, render).Ok? && HashFiles(h, changed, render) != HashFiles(h, files, render)
    decreases |files|
  {
    var changed := files[i := Item(files[i].path, Readable(files[i].payload.bytes[at := b]))];
    var named := HashBytes(h, render(files[0].path));
    var bytes := files[0].payload.bytes;
    if i == 0 {
      assert changed[1..] == files[1..];
      OneByteChangesHash(named, bytes, at, b);
      HashFilesInjectiveInState(HashBytes(named, bytes), HashBytes(named, bytes[at := b]), files[1..], render);
    } else {
      assert changed[1..] == files[1..][i - 1 := changed[i]];
      OneByteChangesListHash(HashBytes(named, bytes), files[1..], i - 1, at, b, render);
    }
  }

  /** The trees a and b differ in the contents of one file only. */
  ghost predicate DifferOnlyAt(a: Node<Contents>, b: Node<Contents>, p: Path, was: seq<Byte>, now: seq<Byte>) {
    && Lookup(a, p) == Some(Readable(was)) && Lookup(b, p) == Some(Readable(now))
    && forall q :: q != p ==> Lookup(a, q) == Lookup(b, q)
  }

  lemma Listed(root: Node<Contents>, dir: Path, rel: Path, c: Contents)
    requires WellFormed(root)
    ensures Item(dir + rel, c) in HeaderList(root, dir) <==> Lookup(root, rel) == Some(c) && TakeHeader(dir + rel, c)
  {
    SortedWalkIsSorted(root, dir, NoSkip, TakeHeader);
    if Lookup(root, rel) == Some(c) && TakeHeader(dir + rel, c) {
      WalkComplete(root, dir, rel, c, NoSkip, TakeHeader);
    }
    if Item(dir + rel, c) in HeaderList(root, dir) {
      var r := WalkSound(root, dir, NoSkip, TakeHeader, Item(dir + rel, c));
      SamePrefix(dir, r, rel);
    }
  }

  lemma SamePrefix(dir: Path, p: Path, q: Path)
    requires dir + p == dir + q
    ensures p == q
  {
    assert p == (dir + p)[|dir|..] && q == (dir + q)[|dir|..];
  }

  lemma ListedFrom(root: Node<Contents>, dir: Path, item: Item<Contents>) returns (rel: Path)
    requires WellFormed(root) && item in HeaderList(root, dir)
    ensures item.path == dir + rel && Lookup(root, rel) == Some(item.payload) && TakeHeader(item.path, item.payload)
  {
    SortedWalkIsSorted(root, dir, NoSkip, TakeHeader);
    rel := WalkSound(root, dir, NoSkip, TakeHeader, item);
  }

  lemma SamePathOnce(root: Node<Contents>, dir: Path, i: nat, k: nat)
    requires WellFormed(root) && i < |HeaderList(root, dir)| && k < |HeaderList(root, dir)| && i != k
    ensures HeaderList(root, dir)[i].path != HeaderList(root, dir)[k].path
  {
    var list := HeaderList(root, dir);
    SortedWalkIsSorted(root, dir, NoSkip, TakeHeader);
    PathLtTotal(list[i].path, list[k].path);
    assert ItemLt(list[i], list[k]) || ItemLt(list[k], list[i]);
  }

  /** Changing one file changes one place of the list. */
  lemma ListOfChangedTree(
    a: Node<Contents>, b: Node<Contents>, dir: Path, p: Path, was: seq<Byte>, now: seq<Byte>, i: nat)
    requires WellFormed(a) && WellFormed(b) && DifferOnlyAt(a, b, p, was, now) && IsHeader(dir + p)
    requires i < |HeaderList(a, dir)| && HeaderList(a, dir)[i] == Item(dir + p, Readable(was))
    ensures HeaderList(b, dir) == HeaderList(a, dir)[i := Item(dir + p, Readable(now))]
  {
    var la, lb := HeaderList(a, dir), HeaderList(b, dir);
    var changed := la[i := Item(dir + p, Readable(now))];
    SortedWalkIsSorted(a, dir, NoSkip, TakeHeader);
    SortedWalkIsSorted(b, dir, NoSkip, TakeHeader);
    assert Sorted(changed, ItemLt) by {
      forall j, k | 0 <= j < k < |changed| ensures ItemLt(changed[j], changed[k]) {
        assert ItemLt(la[j], la[k]);
      }
    }
    forall x | x in changed ensures x in lb {
      var k :| 0 <= k < |changed| && changed[k] == x;
      ChangedIsListed(a, b, dir, p, was, now, i, k);
    }
    forall x | x in lb ensures x in changed {
      var rel := ListedFrom(b, dir, x);
      if rel == p {
        assert x == changed[i];
      } else {
        Listed(a, dir, rel, x.payload);
        var k :| 0 <= k < |la| && la[k] == x;
        if k == i { SamePrefix(dir, rel, p); }
        assert changed[k] == x;
      }
    }
    ItemOrder<Contents>();
    SortedUnique(changed, lb, ItemLt);
  }

  lemma ChangedIsListed(
    a: Node<Contents>, b: Node<Contents>, dir: Path, p: Path, was: seq<Byte>, now: seq<Byte>, i: nat, k: nat)
    requires WellFormed(a) && WellFormed(b) && DifferOnlyAt(a, b, p, was, now) && IsHeader(dir + p)
    requires i < |HeaderList(a, dir)| && HeaderList(a, dir)[i] == Item(dir + p, Readable(was))
    requires k < |HeaderList(a, dir)|
    ensures HeaderList(a, dir)[i := Item(dir + p, Readable(now))][k] in HeaderList(b, dir)
  {
    var la := HeaderList(a, dir);
    if k == i {
      Listed(b, dir, p, Readable(now));
    } else {
      assert la[k] in la;
      var rel := ListedFrom(a, dir, la[k]);
      SamePathOnce(a, dir, i, k);
      Listed(b, dir, rel, la[k].payload);
    }
  }

  /**
    Changing exactly one byte of one header anywhere in the tree changes the hash, even if
    the directories are enumerated in a different order the second time.
  */
  lemma OneByteChangesHeaderHash(
    a: Node<Contents>, b: Node<Contents>, dir: Path, p: Path, bytes: seq<Byte>, at: nat, x: Byte,
    render: Path -> seq<Byte>)
    requires WellFormed(a) && WellFormed(b) && at < |bytes| && bytes[at] != x && IsHeader(dir + p)
    requires DifferOnlyAt(a, b, p, bytes, bytes[at := x])
    ensures var was := HashFiles(OFFSET_BASIS, HeaderList(a, dir), render);
            var now := HashFiles(OFFSET_BASIS, HeaderList(b, dir), render);
            (was.Ok? <==> now.Ok?) && (was.Ok? ==> was.value != now.value)
  {
    var la := HeaderList(a, dir);
    Listed(a, dir, p, Readable(bytes));
    var i :| 0 <= i < |la| && la[i] == Item(dir + p, Readable(bytes));
    ListOfChangedTree(a, b, dir, p, bytes, bytes[at := x], i);
    HashFilesOk(OFFSET_BASIS, la, render);
    HashFilesOk(OFFSET_BASIS, HeaderList(b, dir), render);
    if HashFiles(OFFSET_BASIS, la, render).Ok? {
      OneByteChangesListHash(OFFSET_BASIS, la, i, at, x, render);
    } else {
      var k :| 0 <= k < |la| && !la[k].payload.Readable?;
      assert HeaderList(b, dir)[k] == la[k];
    }
  }

  /** Two listings of the same tree have the same hash. */
  lemma HashIgnoresEnumerationOrder(a: Node<Contents>, b: Node<Contents>, dir: Path, render: Path -> seq<Byte>)
    requires WellFormed(a) && WellFormed(b) && SameTree(a, b)
    ensures HashFiles(OFFSET_BASIS, HeaderList(a, dir), render) == HashFiles(OFFSET_BASIS, HeaderList(b, dir), render)
  {
    EnumerationOrderIsIrrelevant(a, b, dir, NoSkip, TakeHeader);
  }

  // ---------------------------------------------------------------- what is hashed

  /** Names and contents of all files, one after the other. */
  ghost function Stream(files: seq<Item<Contents>>, render: Path -> seq<Byte>): seq<Byte>
    requires forall i :: 0 <= i < |files| ==> files[i].payload.Readable?
  {
    if files == [] then []
    else
      var n := |files| - 1;
      Stream(files[..n], render) + render(files[n].path) + files[n].payload.bytes
  }

  lemma {:induction false} HashBytesConcat(h: Word, s: seq<Byte>, t: seq<Byte>)
    ensures HashBytes(h, s + t) == HashBytes(HashBytes(h, s), t)
    decreases |s|
  {
    if s == [] {
      assert s + t == t;
    } else {
      assert (s + t)[1..] == s[1..] + t;
      HashBytesConcat(Step(h, s[0]), s[1..], t);
    }
  }

  lemma HashOne(h: Word, file: Item<Contents>, render: Path -> seq<Byte>)
    requires file.payload.Readable?
    ensures HashFiles(h, [file], render) == Ok(HashBytes(HashBytes(h, render(file.path)), file.payload.bytes))
  {
    assert [file][1..] == [];
  }

  /** The header hash is the FNV-1a hash of the name and the contents of every header, in order. */
  lemma {:induction false} HashIsOfStream(h: Word, files: seq<Item<Contents>>, render: Path -> seq<Byte>)
    requires forall i :: 0 <= i < |files| ==> files[i].payload.Readable?
    ensures HashFiles(h, files, render) == Ok(HashBytes(h, Stream(files, render)))
    decreases |files|
  {
    if files != [] {
      var n := |files| - 1;
      var init, last := files[..n], files[n];
      HashIsOfStream(h, init, render);
      assert files == init + [last];
      HashFilesConcat(h, init, [last], render);
      HashOne(HashBytes(h, Stream(init, render)), last, render);
      HashBytesConcat(h, Stream(init, render), render(last.path));
      HashBytesConcat(h, Stream(init, render) + render(last.path), last.payload.bytes);
    }
  }

  predicate HeaderExtension(ext: string) {
    ext == "h" || ext == "cuh" || ext == "hpp"
  }

  lemma HeaderByExtension(path: Path)
    requires path != []
    ensures IsHeader(path)
            <==> var ext := Extension(path[|path| - 1]); ext.Some? && HeaderExtension(ext.value)
  {
  }

  /** A header is a file with a name before ".h", ".cuh" or ".hpp". */
  lemma IsHeaderIff(dir: Path, stem: string, ext: string)
    requires '.' !in ext
    ensures IsHeader(dir + [stem + "." + ext]) <==> stem != "" && HeaderExtension(ext)
    ensures '.' !in stem ==> !IsHeader(dir + [stem])
  {
    HeaderByExtension(dir + [stem + "." + ext]);
    HeaderByExtension(dir + [stem]);
    DotBeforeExtension(stem, ext);
    if stem == "." {
      assert (stem + "." + ext)[0] == '.';
    }
  }
}
