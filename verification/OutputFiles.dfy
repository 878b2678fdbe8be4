/**
  Automatic output files of the code execution tool: a pruned walk of the working
  directory, a snapshot before the code runs, and the files that are new or changed after.
*/
module OutputFiles {
  import opened Wrappers
  import opened Paths
  import opened Text
  import opened FileNames
  import opened Trees
  import opened Sorting
  import opened TreeOrder
  import opened OutputNames

  /** Length and modification time. */
  datatype FileState = FileState(len: nat, modified: Option<nat>)

  /** What `symlink_metadata` says of an entry that is no directory; `Other` includes a failing call. */
  datatype Kind = Regular(state: FileState) | Symlink | Other

  /** The contents part is whatever reading the file yields. */
  datatype ExecuteFile<B> = ExecuteFile(name: string, body: B)

  type Snapshot = map<Path, Kind>

  const SKIPPED_COMPONENTS: set<Name> :=
    {"skills", "__pycache__", "node_modules", "target", "tmp", "temp", "cache", "venv", "env"}

  const SKIPPED_EXTENSIONS: set<Name> :=
    {"pyc", "pyo", "o", "so", "dylib", "dll", "rlib", "rmeta", "d", "class"}

  predicate SkippedName(name: Name) {
    name == "" || name[0] == '.' || name in SKIPPED_COMPONENTS
  }

  predicate SkippedExtension(name: Name) {
    var dot := LastDot(name);
    dot.Some? && AsciiLower(name[dot.value + 1..]) in SKIPPED_EXTENSIONS
  }

  /** Some component has a skipped name, or the last one has a skipped extension. */
  predicate SkipPath(path: Path) {
    (exists k :: 0 <= k < |path| && SkippedName(path[k]))
    || (path != [] && SkippedExtension(path[|path| - 1]))
  }

  method ShouldSkipAutoPath(path: Path) returns (skip: bool)
    ensures skip == SkipPath(path)
  {
    var last: Option<Name> := None;
    for i := 0 to |path|
      invariant forall k :: 0 <= k < i ==> !SkippedName(path[k])
      invariant last == if i == 0 then None else Some(path[i - 1])
    {
      if SkippedName(path[i]) {
        return true;
      }
      last := Some(path[i]);
    }
    skip := last.Some? && SkippedExtension(last.value);
  }

  predicate TakeRegular(path: Path, k: Kind) {
    k.Regular?
  }

  // ---------------------------------------------------------------- the walk

  /** An unreadable directory has no entries; a working directory that is none has no files. */
  function Found(node: Node<Kind>, dir: Path): seq<Item<Kind>> {
    if node.Dir? then Walk(node, dir, SkipPath, TakeRegular) else []
  }

  function OutputList(root: Node<Kind>): seq<Item<Kind>> {
    Sort(Found(root, []), ItemLt)
  }

  method VisitOutputDir(node: Node<Kind>, dir: Path, files: seq<Item<Kind>>) returns (r: seq<Item<Kind>>)
    ensures r == files + Found(node, dir)
    decreases node, 0
  {
    r := files;
    if node.Leaf? {
      return;
    }
    var entries := node.entries;
    assert entries[0..] == entries;
    for i := 0 to |entries|
      invariant files + Found(node, dir) == r + FoundFrom(entries, i, dir)
    {
      FoundStep(entries, i, dir);
      r := VisitOutputEntry(entries[i], dir, r);
    }
  }

  /** What lies below the entries from i on. */
  function FoundFrom(entries: seq<Entry<Kind>>, i: nat, dir: Path): seq<Item<Kind>>
    requires i <= |entries|
  {
    WalkAll(entries[i..], dir, SkipPath, TakeRegular)
  }

  lemma FoundStep(entries: seq<Entry<Kind>>, i: nat, dir: Path)
    requires i < |entries|
    ensures FoundFrom(entries, i, dir)
            == WalkEntry(entries[i], dir, SkipPath, TakeRegular) + FoundFrom(entries, i + 1, dir)
  {
    var rest := entries[i..];
    assert rest[0] == entries[i] && rest[1..] == entries[i + 1..];
  }

  /** One pass of the loop over the entries. */
  method VisitOutputEntry(e: Entry<Kind>, dir: Path, files: seq<Item<Kind>>) returns (r: seq<Item<Kind>>)
    ensures r == files + WalkEntry(e, dir, SkipPath, TakeRegular)
    decreases e, 0
  {
    r := files;
    var path := dir + [e.name];
    var skip := ShouldSkipAutoPath(path);
    if skip {
      return;
    }
    match e.node {
      case Dir(_) =>
        r := VisitOutputDir(e.node, path, r);
      case Leaf(kind) =>
        if kind.Regular? {
          r := r + [Item(path, kind)];
        }
    }
  }

  method WalkOutputFiles(root: Node<Kind>) returns (files: seq<Item<Kind>>)
    ensures files == OutputList(root)
  {
    files := VisitOutputDir(root, [], []);
    assert [] + Found(root, []) == Found(root, []);
    files := Sort(files, ItemLt);
  }

  /** Both tests of a component. */
  predicate Passes(name: Name) {
    !SkippedName(name) && !SkippedExtension(name)
  }

  ghost predicate AllPass(p: Path) {
    forall k :: 0 <= k < |p| ==> Passes(p[k])
  }

  lemma OpenIffAllPass(p: Path)
    ensures Open([], p, SkipPath) <==> AllPass(p)
  {
    if Open([], p, SkipPath) {
      forall k | 0 <= k < |p| ensures Passes(p[k]) {
        var q := [] + p[..k + 1];
        assert !SkipPath(q);
        assert q[k] == p[k] && |q| == k + 1;
      }
    }
    if AllPass(p) {
      forall k | 0 < k <= |p| ensures !SkipPath([] + p[..k]) {
        var q := [] + p[..k];
        assert q == p[..k];
        assert forall j :: 0 <= j < k ==> q[j] == p[j] && Passes(p[j]);
        assert !SkippedExtension(q[|q| - 1]);
      }
    }
  }

  /** The regular files below the root all of whose components pass, and no others. */
  lemma OutputListIsExact(root: Node<Kind>, p: Path, kind: Kind)
    requires WellFormed(root)
    ensures Item(p, kind) in OutputList(root)
            <==> p != [] && kind.Regular? && Lookup(root, p) == Some(kind) && AllPass(p)
  {
    if root.Dir? {
      SortedWalkIsSorted(root, [], SkipPath, TakeRegular);
      OpenIffAllPass(p);
      assert [] + p == p;
      if Item(p, kind) in OutputList(root) {
        var rel := WalkSound(root, [], SkipPath, TakeRegular, Item(p, kind));
        assert [] + rel == rel;
      }
      if kind.Regular? && Lookup(root, p) == Some(kind) && AllPass(p) {
        WalkComplete(root, [], p, kind, SkipPath, TakeRegular);
      }
    }
  }

  lemma OutputListIsSorted(root: Node<Kind>)
    requires WellFormed(root)
    ensures Sorted(OutputList(root), ItemLt)
  {
    if root.Dir? { SortedWalkIsSorted(root, [], SkipPath, TakeRegular); }
  }

  // ---------------------------------------------------------------- the snapshot

  function Collect(files: seq<Item<Kind>>): Snapshot {
    if files == [] then map[]
    else
      var last := files[|files| - 1];
      Collect(files[..|files| - 1])[last.path := last.payload]
  }

  method SnapshotOutputFiles(root: Node<Kind>) returns (snapshot: Snapshot)
    ensures snapshot == Collect(OutputList(root))
  {
    var files := WalkOutputFiles(root);
    snapshot := map[];
    for i := 0 to |files|
      invariant snapshot == Collect(files[..i])
    {
      assert files[..i + 1][..i] == files[..i];
      snapshot := snapshot[files[i].path := files[i].payload];
    }
    assert files[..|files|] == files;
  }

  lemma {:induction false} CollectLookup(files: seq<Item<Kind>>, p: Path, kind: Kind)
    requires Sorted(files, ItemLt)
    ensures (p in Collect(files) && Collect(files)[p] == kind) <==> Item(p, kind) in files
    decreases |files|
  {
    if files != [] {
      var n := |files| - 1;
      var init, last := files[..n], files[n];
      assert files == init + [last];
      CollectLookup(init, p, kind);
      if last.path == p && Item(p, kind) in init {
        var i :| 0 <= i < n && init[i] == Item(p, kind);
        assert ItemLt(files[i], files[n]);
        PathLtTotal(p, p);
        assert false;
      }
    }
  }

  // ---------------------------------------------------------------- what is appended

  predicate Unchanged(snapshot: Snapshot, item: Item<Kind>) {
    item.path in snapshot && snapshot[item.path] == item.payload
  }

  predicate Select(item: Item<Kind>, snapshot: Snapshot, taken: set<string>)
    requires item.path != []
  {
    !Unchanged(snapshot, item) && Join(item.path) !in taken
  }

  /** New or changed files whose name is not taken, in order. */
  ghost function Selected(list: seq<Item<Kind>>, from: nat, snapshot: Snapshot, taken: set<string>): seq<string>
    requires PlainList(list) && from <= |list|
    decreases |list| - from
  {
    if from == |list| then []
    else
      var rest := Selected(list, from + 1, snapshot, taken);
      if Select(list[from], snapshot, taken) then [Join(list[from].path)] + rest else rest
  }

  function ReadAll<B>(names: seq<string>, read: string -> B): seq<ExecuteFile<B>> {
    seq(|names|, (i: nat) requires i < |names| => ExecuteFile(names[i], read(names[i])))
  }

  ghost function Taken<B(!new)>(files: seq<ExecuteFile<B>>, explicit: seq<string>): set<string> {
    (set i | 0 <= i < |files| :: files[i].name)
    + (set i | 0 <= i < |explicit| && NormalizedOutputName(explicit[i]).Some?
           :: NormalizedOutputName(explicit[i]).value)
  }

  method TakenNames<B(!new)>(files: seq<ExecuteFile<B>>, explicit: seq<string>) returns (names: set<string>)
    ensures names == Taken(files, explicit)
  {
    names := {};
    for i := 0 to |files|
      invariant names == set k | 0 <= k < i :: files[k].name
    {
      names := names + {files[i].name};
    }
    ghost var first := names;
    for i := 0 to |explicit|
      invariant names == first +
                  set k | 0 <= k < i && NormalizedOutputName(explicit[k]).Some? ::
                    NormalizedOutputName(explicit[k]).value
    {
      var name := NormalizedOutputName(explicit[i]);
      if name.Some? {
        names := names + {name.value};
      }
    }
  }

  /** Names as the operating system allows them. */
  ghost predicate LegalNames(node: Node<Kind>) {
    node.Dir? ==> forall i :: 0 <= i < |node.entries| ==>
      node.entries[i].name != "" && '/' !in node.entries[i].name && LegalNames(node.entries[i].node)
  }

  lemma {:induction false} LegalPath(node: Node<Kind>, p: Path)
    requires LegalNames(node) && Lookup(node, p).Some?
    ensures forall i :: 0 <= i < |p| ==> p[i] != "" && '/' !in p[i]
    decreases |p|
  {
    if p != [] {
      var k := FindSound(node.entries, p[0]);
      LegalPath(node.entries[k].node, p[1..]);
      assert p == [p[0]] + p[1..];
    }
  }

  /** Every path of a list is plain, and no path occurs twice. */
  ghost predicate PlainList(list: seq<Item<Kind>>) {
    && Sorted(list, ItemLt)
    && forall i :: 0 <= i < |list| ==> list[i].path != [] && PlainPath(list[i].path)
  }

  lemma OutputListIsPlain(root: Node<Kind>)
    requires WellFormed(root) && LegalNames(root)
    ensures PlainList(OutputList(root))
  {
    var list := OutputList(root);
    OutputListIsSorted(root);
    forall i | 0 <= i < |list| ensures list[i].path != [] && PlainPath(list[i].path) {
      var p := list[i].path;
      assert list[i] == Item(p, list[i].payload) && list[i] in list;
      OutputListIsExact(root, p, list[i].payload);
      LegalPath(root, p);
      forall k | 0 <= k < |p| ensures Plain(p[k]) {
        assert Passes(p[k]);
      }
    }
  }

  /** A name once seen does not come again, so adding it to the taken names changes nothing. */
  lemma {:induction false} SeenOnce(list: seq<Item<Kind>>, i: nat, from: nat, snapshot: Snapshot, taken: set<string>)
    requires PlainList(list) && i < from <= |list|
    ensures Selected(list, from, snapshot, taken + {Join(list[i].path)}) == Selected(list, from, snapshot, taken)
    decreases |list| - from
  {
    if from < |list| {
      SeenOnce(list, i, from + 1, snapshot, taken);
      DistinctNames(list, i, from);
    }
  }

  lemma DistinctNames(list: seq<Item<Kind>>, i: nat, k: nat)
    requires PlainList(list) && i < k < |list|
    ensures Join(list[i].path) != Join(list[k].path)
  {
    assert ItemLt(list[i], list[k]);
    PathLtTotal(list[i].path, list[k].path);
    if Join(list[i].path) == Join(list[k].path) {
      JoinInjective(list[i].path, list[k].path);
    }
  }

  lemma ReadMore<B>(names: seq<string>, name: string, read: string -> B)
    ensures ReadAll(names + [name], read) == ReadAll(names, read) + [ExecuteFile(name, read(name))]
  {
  }

  /** One pass of the loop over the files that the walk found. */
  method AppendOne<B>(
    item: Item<Kind>, snapshot: Snapshot, taken: set<string>, files: seq<ExecuteFile<B>>, read: string -> B)
    returns (r: seq<ExecuteFile<B>>, names: set<string>)
    requires item.path != [] && PlainPath(item.path)
    ensures Select(item, snapshot, taken)
            ==> names == taken + {Join(item.path)} && r == files + [ExecuteFile(Join(item.path), read(Join(item.path)))]
    ensures !Select(item, snapshot, taken) ==> names == taken && r == files
  {
    r, names := files, taken;
    if item.path in snapshot && snapshot[item.path] == item.payload {
      return;
    }
    NameRoundTrip(item.path);
    var name := PathToOutputName(AsComponents(item.path));
    if name.None? || name.value in names {
      return;
    }
    names := names + {name.value};
    r := r + [ExecuteFile(name.value, read(name.value))];
  }

  lemma SelectedStep(
    list: seq<Item<Kind>>, i: nat, snapshot: Snapshot, taken: set<string>, more: set<string>, added: seq<string>)
    requires PlainList(list) && i < |list|
    requires more == if Select(list[i], snapshot, taken) then taken + {Join(list[i].path)} else taken
    ensures added + Selected(list, i, snapshot, taken)
            == (if Select(list[i], snapshot, taken) then added + [Join(list[i].path)] else added)
               + Selected(list, i + 1, snapshot, more)
  {
    SeenOnce(list, i, i + 1, snapshot, taken);
  }

  method AppendChanged<B>(
    list: seq<Item<Kind>>, snapshot: Snapshot, taken: set<string>, files: seq<ExecuteFile<B>>, read: string -> B)
    returns (r: seq<ExecuteFile<B>>)
    requires PlainList(list)
    ensures r == files + ReadAll(Selected(list, 0, snapshot, taken), read)
  {
    r := files;
    var names := taken;
    ghost var added := [];
    for i := 0 to |list|
      invariant r == files + ReadAll(added, read)
      invariant Selected(list, 0, snapshot, taken) == added + Selected(list, i, snapshot, names)
    {
      ghost var before := names;
      r, names := AppendOne(list[i], snapshot, names, r, read);
      SelectedStep(list, i, snapshot, before, names, added);
      if Select(list[i], snapshot, before) {
        ReadMore(added, Join(list[i].path), read);
        added := added + [Join(list[i].path)];
      }
    }
  }

  // ---------------------------------------------------------------- exactly the changes

  lemma {:induction false} SelectedFrom(
    list: seq<Item<Kind>>, from: nat, snapshot: Snapshot, taken: set<string>, name: string)
    returns (i: nat)
    requires PlainList(list) && from <= |list| && name in Selected(list, from, snapshot, taken)
    ensures from <= i < |list| && Select(list[i], snapshot, taken) && name == Join(list[i].path)
    decreases |list| - from
  {
    if Select(list[from], snapshot, taken) && name == Join(list[from].path) {
      i := from;
    } else {
      i := SelectedFrom(list, from + 1, snapshot, taken, name);
    }
  }

  lemma {:induction false} SelectedContains(
    list: seq<Item<Kind>>, from: nat, snapshot: Snapshot, taken: set<string>, i: nat)
    requires PlainList(list) && from <= i < |list| && Select(list[i], snapshot, taken)
    ensures Join(list[i].path) in Selected(list, from, snapshot, taken)
    decreases |list| - from
  {
    if from < i { SelectedContains(list, from + 1, snapshot, taken, i); }
  }

  ghost predicate FreshNames(names: seq<string>, taken: set<string>) {
    && (forall i, k :: 0 <= i < k < |names| ==> names[i] != names[k])
    && (forall i :: 0 <= i < |names| ==> names[i] !in taken)
  }

  /** No name is appended twice, and none that was taken. */
  lemma {:induction false} SelectedDistinct(list: seq<Item<Kind>>, from: nat, snapshot: Snapshot, taken: set<string>)
    requires PlainList(list) && from <= |list|
    ensures FreshNames(Selected(list, from, snapshot, taken), taken)
    decreases |list| - from
  {
    if from < |list| {
      SelectedDistinct(list, from + 1, snapshot, taken);
      var rest := Selected(list, from + 1, snapshot, taken);
      forall i | 0 <= i < |rest| ensures rest[i] != Join(list[from].path) {
        var k := SelectedFrom(list, from + 1, snapshot, taken, rest[i]);
        DistinctNames(list, from, k);
      }
      var s := Selected(list, from, snapshot, taken);
      if Select(list[from], snapshot, taken) {
        assert forall i :: 0 < i < |s| ==> s[i] == rest[i - 1];
      } else {
        assert s == rest;
      }
    }
  }

  /** The names appended after a run, given the tree before it and the tree after it. */
  ghost function Appended(before: Node<Kind>, after: Node<Kind>, taken: set<string>): seq<string>
    requires WellFormed(after) && LegalNames(after)
  {
    OutputListIsPlain(after);
    Selected(OutputList(after), 0, Collect(OutputList(before)), taken)
  }

  lemma UnchangedIffSame(before: Node<Kind>, p: Path, kind: Kind)
    requires WellFormed(before) && p != [] && kind.Regular? && AllPass(p)
    ensures Unchanged(Collect(OutputList(before)), Item(p, kind)) <==> Lookup(before, p) == Some(kind)
  {
    OutputListIsSorted(before);
    CollectLookup(OutputList(before), p, kind);
    OutputListIsExact(before, p, kind);
  }

  /** Every visible file that is new or changed and whose name is free is appended; no other visible file is. */
  lemma ChangedFilesAreAppended(before: Node<Kind>, after: Node<Kind>, taken: set<string>, p: Path, kind: Kind)
    requires WellFormed(before) && WellFormed(after) && LegalNames(after) && IsVisible(after, p, kind)
    ensures Join(p) in Appended(before, after, taken) <==> Lookup(before, p) != Some(kind) && Join(p) !in taken
  {
    SelectedIff(after, Collect(OutputList(before)), taken, p, kind);
    UnchangedIffSame(before, p, kind);
  }

  /** Every appended name is that of a visible file that is new or changed, and reads back as its path. */
  lemma AppendedFilesAreChanged(
    before: Node<Kind>, after: Node<Kind>, taken: set<string>, name: string)
    returns (p: Path, kind: Kind)
    requires WellFormed(before) && WellFormed(after) && LegalNames(after)
    requires name in Appended(before, after, taken)
    ensures p != [] && name == Join(p) && name !in taken && Components(name) == AsComponents(p)
    ensures kind.Regular? && AllPass(p) && Lookup(after, p) == Some(kind) && Lookup(before, p) != Some(kind)
  {
    var list, snapshot := OutputList(after), Collect(OutputList(before));
    OutputListIsPlain(after);
    var i := SelectedFrom(list, 0, snapshot, taken, name);
    p, kind := list[i].path, list[i].payload;
    assert list[i] in list && list[i] == Item(p, kind);
    OutputListIsExact(after, p, kind);
    UnchangedIffSame(before, p, kind);
    NameRoundTrip(p);
  }

  // ---------------------------------------------------------------- which names are taken

  /** An explicit output name stands for p exactly if it reads as p, component by component. */
  lemma ExplicitMeans(name: string, p: Path)
    requires p != [] && PlainPath(p)
    ensures NormalizedOutputName(name) == Some(Join(p)) <==> Components(name) == AsComponents(p)
  {
    NameRoundTrip(p);
    if NormalizedOutputName(name) == Some(Join(p)) { NormalizedIsNormal(name); }
    if Components(name) == AsComponents(p) {
      assert AsComponents(p)[0].Normal?;
      assert Components("") == [];
    }
  }

  /** Neither the name of an earlier entry nor meant by an explicit output. */
  ghost predicate NameIsFree<B(!new)>(files: seq<ExecuteFile<B>>, explicit: seq<string>, p: Path)
    requires p != []
  {
    && (forall i :: 0 <= i < |files| ==> files[i].name != Join(p))
    && (forall i :: 0 <= i < |explicit| ==> Components(explicit[i]) != AsComponents(p))
  }

  lemma TakenIff<B(!new)>(files: seq<ExecuteFile<B>>, explicit: seq<string>, p: Path)
    requires p != [] && PlainPath(p)
    ensures Join(p) in Taken(files, explicit) <==> !NameIsFree(files, explicit, p)
  {
    forall i | 0 <= i < |explicit|
      ensures NormalizedOutputName(explicit[i]) == Some(Join(p)) <==> Components(explicit[i]) == AsComponents(p)
    {
      ExplicitMeans(explicit[i], p);
    }
  }

  /** A regular file all of whose components pass. */
  ghost predicate IsVisible(root: Node<Kind>, p: Path, kind: Kind) {
    p != [] && kind.Regular? && Lookup(root, p) == Some(kind) && AllPass(p)
  }

  /** The names of the entries from n on. */
  ghost function NamesFrom<B(!new)>(r: seq<ExecuteFile<B>>, n: nat): set<string> {
    set i | n <= i < |r| :: r[i].name
  }

  /** A visible file is appended exactly if it differs from the snapshot and its name is free. */
  ghost predicate AppendsExactly<B(!new)>(
    root: Node<Kind>, snapshot: Snapshot, explicit: seq<string>, files: seq<ExecuteFile<B>>, r: seq<ExecuteFile<B>>)
  {
    && (forall p, kind :: IsVisible(root, p, kind) ==>
          (Join(p) in NamesFrom(r, |files|)
           <==> !Unchanged(snapshot, Item(p, kind)) && NameIsFree(files, explicit, p)))
    && (forall name :: name in NamesFrom(r, |files|) ==> exists p, kind :: IsVisible(root, p, kind) && name == Join(p))
  }

  lemma AppendedNames<B(!new)>(files: seq<ExecuteFile<B>>, names: seq<string>, read: string -> B)
    ensures forall name :: name in NamesFrom(files + ReadAll(names, read), |files|) <==> name in names
  {
    var r := files + ReadAll(names, read);
    forall name | name in names ensures name in NamesFrom(r, |files|) {
      var i :| 0 <= i < |names| && names[i] == name;
      assert r[|files| + i].name == name;
    }
    forall name | name in NamesFrom(r, |files|) ensures name in names {
      var i :| |files| <= i < |r| && r[i].name == name;
      assert r[i].name == names[i - |files|];
    }
  }

  lemma SelectedIff(root: Node<Kind>, snapshot: Snapshot, taken: set<string>, p: Path, kind: Kind)
    requires WellFormed(root) && LegalNames(root) && IsVisible(root, p, kind)
    ensures PlainList(OutputList(root)) && PlainPath(p)
    ensures Join(p) in Selected(OutputList(root), 0, snapshot, taken)
            <==> !Unchanged(snapshot, Item(p, kind)) && Join(p) !in taken
  {
    var list := OutputList(root);
    OutputListIsPlain(root);
    OutputListIsExact(root, p, kind);
    var i :| 0 <= i < |list| && list[i] == Item(p, kind);
    if Select(list[i], snapshot, taken) { SelectedContains(list, 0, snapshot, taken, i); }
    if Join(p) in Selected(list, 0, snapshot, taken) {
      var k := SelectedFrom(list, 0, snapshot, taken, Join(p));
      JoinInjective(p, list[k].path);
      if i < k { DistinctNames(list, i, k); } else if k < i { DistinctNames(list, k, i); }
    }
  }

  lemma SelectedAppendsExactly<B(!new)>(
    root: Node<Kind>, snapshot: Snapshot, explicit: seq<string>, files: seq<ExecuteFile<B>>, read: string -> B)
    requires WellFormed(root) && LegalNames(root) && PlainList(OutputList(root))
    ensures AppendsExactly(root, snapshot, explicit, files,
                           files + ReadAll(Selected(OutputList(root), 0, snapshot, Taken(files, explicit)), read))
  {
    var taken := Taken(files, explicit);
    var names := Selected(OutputList(root), 0, snapshot, taken);
    AppendedNames(files, names, read);
    forall p, kind | IsVisible(root, p, kind)
      ensures Join(p) in names <==> !Unchanged(snapshot, Item(p, kind)) && NameIsFree(files, explicit, p)
    {
      SelectedIff(root, snapshot, taken, p, kind);
      TakenIff(files, explicit, p);
    }
    forall name | name in names ensures exists p, kind :: IsVisible(root, p, kind) && name == Join(p) {
      var i := SelectedFrom(OutputList(root), 0, snapshot, taken, name);
      var item := OutputList(root)[i];
      assert item in OutputList(root) && item == Item(item.path, item.payload);
      OutputListIsExact(root, item.path, item.payload);
      assert IsVisible(root, item.path, item.payload);
    }
  }

  /**
    Earlier entries stay, and of the visible files exactly those follow, in order and once
    each, that are new or changed and whose name is free.
  */
  method AppendAutoOutputFiles<B(!new)>(
    root: Node<Kind>, snapshot: Snapshot, explicit: seq<string>, files: seq<ExecuteFile<B>>, read: string -> B)
    returns (r: seq<ExecuteFile<B>>)
    requires WellFormed(root) && LegalNames(root)
    ensures AppendsExactly(root, snapshot, explicit, files, r)
    ensures PlainList(OutputList(root))
    ensures r == files + ReadAll(Selected(OutputList(root), 0, snapshot, Taken(files, explicit)), read)
  {
    var names := TakenNames(files, explicit);
    var list := WalkOutputFiles(root);
    OutputListIsPlain(root);
    r := AppendChanged(list, snapshot, names, files, read);
    SelectedAppendsExactly(root, snapshot, explicit, files, read);
  }

  // ---------------------------------------------------------------- the extension test

  /** The part after the last dot decides, in any ASCII case; without a dot nothing is skipped. */
  lemma ExtensionTest(stem: string, ext: string)
    requires '.' !in ext
    ensures SkippedExtension(stem + "." + ext) <==> AsciiLower(ext) in SKIPPED_EXTENSIONS
    ensures '.' !in stem ==> !SkippedExtension(stem)
  {
    DotBeforeExtension(stem, ext);
  }
}
