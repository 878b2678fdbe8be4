/**
  The mount cache of a session: input files are mounted again only when the list of their
  ids, names and sizes differs from that of the last mount that succeeded.
*/
module InputMounts {
  import opened Wrappers
  import opened Paths
  import opened Text
  import opened Decimal
  import opened Mount

  function KeyLine(file: ToolInputFile): string {
    file.id + (":" + (file.name + (":" + Numeral(file.sizeBytes))))
  }

  function Key(files: seq<ToolInputFile>): string {
    if files == [] then ""
    else if |files| == 1 then KeyLine(files[0])
    else KeyLine(files[0]) + ("\n" + Key(files[1..]))
  }

  /** Every file with content is found at its own name. */
  ghost predicate Intact(dir: Directory, files: seq<ToolInputFile>, decode: string -> Option<Bytes>) {
    Holds(dir, files, MountList(files), |files|, decode)
  }

  // ---------------------------------------------------------------- the history of a directory

  /** A call that was no cache hit: how many files it got through before it ended. */
  datatype Call = Call(files: seq<ToolInputFile>, done: nat, ok: bool)

  /** The contents that the first n files give a path. */
  ghost function GivenBy(
    files: seq<ToolInputFile>, mounted: seq<MountedInputFile>, n: nat, path: Name, decode: string -> Option<Bytes>)
    : Option<Bytes>
    requires n <= |files| == |mounted|
  {
    if n == 0 then None
    else if HasContent(files[n - 1]) && mounted[n - 1].relativePath == path then Content(files[n - 1], decode)
    else GivenBy(files, mounted, n - 1, path, decode)
  }

  ghost function Given(files: seq<ToolInputFile>, n: nat, path: Name, decode: string -> Option<Bytes>): Option<Bytes>
    requires n <= |files|
  {
    GivenBy(files, MountList(files), n, path, decode)
  }

  ghost predicate IsHistory(history: seq<Call>) {
    forall i :: 0 <= i < |history| ==> history[i].done <= |history[i].files|
  }

  function Lookup(dir: Directory, path: Name): Option<Bytes> {
    if path in dir then Some(dir[path]) else None
  }

  /** What the last call that wrote to a path wrote there, whether it went on to succeed or not. */
  ghost function Latest(
    start: Directory, history: seq<Call>, path: Name, decode: string -> Option<Bytes>): Option<Bytes>
    requires IsHistory(history)
  {
    if history == [] then Lookup(start, path)
    else
      var last := history[|history| - 1];
      var given := Given(last.files, last.done, path, decode);
      if given.Some? then given else Latest(start, history[..|history| - 1], path, decode)
  }

  /** The key of the last call that succeeded. */
  ghost function LatestKey(history: seq<Call>): Option<string> {
    if history == [] then None
    else if history[|history| - 1].ok then Some(Key(history[|history| - 1].files))
    else LatestKey(history[..|history| - 1])
  }

  /** Every file with content is what was last written to its path. */
  ghost predicate LatestAreThese(
    start: Directory, history: seq<Call>, files: seq<ToolInputFile>, decode: string -> Option<Bytes>)
    requires IsHistory(history)
  {
    forall i :: 0 <= i < |files| && HasContent(files[i]) ==>
      Content(files[i], decode).Some?
      && Latest(start, history, MountList(files)[i].relativePath, decode) == Content(files[i], decode)
  }

  class MountCache {
    const decode: string -> Option<Bytes>
    var dir: Directory
    var key: Option<string>
    ghost const start: Directory
    ghost var history: seq<Call>

    /** Directory and key are what the calls so far have made of them. */
    ghost predicate Valid()
      reads this
    {
      && IsHistory(history) && key == LatestKey(history)
      && forall path :: Lookup(dir, path) == Latest(start, history, path, decode)
    }

    constructor (dir: Directory, decode: string -> Option<Bytes>)
      ensures Valid() && history == [] && start == dir == this.dir && this.decode == decode
    {
      this.dir, this.decode, key := dir, decode, None;
      start, history := dir, [];
    }

    /**
      A list with the key of the last mount that succeeded is not mounted again.  After
      success the files are intact if and only if they had to be mounted, or the latest
      writes to their paths, by whatever calls, wrote the same contents.
    */
    method MountInputFiles(files: seq<ToolInputFile>, writable: Name -> bool, created: bool) returns (r: Result<()>)
      requires Valid()
      modifies this`dir, this`key, this`history
      ensures Valid()
      ensures old(key) == Some(Key(files)) ==> r.Ok? && dir == old(dir) && history == old(history)
      ensures old(key) != Some(Key(files)) ==>
                |history| == |old(history)| + 1 && history[..|old(history)|] == old(history)
                && history[|old(history)|].files == files && history[|old(history)|].ok == r.Ok?
      ensures old(key) != Some(Key(files)) && created ==> StopsAt(files, history[|old(history)|].done, decode, writable)
      ensures old(key) != Some(Key(files)) ==> (r.Ok? <==> CanMount(files, decode, writable, created))
      ensures r.Ok? ==>
                (Intact(dir, files, decode)
                 <==> old(key) != Some(Key(files)) || LatestAreThese(start, old(history), files, decode))
    {
      var k := Key(files);
      if key == Some(k) {
        HeldIffLatest(dir, start, history, files, decode);
        return Ok(());
      }
      ghost var was := dir;
      var n;
      r, dir, n := Mount.MountInputFiles(dir, files, decode, writable, created);
      ghost var call := Call(files, n, r.Ok?);
      MountedLookup(was, dir, files, n, decode);
      HistoryGrows(was, dir, start, history, call, decode);
      history := history + [call];
      if r.Err? {
        return;
      }
      key := Some(k);
    }
  }

  /** Mounting gets to the end, or to the first file that cannot be decoded or written. */
  ghost predicate StopsAt(files: seq<ToolInputFile>, n: nat, decode: string -> Option<Bytes>, writable: Name -> bool) {
    && n <= |files| && AllStorable(files, MountList(files), n, decode, writable)
    && (n < |files| ==> !Storable(files[n], MountList(files)[n].relativePath, decode, writable))
  }

  ghost predicate CanMount(
    files: seq<ToolInputFile>, decode: string -> Option<Bytes>, writable: Name -> bool, created: bool)
  {
    files == [] || (created && AllStorable(files, MountList(files), |files|, decode, writable))
  }

  lemma {:induction false} GivenAt(
    files: seq<ToolInputFile>, mounted: seq<MountedInputFile>, n: nat, i: nat, decode: string -> Option<Bytes>)
    requires i < n <= |files| == |mounted| && HasContent(files[i]) && Distinct(mounted)
    ensures GivenBy(files, mounted, n, mounted[i].relativePath, decode) == Content(files[i], decode)
    decreases n
  {
    if i < n - 1 {
      assert mounted[i].relativePath != mounted[n - 1].relativePath;
      GivenAt(files, mounted, n - 1, i, decode);
    }
  }

  lemma {:induction false} GivenNowhere(
    files: seq<ToolInputFile>, mounted: seq<MountedInputFile>, n: nat, path: Name, decode: string -> Option<Bytes>)
    requires n <= |files| == |mounted|
    requires forall i :: 0 <= i < n && HasContent(files[i]) ==> mounted[i].relativePath != path
    ensures GivenBy(files, mounted, n, path, decode) == None
    decreases n
  {
    if n > 0 { GivenNowhere(files, mounted, n - 1, path, decode); }
  }

  /** After a mount, a path holds what it was given, or what it held before. */
  ghost predicate MountedOver(
    was: Directory, now: Directory, files: seq<ToolInputFile>, n: nat, decode: string -> Option<Bytes>)
    requires n <= |files|
  {
    forall path :: Lookup(now, path)
      == (if Given(files, n, path, decode).Some? then Given(files, n, path, decode) else Lookup(was, path))
  }

  lemma MountedLookup(
    was: Directory, now: Directory, files: seq<ToolInputFile>, n: nat, decode: string -> Option<Bytes>)
    requires n <= |files| && Holds(now, files, MountList(files), n, decode)
    requires RestKept(was, now, files, MountList(files), n)
    ensures MountedOver(was, now, files, n, decode)
  {
    MountedNamesAreDistinctAndSafe(files);
    forall path
      ensures Lookup(now, path)
              == (if Given(files, n, path, decode).Some? then Given(files, n, path, decode) else Lookup(was, path))
    {
      if i :| 0 <= i < n && HasContent(files[i]) && MountList(files)[i].relativePath == path {
        GivenAt(files, MountList(files), n, i, decode);
      } else {
        GivenNowhere(files, MountList(files), n, path, decode);
      }
    }
  }

  lemma HistoryGrows(
    was: Directory, now: Directory, start: Directory, history: seq<Call>, call: Call, decode: string -> Option<Bytes>)
    requires IsHistory(history) && call.done <= |call.files|
    requires forall path :: Lookup(was, path) == Latest(start, history, path, decode)
    requires MountedOver(was, now, call.files, call.done, decode)
    ensures IsHistory(history + [call])
    ensures forall path :: Lookup(now, path) == Latest(start, history + [call], path, decode)
    ensures LatestKey(history + [call]) == if call.ok then Some(Key(call.files)) else LatestKey(history)
  {
    var longer := history + [call];
    assert longer[..|longer| - 1] == history;
    forall path ensures Lookup(now, path) == Latest(start, longer, path, decode) {
      assert Lookup(was, path) == Latest(start, history, path, decode);
    }
  }

  lemma HeldIffLatest(
    dir: Directory, start: Directory, history: seq<Call>, files: seq<ToolInputFile>, decode: string -> Option<Bytes>)
    requires IsHistory(history) && forall path :: Lookup(dir, path) == Latest(start, history, path, decode)
    ensures Intact(dir, files, decode) <==> LatestAreThese(start, history, files, decode)
  {
    forall i | 0 <= i < |files|
      ensures Lookup(dir, MountList(files)[i].relativePath)
              == Latest(start, history, MountList(files)[i].relativePath, decode)
    {
    }
  }

  // ---------------------------------------------------------------- what the key tells apart

  /** What comes before a separator that it does not contain is determined. */
  lemma SplitAtFirst(x: string, s: string, y: string, t: string, c: char)
    requires x + s == y + t && c !in x && c !in y
    requires (s == "" || s[0] == c) && (t == "" || t[0] == c)
    ensures x == y && s == t
  {
    var all := x + s;
    LongerContains(x, s, y, t, c);
    LongerContains(y, t, x, s, c);
    assert x == all[..|x|] && y == all[..|y|];
    assert s == all[|x|..] && t == all[|y|..];
  }

  lemma LongerContains(x: string, s: string, y: string, t: string, c: char)
    requires x + s == y + t && (s == "" || s[0] == c)
    ensures |x| < |y| ==> c in y
  {
    if |x| < |y| { assert (x + s)[|x|] == y[|x|]; }
  }

  lemma DigitsHaveNo(s: string, c: char)
    requires Digits(s) && !IsDigit(c)
    ensures c !in s
  {
  }

  /** Ids without ":" and line breaks, names without line breaks. */
  ghost predicate PlainLabels(files: seq<ToolInputFile>) {
    forall i :: 0 <= i < |files| ==> ':' !in files[i].id && '\n' !in files[i].id && '\n' !in files[i].name
  }

  lemma NameAndSize(a: string, m: nat, b: string, n: nat)
    requires a + (":" + Numeral(m)) == b + (":" + Numeral(n))
    ensures a == b && m == n
  {
    var s, t := a + (":" + Numeral(m)), b + (":" + Numeral(n));
    DigitsHaveNo(Numeral(m), ':');
    DigitsHaveNo(Numeral(n), ':');
    assert s[|a|] == ':' && s[|a| + 1..] == Numeral(m);
    assert t[|b|] == ':' && t[|b| + 1..] == Numeral(n);
    LastIndexIs(s, ':', |a|);
    LastIndexIs(t, ':', |b|);
    assert a == s[..|a|] && b == t[..|b|];
    NumeralInjective(m, n);
  }

  lemma KeyLineTells(f: ToolInputFile, g: ToolInputFile)
    requires KeyLine(f) == KeyLine(g) && ':' !in f.id && ':' !in g.id
    ensures f.id == g.id && f.name == g.name && f.sizeBytes == g.sizeBytes
  {
    var s, t := f.name + (":" + Numeral(f.sizeBytes)), g.name + (":" + Numeral(g.sizeBytes));
    SplitAtFirst(f.id, ":" + s, g.id, ":" + t, ':');
    assert s == (":" + s)[1..] && t == (":" + t)[1..];
    NameAndSize(f.name, f.sizeBytes, g.name, g.sizeBytes);
  }

  lemma KeyLineIsLine(f: ToolInputFile)
    requires '\n' !in f.id && '\n' !in f.name
    ensures KeyLine(f) != "" && '\n' !in KeyLine(f)
  {
    DigitsHaveNo(Numeral(f.sizeBytes), '\n');
  }

  ghost predicate SameLabels(f: ToolInputFile, g: ToolInputFile) {
    f.id == g.id && f.name == g.name && f.sizeBytes == g.sizeBytes
  }

  function KeyTail(files: seq<ToolInputFile>): string
    requires files != []
  {
    if |files| == 1 then "" else "\n" + Key(files[1..])
  }

  lemma KeyIsHeadAndTail(files: seq<ToolInputFile>)
    requires files != []
    ensures Key(files) == KeyLine(files[0]) + KeyTail(files)
  {
  }

  /** The key tells apart any two lists that differ in length or in some id, name or size. */
  lemma {:induction false} KeyTellsLabels(fs: seq<ToolInputFile>, gs: seq<ToolInputFile>)
    requires PlainLabels(fs) && PlainLabels(gs) && Key(fs) == Key(gs)
    ensures |fs| == |gs| && forall i :: 0 <= i < |fs| ==> SameLabels(fs[i], gs[i])
    decreases |fs|
  {
    if fs == [] {
      if gs != [] { NonEmptyKey(gs); }
    } else if gs == [] {
      NonEmptyKey(fs);
    } else {
      KeyIsHeadAndTail(fs);
      KeyIsHeadAndTail(gs);
      KeyLineIsLine(fs[0]);
      KeyLineIsLine(gs[0]);
      SplitAtFirst(KeyLine(fs[0]), KeyTail(fs), KeyLine(gs[0]), KeyTail(gs), '\n');
      KeyLineTells(fs[0], gs[0]);
      TailKeys(fs, gs);
      if |fs| > 1 { KeyTellsLabels(fs[1..], gs[1..]); }
      assert forall i :: 0 < i < |fs| && |fs| == |gs| ==> fs[i] == fs[1..][i - 1] && gs[i] == gs[1..][i - 1];
    }
  }

  lemma TailKeys(fs: seq<ToolInputFile>, gs: seq<ToolInputFile>)
    requires fs != [] && gs != [] && KeyTail(fs) == KeyTail(gs)
    ensures |fs| == 1 <==> |gs| == 1
    ensures Key(fs[1..]) == Key(gs[1..])
  {
    var s, t := KeyTail(fs), KeyTail(gs);
    if |fs| > 1 && |gs| > 1 { assert Key(fs[1..]) == s[1..] && Key(gs[1..]) == t[1..]; }
  }

  lemma NonEmptyKey(files: seq<ToolInputFile>)
    requires files != []
    ensures Key(files) != ""
  {
    KeyIsHeadAndTail(files);
    assert KeyLine(files[0])[|files[0].id|] == ':';
  }

  // ---------------------------------------------------------------- stale hits

  lemma FirstPath(files: seq<ToolInputFile>)
    requires files != []
    ensures MountList(files)[0].relativePath == UniqueOf(SafeFileName(files[0].name), {})
  {
    MountEntry(files, 0);
    assert PathsOf(MountList(files)[..0]) == {};
  }

  /** The first file of a list, with its text at its path, is intact only if that text is the latest there. */
  lemma FirstFileStale(dir: Directory, files: seq<ToolInputFile>, decode: string -> Option<Bytes>, other: Bytes)
    requires files != [] && files[0].text.Some? && files[0].text.value != other
    requires Lookup(dir, MountList(files)[0].relativePath) == Some(other)
    ensures !Intact(dir, files, decode)
  {
    assert HasContent(files[0]);
  }

  lemma FirstFileIntact(dir: Directory, files: seq<ToolInputFile>, decode: string -> Option<Bytes>, n: nat)
    requires files != [] && files[0].text.Some? && 0 < n <= |files| && Holds(dir, files, MountList(files), n, decode)
    ensures Lookup(dir, MountList(files)[0].relativePath) == files[0].text
  {
    assert HasContent(files[0]);
  }

  /** Equal id, name and size with other contents have the same key and the same path. */
  lemma SameLabelsAreStale(f: ToolInputFile, g: ToolInputFile, dir: Directory, decode: string -> Option<Bytes>)
    requires SameLabels(f, g) && f.text.Some? && g.text.Some? && f.text != g.text && Intact(dir, [f], decode)
    ensures Key([f]) == Key([g]) && !Intact(dir, [g], decode)
  {
    FirstPath([f]);
    FirstPath([g]);
    FirstFileIntact(dir, [f], decode, 1);
    FirstFileStale(dir, [g], decode, f.text.value);
  }

  /** An id with a colon shares its key with an id and a name cut at another colon. */
  lemma ColonsCollide(x: string, y: string, z: string, f: ToolInputFile, g: ToolInputFile)
    requires f.id == x + ":" + y && f.name == z && g.id == x && g.name == y + ":" + z && f.sizeBytes == g.sizeBytes
    ensures Key([f]) == Key([g])
  {
    var num := Numeral(f.sizeBytes);
    assert (x + ":" + y) + (":" + (z + (":" + num))) == x + (":" + ((y + ":" + z) + (":" + num)));
  }

  /** The history of mounting f, and then a list that overwrites it and fails at its second file. */
  ghost function PartWay(f: ToolInputFile, g: ToolInputFile, bad: ToolInputFile): seq<Call> {
    [Call([f], 1, true), Call([g, bad], 1, false)]
  }

  /** The second call is no hit, and ends just there: its second file cannot be decoded. */
  lemma PartWayHappens(
    f: ToolInputFile, g: ToolInputFile, bad: ToolInputFile, decode: string -> Option<Bytes>, writable: Name -> bool)
    requires f.text.Some? && g.text.Some? && bad.text.None? && bad.data.Some? && decode(bad.data.value).None?
    requires forall name :: writable(name)
    ensures StopsAt([f], 1, decode, writable) && CanMount([f], decode, writable, true)
    ensures StopsAt([g, bad], 1, decode, writable) && !CanMount([g, bad], decode, writable, true)
  {
    assert !Storable([g, bad][1], MountList([g, bad])[1].relativePath, decode, writable);
  }

  /**
    A mount that fails part-way keeps the old key although it has written.  So f is a hit
    when it is mounted again, and is not there.
  */
  lemma FailedMountMakesHitStale(
    start: Directory, f: ToolInputFile, g: ToolInputFile, bad: ToolInputFile, decode: string -> Option<Bytes>)
    requires f.name == g.name && f.text.Some? && g.text.Some? && f.text != g.text
    ensures IsHistory(PartWay(f, g, bad)) && LatestKey(PartWay(f, g, bad)) == Some(Key([f]))
    ensures !LatestAreThese(start, PartWay(f, g, bad), [f], decode)
  {
    var h := PartWay(f, g, bad);
    assert h[..1] == [Call([f], 1, true)];
    var path := MountList([f])[0].relativePath;
    FirstPath([f]);
    FirstPath([g, bad]);
    assert Given([g, bad], 1, path, decode) == g.text;
    assert Latest(start, h, path, decode) == g.text;
    assert HasContent([f][0]) && Content([f][0], decode) == f.text;
  }
}
