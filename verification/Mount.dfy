/** Input files of the code execution tool: their names in the working directory and the writes. */
module Mount {
  import opened Wrappers
  import opened Paths
  import opened FileNames
  import opened OutputNames
  import opened Decimal

  type Bytes = seq<nat>

  datatype ToolInputFile =
    ToolInputFile(id: string, name: string, text: Option<Bytes>, data: Option<string>, sizeBytes: nat)

  datatype MountedInputFile = MountedInputFile(id: string, name: string, relativePath: Name)

  // ---------------------------------------------------------------- safe names

  /** `Path::file_name`: the last component unless it is the root, "." or "..". */
  function FileName(name: string): Option<Name> {
    var cs := Components(name);
    if cs != [] && cs[|cs| - 1].Normal? then Some(cs[|cs| - 1].name) else None
  }

  predicate SafeChar(c: char) {
    'a' <= c <= 'z' || 'A' <= c <= 'Z' || '0' <= c <= '9' || c == '.' || c == '-' || c == '_'
  }

  function Clean(base: string): string {
    seq(|base|, (i: nat) requires i < |base| => if SafeChar(base[i]) then base[i] else '_')
  }

  function SafeFileName(name: string): Name {
    var base := if FileName(name).Some? then FileName(name).value else "file";
    var cleaned := Clean(base);
    if cleaned == "" || cleaned == "." || cleaned == ".." then "file" else cleaned
  }

  /** Can be joined to a directory without leaving it. */
  ghost predicate SafeName(name: Name) {
    name != "" && name != "." && name != ".." && forall i :: 0 <= i < |name| ==> SafeChar(name[i])
  }

  lemma SafeFileNameIsSafe(name: string)
    ensures SafeName(SafeFileName(name))
  {
  }

  lemma FileNameIsPlain(name: string)
    requires FileName(name).Some?
    ensures Plain(FileName(name).value)
  {
    var cs, parts := Components(name), PartComponents(Split(name), true);
    SplitParts(name);
    PartsArePlain(Split(name), true);
    assert cs[|cs| - 1] == parts[|parts| - 1];
  }

  /** The last component is the file name, whatever precedes it; a trailing slash is ignored and ".." has none. */
  lemma FileNameOfChild(dir: string, part: string)
    requires '/' !in part
    ensures Plain(part) ==> FileName(dir + "/" + part) == Some(part) && FileName(part) == Some(part)
    ensures part == "" && dir != "" ==> FileName(dir + "/" + part) == FileName(dir)
    ensures part == ".." ==> FileName(dir + "/" + part).None? && FileName(part).None?
  {
    ComponentsOfChild(dir, part);
    ComponentsOfPart(part);
  }

  /** The file name survives with only its unsafe characters replaced; without one it is "file". */
  lemma SafeFileNameKeepsName(name: string)
    ensures FileName(name).None? ==> SafeFileName(name) == "file"
    ensures FileName(name).Some? ==>
              var base, safe := FileName(name).value, SafeFileName(name);
              |safe| == |base| && forall i :: 0 <= i < |base| ==> safe[i] == if SafeChar(base[i]) then base[i] else '_'
    ensures FileName(name).Some? && SafeName(FileName(name).value) ==> SafeFileName(name) == FileName(name).value
  {
    if FileName(name).Some? {
      var base := FileName(name).value;
      FileNameIsPlain(name);
      CleanIsNoDots(base);
      if SafeName(base) { assert Clean(base) == base; }
    } else {
      assert Clean("file") == "file";
    }
  }

  lemma CleanIsNoDots(base: string)
    requires Plain(base)
    ensures Clean(base) != "" && Clean(base) != "." && Clean(base) != ".."
  {
    var c := Clean(base);
    assert |c| == |base|;
    assert |c| == 1 && c[0] == '.' ==> base == ".";
    assert |c| == 2 && c[0] == '.' && c[1] == '.' ==> base == "..";
  }

  /** A safe name is one plain path component. */
  lemma SafeNameStaysInside(name: Name)
    requires SafeName(name)
    ensures Plain(name) && Components(name) == [Normal(name)]
  {
    assert Plain(name) by {
      forall i | 0 <= i < |name| ensures name[i] != '/' {
        assert SafeChar(name[i]);
      }
    }
    NameRoundTrip([name]);
    assert AsComponents([name]) == [Normal(name)];
  }

  // ---------------------------------------------------------------- unique names

  function Affix(ext: Option<Name>): string {
    if ext.Some? && ext.value != "" then "." + ext.value else ""
  }

  /** "stem-idx.ext", or "stem-idx" when there is no extension. */
  function Candidate(name: Name, idx: nat): Name {
    Stem(name) + "-" + Numeral(idx) + Affix(Extension(name))
  }

  lemma CandidateInjective(name: Name, i: nat, k: nat)
    requires Candidate(name, i) == Candidate(name, k)
    ensures i == k
  {
    var head, tail := Stem(name) + "-", Affix(Extension(name));
    var a, b := Numeral(i), Numeral(k);
    var c := Candidate(name, i);
    assert c == head + a + tail == head + b + tail;
    assert |a| == |b|;
    assert a == c[|head|..|head| + |a|] == b;
    NumeralInjective(i, k);
  }

  /** A candidate has the extension of the name, and the suffix ends its stem. */
  lemma CandidateKeepsExtension(name: Name, idx: nat)
    ensures Extension(name).Some? && Extension(name).value != "" ==>
              Extension(Candidate(name, idx)) == Extension(name)
              && Stem(Candidate(name, idx)) == Stem(name) + "-" + Numeral(idx)
    ensures Extension(name).None? || Extension(name).value == "" ==>
              Candidate(name, idx) == Stem(name) + "-" + Numeral(idx)
  {
    StemAndExtension(name);
    if Extension(name).Some? && Extension(name).value != "" {
      var stem, ext := Stem(name) + "-" + Numeral(idx), Extension(name).value;
      assert Candidate(name, idx) == stem + "." + ext;
      assert |stem + "." + ext| > 2;
      PartsOfName(stem, ext);
    }
  }

  lemma CandidateIsSafe(name: Name, idx: nat)
    requires SafeName(name)
    ensures SafeName(Candidate(name, idx))
  {
    var c, n := Candidate(name, idx), Numeral(idx);
    var stem, affix := Stem(name), Affix(Extension(name));
    assert c[|stem|] == '-';
    forall i | 0 <= i < |c| ensures SafeChar(c[i]) {
      if i < |stem| {
        assert c[i] == name[i];
      } else if |stem| < i <= |stem| + |n| {
        assert c[i] == n[i - |stem| - 1] && IsDigit(c[i]);
      } else if i > |stem| + |n| {
        assert c[i] == affix[i - |stem| - 1 - |n|];
        AffixIsSafe(name, i - |stem| - 1 - |n|);
      }
    }
    assert |c| >= 2 && c != ".";
    if c == ".." {
      assert c[|stem|] == '.';
    }
  }

  lemma AffixIsSafe(name: Name, i: nat)
    requires SafeName(name) && i < |Affix(Extension(name))|
    ensures SafeChar(Affix(Extension(name))[i])
  {
    var dot := LastDot(name).value;
    assert Affix(Extension(name)) == name[dot..];
    assert SafeChar(name[dot + i]);
  }

  /** The candidates for a name, by suffix. */
  type Candidates = nat -> Name

  function CandidatesOf(name: Name): Candidates {
    (idx: nat) => Candidate(name, idx)
  }

  ghost predicate Injective(cand: Candidates) {
    forall i: nat, k: nat :: cand(i) == cand(k) ==> i == k
  }

  lemma CandidatesDiffer(name: Name)
    ensures Injective(CandidatesOf(name))
  {
    forall i: nat, k: nat | CandidatesOf(name)(i) == CandidatesOf(name)(k) ensures i == k {
      CandidateInjective(name, i, k);
    }
  }

  /** All suffixes from 2 up to idx are taken. */
  ghost predicate Tried(cand: Candidates, used: set<Name>, idx: nat) {
    forall k: nat :: 2 <= k < idx ==> cand(k) in used
  }

  /** Different candidates cannot all be among finitely many names. */
  lemma {:induction false} TriedBound(cand: Candidates, used: set<Name>, idx: nat)
    requires Injective(cand) && 2 <= idx && Tried(cand, used, idx)
    ensures idx - 2 <= |used|
    decreases idx
  {
    if idx > 2 {
      TriedBound(cand, used - {cand(idx - 1)}, idx - 1);
    }
  }

  /** The first free candidate from idx on. */
  ghost function FirstFree(cand: Candidates, used: set<Name>, idx: nat): Name
    requires Injective(cand) && 2 <= idx && Tried(cand, used, idx)
    decreases |used| + 2 - idx
  {
    TriedBound(cand, used, idx);
    if cand(idx) !in used then cand(idx)
    else
      TriedBound(cand, used, idx + 1);
      FirstFree(cand, used, idx + 1)
  }

  ghost function UniqueOf(name: Name, used: set<Name>): Name {
    CandidatesDiffer(name);
    if name !in used then name else FirstFree(CandidatesOf(name), used, 2)
  }

  /** The least suffix from 2 on that is free, at most |used| + 2. */
  lemma {:induction false} FirstFreeIsLeast(cand: Candidates, used: set<Name>, idx: nat) returns (k: nat)
    requires Injective(cand) && 2 <= idx && Tried(cand, used, idx)
    ensures idx <= k <= |used| + 2 && FirstFree(cand, used, idx) == cand(k)
    ensures cand(k) !in used && Tried(cand, used, k)
    decreases |used| + 2 - idx
  {
    TriedBound(cand, used, idx);
    if cand(idx) !in used {
      k := idx;
    } else {
      TriedBound(cand, used, idx + 1);
      k := FirstFreeIsLeast(cand, used, idx + 1);
    }
  }

  lemma UniqueOfIsFree(name: Name, used: set<Name>)
    ensures UniqueOf(name, used) !in used
    ensures SafeName(name) ==> SafeName(UniqueOf(name, used))
  {
    if name in used {
      CandidatesDiffer(name);
      var k := FirstFreeIsLeast(CandidatesOf(name), used, 2);
      if SafeName(name) { CandidateIsSafe(name, k); }
    }
  }

  /** The search over idx = 2, 3, ... ends. */
  method FindFree(cand: Candidates, used: set<Name>) returns (r: Name)
    requires Injective(cand)
    ensures r == FirstFree(cand, used, 2)
  {
    var idx := 2;
    r := cand(idx);
    while r in used
      invariant 2 <= idx && Tried(cand, used, idx) && r == cand(idx)
      invariant FirstFree(cand, used, 2) == FirstFree(cand, used, idx)
      decreases |used| + 2 - idx
    {
      TriedBound(cand, used, idx + 1);
      idx := idx + 1;
      r := cand(idx);
    }
  }

  method UniqueName(name: Name, used: set<Name>) returns (r: Name, taken: set<Name>)
    ensures r == UniqueOf(name, used) && taken == used + {r}
  {
    if name !in used {
      return name, used + {name};
    }
    CandidatesDiffer(name);
    r := FindFree(CandidatesOf(name), used);
    taken := used + {r};
  }

  // ---------------------------------------------------------------- the list of mounted files

  ghost function PathsOf(mounted: seq<MountedInputFile>): set<Name> {
    set m | m in mounted :: m.relativePath
  }

  ghost function EntryOf(file: ToolInputFile, used: set<Name>): MountedInputFile {
    MountedInputFile(file.id, file.name, UniqueOf(SafeFileName(file.name), used))
  }

  /** Makes the entry of a file, given the names used so far. */
  type Allocator = (ToolInputFile, set<Name>) -> MountedInputFile

  /** The first n files, each in turn allocated after all earlier ones. */
  ghost function MountUpTo(files: seq<ToolInputFile>, n: nat, entry: Allocator): (mounted: seq<MountedInputFile>)
    requires n <= |files|
    ensures |mounted| == n
  {
    if n == 0 then []
    else
      var earlier := MountUpTo(files, n - 1, entry);
      earlier + [entry(files[n - 1], PathsOf(earlier))]
  }

  ghost function MountList(files: seq<ToolInputFile>): seq<MountedInputFile> {
    MountUpTo(files, |files|, EntryOf)
  }

  method NextEntry(file: ToolInputFile, used: set<Name>) returns (entry: MountedInputFile, taken: set<Name>)
    ensures entry == EntryOf(file, used) && taken == used + {entry.relativePath}
  {
    var path;
    path, taken := UniqueName(SafeFileName(file.name), used);
    entry := MountedInputFile(file.id, file.name, path);
  }

  lemma PathsOfSnoc(mounted: seq<MountedInputFile>, entry: MountedInputFile)
    ensures PathsOf(mounted + [entry]) == PathsOf(mounted) + {entry.relativePath}
  {
  }

  method MountedInputFiles(files: seq<ToolInputFile>) returns (mounted: seq<MountedInputFile>)
    ensures mounted == MountList(files)
  {
    var used := {};
    mounted := [];
    for n := 0 to |files|
      invariant used == PathsOf(mounted) && mounted == MountUpTo(files, n, EntryOf)
    {
      var entry;
      entry, used := NextEntry(files[n], used);
      PathsOfSnoc(mounted, entry);
      mounted := mounted + [entry];
    }
  }

  ghost predicate Distinct(mounted: seq<MountedInputFile>) {
    forall i, k :: 0 <= i < k < |mounted| ==> mounted[i].relativePath != mounted[k].relativePath
  }

  ghost predicate AllSafe(mounted: seq<MountedInputFile>) {
    forall i :: 0 <= i < |mounted| ==> SafeName(mounted[i].relativePath)
  }

  /** Every allocated name is new and safe. */
  ghost predicate Good(entry: Allocator) {
    forall file, used :: entry(file, used).relativePath !in used && SafeName(entry(file, used).relativePath)
  }

  lemma EntryOfIsGood()
    ensures Good(EntryOf)
  {
    forall file, used
      ensures EntryOf(file, used).relativePath !in used && SafeName(EntryOf(file, used).relativePath)
    {
      SafeFileNameIsSafe(file.name);
      UniqueOfIsFree(SafeFileName(file.name), used);
    }
  }

  lemma {:induction false} AllocatedNamesAreDistinctAndSafe(files: seq<ToolInputFile>, n: nat, entry: Allocator)
    requires n <= |files| && Good(entry)
    ensures Distinct(MountUpTo(files, n, entry)) && AllSafe(MountUpTo(files, n, entry))
    decreases n
  {
    if n > 0 {
      var earlier := MountUpTo(files, n - 1, entry);
      AllocatedNamesAreDistinctAndSafe(files, n - 1, entry);
      var last := entry(files[n - 1], PathsOf(earlier));
      forall i | 0 <= i < n - 1 ensures earlier[i].relativePath in PathsOf(earlier) {
      }
    }
  }

  /** No two files share a name, and every name stays inside the directory. */
  lemma MountedNamesAreDistinctAndSafe(files: seq<ToolInputFile>)
    ensures Distinct(MountList(files)) && AllSafe(MountList(files))
  {
    EntryOfIsGood();
    AllocatedNamesAreDistinctAndSafe(files, |files|, EntryOf);
  }

  lemma {:induction false} SamePrefixSameNames(
    files: seq<ToolInputFile>, more: seq<ToolInputFile>, n: nat, entry: Allocator)
    requires n <= |files|
    ensures MountUpTo(files + more, n, entry) == MountUpTo(files, n, entry)
  {
    if n > 0 { SamePrefixSameNames(files, more, n - 1, entry); }
  }

  lemma {:induction false} EarlierEntriesStay(files: seq<ToolInputFile>, m: nat, n: nat, entry: Allocator)
    requires m <= n <= |files|
    ensures MountUpTo(files, n, entry)[..m] == MountUpTo(files, m, entry)
    decreases n
  {
    if m < n { EarlierEntriesStay(files, m, n - 1, entry); }
  }

  /** Extending the list of files keeps every earlier name. */
  lemma ExtendingKeepsNames(files: seq<ToolInputFile>, more: seq<ToolInputFile>)
    ensures MountList(files + more)[..|files|] == MountList(files)
  {
    EarlierEntriesStay(files + more, |files|, |files + more|, EntryOf);
    SamePrefixSameNames(files, more, |files|, EntryOf);
  }

  /** Each entry belongs to its file and takes the name that is unique after the earlier ones. */
  lemma MountEntry(files: seq<ToolInputFile>, i: nat)
    requires i < |files|
    ensures MountList(files)[i]
            == MountedInputFile(files[i].id, files[i].name,
                                UniqueOf(SafeFileName(files[i].name), PathsOf(MountList(files)[..i])))
  {
    EarlierEntriesStay(files, i, |files|, EntryOf);
    EarlierEntriesStay(files, i + 1, |files|, EntryOf);
    LastEntry(files, i, EntryOf);
    assert MountList(files)[i] == MountList(files)[..i + 1][i];
  }

  lemma LastEntry(files: seq<ToolInputFile>, i: nat, entry: Allocator)
    requires i < |files|
    ensures MountUpTo(files, i + 1, entry)[i] == entry(files[i], PathsOf(MountUpTo(files, i, entry)))
  {
  }

  // ---------------------------------------------------------------- writing the files

  /** The working directory: contents by name. */
  type Directory = map<Name, Bytes>

  /** What is to be written: the text if there is one, else the decoded data. */
  function Content(file: ToolInputFile, decode: string -> Option<Bytes>): Option<Bytes> {
    if file.text.Some? then file.text
    else if file.data.Some? then decode(file.data.value)
    else None
  }

  predicate HasContent(file: ToolInputFile) {
    file.text.Some? || file.data.Some?
  }

  /** Neither decoding nor the write fails. */
  predicate Storable(file: ToolInputFile, name: Name, decode: string -> Option<Bytes>, writable: Name -> bool) {
    HasContent(file) ==> Content(file, decode).Some? && writable(name)
  }

  ghost predicate AllStorable(
    files: seq<ToolInputFile>, mounted: seq<MountedInputFile>, n: nat, decode: string -> Option<Bytes>,
    writable: Name -> bool)
    requires n <= |files| == |mounted|
  {
    forall i :: 0 <= i < n ==> Storable(files[i], mounted[i].relativePath, decode, writable)
  }

  /** The first n files are found intact at their own names. */
  ghost predicate Holds(
    dir: Directory, files: seq<ToolInputFile>, mounted: seq<MountedInputFile>, n: nat, decode: string -> Option<Bytes>)
    requires n <= |files| == |mounted|
  {
    forall i :: 0 <= i < n && HasContent(files[i]) ==>
      mounted[i].relativePath in dir && Content(files[i], decode) == Some(dir[mounted[i].relativePath])
  }

  /** Nothing but the names of the first n files with content is touched. */
  ghost predicate RestKept(
    before: Directory, after: Directory, files: seq<ToolInputFile>, mounted: seq<MountedInputFile>, n: nat)
    requires n <= |files| == |mounted|
  {
    forall name: Name :: (forall i :: 0 <= i < n && HasContent(files[i]) ==> mounted[i].relativePath != name) ==>
      && (name in before <==> name in after)
      && (name in before ==> before[name] == after[name])
  }

  /** The write of one file, or the error that ends the loop. */
  method WriteInput(
    dir: Directory, file: ToolInputFile, name: Name, decode: string -> Option<Bytes>, writable: Name -> bool)
    returns (r: Result<Directory>)
    ensures r.Ok? <==> Storable(file, name, decode, writable)
    ensures r.Ok? ==> r.value == if HasContent(file) then dir[name := Content(file, decode).value] else dir
  {
    if file.text.Some? {
      if !writable(name) {
        return Err("write input file");
      }
      return Ok(dir[name := file.text.value]);
    }
    if file.data.Some? {
      var bytes := decode(file.data.value);
      if bytes.None? {
        return Err("decode input file");
      }
      if !writable(name) {
        return Err("write input file");
      }
      return Ok(dir[name := bytes.value]);
    }
    return Ok(dir);
  }

  lemma WriteKeeps(
    start: Directory, dir: Directory, files: seq<ToolInputFile>, mounted: seq<MountedInputFile>, n: nat,
    decode: string -> Option<Bytes>, b: Bytes)
    requires n < |files| == |mounted| && Distinct(mounted)
    requires HasContent(files[n]) && Content(files[n], decode) == Some(b)
    requires Holds(dir, files, mounted, n, decode) && RestKept(start, dir, files, mounted, n)
    ensures Holds(dir[mounted[n].relativePath := b], files, mounted, n + 1, decode)
    ensures RestKept(start, dir[mounted[n].relativePath := b], files, mounted, n + 1)
  {
    var after := dir[mounted[n].relativePath := b];
    forall i | 0 <= i < n + 1 && HasContent(files[i])
      ensures mounted[i].relativePath in after && Content(files[i], decode) == Some(after[mounted[i].relativePath])
    {
      if i < n { assert mounted[i].relativePath != mounted[n].relativePath; }
    }
  }

  /** Everything up to the first failing file, which is an error. */
  method WriteAll(
    start: Directory, files: seq<ToolInputFile>, mounted: seq<MountedInputFile>, decode: string -> Option<Bytes>,
    writable: Name -> bool)
    returns (r: Result<()>, dir: Directory, n: nat)
    requires |mounted| == |files| && Distinct(mounted)
    ensures n <= |files| && AllStorable(files, mounted, n, decode, writable)
    ensures Holds(dir, files, mounted, n, decode) && RestKept(start, dir, files, mounted, n)
    ensures if r.Ok? then n == |files|
            else n < |files| && !Storable(files[n], mounted[n].relativePath, decode, writable)
  {
    dir, n := start, 0;
    while n < |files|
      invariant n <= |files| && Holds(dir, files, mounted, n, decode) && RestKept(start, dir, files, mounted, n)
      invariant AllStorable(files, mounted, n, decode, writable)
    {
      var step := WriteInput(dir, files[n], mounted[n].relativePath, decode, writable);
      if step.Err? {
        return Err(step.error), dir, n;
      }
      if HasContent(files[n]) {
        WriteKeeps(start, dir, files, mounted, n, decode, Content(files[n], decode).value);
      }
      dir := step.value;
      n := n + 1;
    }
    r := Ok(());
  }

  /** A text is there as it is, and data as it decodes where there is no text. */
  ghost predicate Stored(dir: Directory, file: ToolInputFile, name: Name, decode: string -> Option<Bytes>) {
    && (file.text.Some? ==> name in dir && dir[name] == file.text.value)
    && (file.text.None? && file.data.Some? ==> name in dir && decode(file.data.value) == Some(dir[name]))
  }

  /** On success every file with content is found intact at its own name and nothing else has changed. */
  method MountInputFiles(
    start: Directory, files: seq<ToolInputFile>, decode: string -> Option<Bytes>, writable: Name -> bool, created: bool)
    returns (r: Result<()>, dir: Directory, n: nat)
    ensures n <= |files|
    ensures forall i :: 0 <= i < n ==> Stored(dir, files[i], MountList(files)[i].relativePath, decode)
    ensures Holds(dir, files, MountList(files), n, decode) && RestKept(start, dir, files, MountList(files), n)
    ensures r.Ok? <==> files == [] || (created && AllStorable(files, MountList(files), |files|, decode, writable))
    ensures r.Ok? ==> n == |files|
    ensures AllStorable(files, MountList(files), n, decode, writable) || !created
    ensures r.Err? && created ==> n < |files| && !Storable(files[n], MountList(files)[n].relativePath, decode, writable)
    ensures r.Err? && !created ==> n == 0 && dir == start
  {
    if files == [] {
      return Ok(()), start, 0;
    }
    if !created {
      return Err("create_dir_all"), start, 0;
    }
    var mounted := MountedInputFiles(files);
    MountedNamesAreDistinctAndSafe(files);
    r, dir, n := WriteAll(start, files, mounted, decode, writable);
  }
}
