/** Relative output paths and the slash-separated names they are reported under. */
module OutputNames {
  import opened Wrappers
  import opened Paths

  /** What `Path::components` yields on Unix. */
  datatype Component = RootDir | CurDir | ParentDir | Normal(name: Name)

  function FirstSlash(s: string): (k: nat)
    ensures k <= |s| && (k < |s| ==> s[k] == '/')
  {
    if s == [] || s[0] == '/' then 0 else 1 + FirstSlash(s[1..])
  }

  function Split(s: string): (parts: seq<Name>)
    ensures parts != []
  {
    var k := FirstSlash(s);
    if k == |s| then [s] else [s[..k]] + Split(s[k + 1..])
  }

  /** Empty and "." parts vanish, except a "." at the very start. */
  function PartComponents(parts: seq<Name>, first: bool): seq<Component> {
    if parts == [] then []
    else
      var rest := PartComponents(parts[1..], false);
      if parts[0] == "" || (parts[0] == "." && !first) then rest
      else if parts[0] == "." then [CurDir] + rest
      else if parts[0] == ".." then [ParentDir] + rest
      else [Normal(parts[0])] + rest
  }

  predicate IsAbsolute(s: string) {
    s != "" && s[0] == '/'
  }

  function Components(s: string): seq<Component> {
    (if IsAbsolute(s) then [RootDir] else []) + PartComponents(Split(s), true)
  }

  function Join(parts: seq<Name>): string
    requires parts != []
  {
    if |parts| == 1 then parts[0] else parts[0] + "/" + Join(parts[1..])
  }

  function Names(cs: seq<Component>): seq<Name>
    requires forall i :: 0 <= i < |cs| ==> cs[i].Normal?
  {
    seq(|cs|, (i: nat) requires i < |cs| => cs[i].name)
  }

  function OutputName(cs: seq<Component>): Option<string> {
    if cs != [] && forall i :: 0 <= i < |cs| ==> cs[i].Normal? then Some(Join(Names(cs))) else None
  }

  method PathToOutputName(cs: seq<Component>) returns (r: Option<string>)
    ensures r == OutputName(cs)
  {
    var parts := [];
    for i := 0 to |cs|
      invariant forall k :: 0 <= k < i ==> cs[k].Normal?
      invariant |parts| == i && forall k :: 0 <= k < i ==> parts[k] == cs[k].name
    {
      if !cs[i].Normal? {
        return None;
      }
      parts := parts + [cs[i].name];
    }
    assert parts == Names(cs);
    r := if parts == [] then None else Some(Join(parts));
  }

  /** The name under which an explicitly requested output is known. */
  function NormalizedOutputName(name: string): Option<string> {
    if name == "" || IsAbsolute(name) then None else OutputName(Components(name))
  }

  // ---------------------------------------------------------------- names and paths are inverse

  /** A component that stands for itself in a path. */
  predicate Plain(name: Name) {
    name != "" && name != "." && name != ".." && '/' !in name
  }

  ghost predicate PlainPath(p: Path) {
    forall i :: 0 <= i < |p| ==> Plain(p[i])
  }

  ghost predicate NoSlashes(parts: seq<Name>) {
    forall i :: 0 <= i < |parts| ==> '/' !in parts[i]
  }

  function AsComponents(p: Path): seq<Component> {
    seq(|p|, (i: nat) requires i < |p| => Normal(p[i]))
  }

  lemma {:induction false} FirstSlashAfter(a: string, t: string)
    requires '/' !in a
    ensures FirstSlash(a + "/" + t) == |a|
    ensures FirstSlash(a) == |a|
    decreases |a|
  {
    var s := a + "/" + t;
    if a != [] {
      assert s[0] == a[0] && a[0] in a;
      assert s[1..] == a[1..] + "/" + t;
      assert forall c :: c in a[1..] ==> c in a;
      FirstSlashAfter(a[1..], t);
    }
  }

  lemma {:induction false} SplitJoin(p: Path)
    requires p != [] && NoSlashes(p)
    ensures Split(Join(p)) == p
    decreases |p|
  {
    if |p| == 1 {
      FirstSlashAfter(p[0], "");
    } else {
      SplitFirst(p[0], Join(p[1..]));
      SplitJoin(p[1..]);
      assert p == [p[0]] + p[1..];
    }
  }

  /** Splitting at the first slash. */
  lemma SplitFirst(a: string, t: string)
    requires '/' !in a
    ensures Split(a + "/" + t) == [a] + Split(t)
  {
    var s := a + "/" + t;
    FirstSlashAfter(a, t);
    assert s[..|a|] == a && s[|a| + 1..] == t;
  }

  lemma {:induction false} PlainParts(p: Path, first: bool)
    requires PlainPath(p)
    ensures PartComponents(p, first) == AsComponents(p)
    decreases |p|
  {
    if p != [] {
      assert Plain(p[0]);
      PlainParts(p[1..], false);
      assert AsComponents(p) == [Normal(p[0])] + AsComponents(p[1..]);
    }
  }

  lemma JoinHead(p: Path)
    requires p != [] && p[0] != ""
    ensures Join(p) != "" && Join(p)[0] == p[0][0]
  {
  }

  lemma PlainHasNoSlash(p: Path)
    requires PlainPath(p)
    ensures NoSlashes(p)
  {
    forall i | 0 <= i < |p| ensures '/' !in p[i] {
      assert Plain(p[i]);
    }
  }

  lemma PlainIsRelative(p: Path)
    requires p != [] && Plain(p[0])
    ensures Join(p) != "" && !IsAbsolute(Join(p))
  {
    JoinHead(p);
    assert p[0][0] in p[0];
  }

  lemma PlainComponents(p: Path)
    requires p != [] && PlainPath(p)
    ensures Components(Join(p)) == AsComponents(p)
  {
    PlainHasNoSlash(p);
    SplitJoin(p);
    PlainParts(p, true);
    PlainIsRelative(p);
  }

  lemma NamesOfComponents(p: Path)
    ensures Names(AsComponents(p)) == p
    ensures forall i :: 0 <= i < |p| ==> AsComponents(p)[i].Normal?
  {
  }

  /** Reading a reported name as a path gives the path it was made from. */
  lemma NameRoundTrip(p: Path)
    requires p != [] && PlainPath(p)
    ensures Components(Join(p)) == AsComponents(p)
    ensures OutputName(AsComponents(p)) == Some(Join(p))
    ensures NormalizedOutputName(Join(p)) == Some(Join(p))
  {
    PlainComponents(p);
    PlainIsRelative(p);
    NamesOfComponents(p);
  }

  lemma JoinInjective(p: Path, q: Path)
    requires p != [] && q != [] && PlainPath(p) && PlainPath(q) && Join(p) == Join(q)
    ensures p == q
  {
    PlainHasNoSlash(p);
    PlainHasNoSlash(q);
    SplitJoin(p);
    SplitJoin(q);
  }

  // ---------------------------------------------------------------- normal form

  lemma NoSlashesCons(part: Name, parts: seq<Name>)
    requires '/' !in part && NoSlashes(parts)
    ensures NoSlashes([part] + parts)
  {
  }

  lemma {:induction false} NoSlashBefore(s: string)
    ensures '/' !in s[..FirstSlash(s)]
    decreases |s|
  {
    if s != [] && s[0] != '/' {
      var k := FirstSlash(s[1..]);
      NoSlashBefore(s[1..]);
      assert s[..k + 1] == [s[0]] + s[1..][..k];
    }
  }

  lemma {:induction false} SplitParts(s: string)
    ensures NoSlashes(Split(s))
    decreases |s|
  {
    var k := FirstSlash(s);
    NoSlashBefore(s);
    if k == |s| {
      assert s[..k] == s;
    } else {
      SplitParts(s[k + 1..]);
      NoSlashesCons(s[..k], Split(s[k + 1..]));
    }
  }

  lemma {:induction false} PartsArePlain(parts: seq<Name>, first: bool)
    requires NoSlashes(parts)
    ensures forall i :: 0 <= i < |PartComponents(parts, first)| ==>
              var c := PartComponents(parts, first)[i]; c.Normal? ==> Plain(c.name)
    decreases |parts|
  {
    if parts != [] {
      PartsArePlain(parts[1..], false);
    }
  }

  /** Normalising is idempotent: a normalised name is its own normal form. */
  lemma NormalizedIsNormal(name: string)
    requires NormalizedOutputName(name).Some?
    ensures var n := NormalizedOutputName(name).value;
            NormalizedOutputName(n) == Some(n) && Components(n) == Components(name)
  {
    var cs := Components(name);
    SplitParts(name);
    PartsArePlain(Split(name), true);
    var p := Names(cs);
    forall i | 0 <= i < |p| ensures Plain(p[i]) {
      assert cs[i].Normal? && cs[i] == PartComponents(Split(name), true)[i];
    }
    NameRoundTrip(p);
    assert AsComponents(p) == cs;
  }

  // ---------------------------------------------------------------- one part more

  /** What a part contributes anywhere but at the very start. */
  function PartStep(part: Name): seq<Component> {
    if part == "" || part == "." then [] else if part == ".." then [ParentDir] else [Normal(part)]
  }

  lemma {:induction false} LastPart(parts: seq<Name>, part: Name, first: bool)
    requires parts != [] || !first
    ensures PartComponents(parts + [part], first) == PartComponents(parts, first) + PartStep(part)
    decreases |parts|
  {
    if parts == [] {
      assert parts + [part] == [part] && [part][1..] == [];
    } else {
      assert (parts + [part])[1..] == parts[1..] + [part];
      LastPart(parts[1..], part, false);
    }
  }

  lemma SplitOfPart(part: string)
    requires '/' !in part
    ensures Split(part) == [part]
  {
    FirstSlashAfter(part, "");
  }

  lemma Regroup(s: string, k: nat, part: string)
    requires k < |s| && s[k] == '/'
    ensures s == s[..k] + "/" + s[k + 1..]
    ensures s + "/" + part == s[..k] + "/" + (s[k + 1..] + "/" + part)
  {
  }

  lemma {:induction false} SplitLast(s: string, part: string)
    requires '/' !in part
    ensures Split(s + "/" + part) == Split(s) + [part]
    decreases |s|
  {
    var k := FirstSlash(s);
    NoSlashBefore(s);
    if k == |s| {
      assert s[..k] == s;
      SplitOfPart(s);
      SplitOfPart(part);
      SplitFirst(s, part);
    } else {
      var rest := s[k + 1..];
      SplitLast(rest, part);
      Regroup(s, k, part);
      SplitFirst(s[..k], rest);
      SplitFirst(s[..k], rest + "/" + part);
    }
  }

  /**
    A path read from its end: a part after a slash adds a component of its own unless it is
    empty or ".", and only a path that starts with a slash is rooted.
  */
  lemma ComponentsOfChild(s: string, part: string)
    requires '/' !in part
    ensures Components(s + "/" + part) == (if s == "" then [RootDir] else Components(s)) + PartStep(part)
  {
    SplitLast(s, part);
    LastPart(Split(s), part, true);
    if s == "" {
      assert PartComponents(Split(s), true) == [] by { assert Split(s) == [""] && [""][1..] == []; }
    } else {
      assert (s + "/" + part)[0] == s[0];
    }
  }

  /** A path without a slash; only here "." is a component. */
  lemma ComponentsOfPart(part: string)
    requires '/' !in part
    ensures Components(part) == if part == "." then [CurDir] else PartStep(part)
  {
    FirstSlashAfter(part, "");
    assert Split(part) == [part];
    assert PartComponents([part][1..], false) == [];
    assert part != "" ==> part[0] in part;
  }
}
