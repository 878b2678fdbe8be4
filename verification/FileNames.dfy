/** How the standard library splits a file name at its last dot. */
module FileNames {
  import opened Wrappers
  import opened Text
  import opened Paths

  function LastDot(name: Name): (r: Option<nat>)
    ensures r.Some? ==> r.value < |name| && name[r.value] == '.' && '.' !in name[r.value + 1..]
    ensures r.None? <==> '.' !in name
  {
    LastIndexOf(name, '.')
  }

  lemma DotBeforeExtension(stem: string, ext: string)
    requires '.' !in ext
    ensures var name := stem + "." + ext;
            LastDot(name) == Some(|stem|) && name[..|stem|] == stem && name[|stem| + 1..] == ext
  {
    var name := stem + "." + ext;
    assert name[|stem|] == '.' && name[|stem| + 1..] == ext;
    LastIndexIs(name, '.', |stem|);
  }

  /** `Path::extension`: none without a dot, for a leading dot only, and for "..". */
  function Extension(name: Name): Option<Name> {
    var dot := LastDot(name);
    if name == ".." || dot.None? || dot.value == 0 then None else Some(name[dot.value + 1..])
  }

  /** `Path::file_stem`. */
  function Stem(name: Name): Name {
    var dot := LastDot(name);
    if name == ".." || dot.None? || dot.value == 0 then name else name[..dot.value]
  }

  /** A name made up of two parts is split into them. */
  lemma PartsOfName(stem: string, ext: string)
    requires stem != "" && stem + "." + ext != ".." && '.' !in ext
    ensures Stem(stem + "." + ext) == stem && Extension(stem + "." + ext) == Some(ext)
  {
    DotBeforeExtension(stem, ext);
  }

  /** The two parts make up the name, and the extension is what follows the last dot. */
  lemma StemAndExtension(name: Name)
    ensures Extension(name).None? ==> Stem(name) == name
    ensures Extension(name).Some? ==>
              name == Stem(name) + "." + Extension(name).value && '.' !in Extension(name).value && Stem(name) != ""
    ensures Extension(name).None? <==> name == ".." || '.' !in name || (name[0] == '.' && '.' !in name[1..])
  {
    var dot := LastDot(name);
    if name != ".." && name != "" && name[0] == '.' && '.' !in name[1..] {
      LastIndexIs(name, '.', 0);
    }
  }
}
