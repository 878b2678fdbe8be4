/** Device strings: parsing and printing. */
module DeviceSpec {
  import opened Wrappers
  import opened Text
  import opened Decimal

  type Usize = n: nat | n < 0x1_0000_0000_0000_0000

  datatype DeviceSpec = Cpu | Cuda(idx: Usize) | Hip(idx: Usize) | Npu(idx: Usize) | CudaFirst | HipFirst | NpuFirst

  /** `str::parse::<usize>`: an optional plus sign, then digits that fit. */
  function ParseUsize(s: string): Option<Usize> {
    var digits := if s != "" && s[0] == '+' then s[1..] else s;
    if digits == "" || !Digits(digits) || Value(digits) >= 0x1_0000_0000_0000_0000 then None else Some(Value(digits))
  }

  datatype Api = CpuApi | CudaApi | HipApi | NpuApi | VulkanApi | UnknownApi

  /** Interface names in any ASCII case; "rocm" is another name of "hip". */
  function ApiOf(s: string): Api {
    var lower := AsciiLower(s);
    if lower == "cpu" then CpuApi
    else if lower == "cuda" then CudaApi
    else if lower == "hip" || lower == "rocm" then HipApi
    else if lower == "npu" then NpuApi
    else if lower == "vulkan" then VulkanApi
    else UnknownApi
  }

  /** What a name means without an index. */
  function Bare(api: Api): Option<DeviceSpec> {
    match api
    case CpuApi => Some(Cpu)
    case CudaApi => Some(CudaFirst)
    case HipApi => Some(HipFirst)
    case NpuApi => Some(NpuFirst)
    case _ => None
  }

  /** What a name means before an index. */
  function WithIndex(api: Api, idx: Usize): Result<DeviceSpec> {
    match api
    case CudaApi => Ok(Cuda(idx))
    case HipApi => Ok(Hip(idx))
    case NpuApi => Ok(Npu(idx))
    case VulkanApi => Err("vulkan is not supported yet")
    case _ => Err("unknown device API")
  }

  function Parse(str: string): Result<DeviceSpec> {
    ParseTrimmed(Trim(str), ApiOf, ParseUsize)
  }

  function ParseTrimmed(s: string, names: string -> Api, number: string -> Option<Usize>): Result<DeviceSpec> {
    if Bare(names(s)).Some? then Ok(Bare(names(s)).value)
    else
      var colon := LastIndexOf(s, ':');
      if colon.None? then Err("invalid device string")
      else
        var idx := number(s[colon.value + 1..]);
        if idx.None? then Err("invalid device string")
        else WithIndex(names(s[..colon.value]), idx.value)
  }

  function Display(spec: DeviceSpec): string {
    match spec
    case Cpu => "cpu"
    case Cuda(idx) => "cuda" + ":" + Numeral(idx)
    case Hip(idx) => "hip" + ":" + Numeral(idx)
    case Npu(idx) => "npu" + ":" + Numeral(idx)
    case CudaFirst => "cuda"
    case HipFirst => "hip"
    case NpuFirst => "npu"
  }

  // ---------------------------------------------------------------- all spellings of a device

  /** A spelling: blanks around a bare name, or around a name, a colon and a number. */
  ghost predicate Spells(str: string, spec: DeviceSpec) {
    exists before, core, after ::
      && str == before + core + after && Blank(before) && Blank(after)
      && SpellsCore(core, spec, ApiOf, ParseUsize)
  }

  ghost predicate SpellsCore(core: string, spec: DeviceSpec, names: string -> Api, number: string -> Option<Usize>) {
    || Bare(names(core)) == Some(spec)
    || exists api, num :: core == api + ":" + num && SpellsIndexed(api, num, spec, names, number)
  }

  ghost predicate SpellsIndexed(
    api: string, num: string, spec: DeviceSpec, names: string -> Api, number: string -> Option<Usize>)
  {
    number(num).Some? && WithIndex(names(api), number(num).value) == Ok(spec)
  }

  /** Names of interfaces have no blanks at their ends and no colon inside. */
  ghost predicate Proper(names: string -> Api) {
    forall s :: Bare(names(s)).Some? ==> Tight(s) && ':' !in s
  }

  lemma ApiNamesAreProper()
    ensures Proper(ApiOf)
  {
    forall s | Bare(ApiOf(s)).Some? ensures Tight(s) && ':' !in s {
      LowerEnds(s, AsciiLower(s));
    }
  }

  lemma LowerEnds(s: string, t: string)
    requires AsciiLower(s) == t && t in {"cpu", "cuda", "hip", "rocm", "npu"}
    ensures Tight(s) && ':' !in s
  {
    assert forall i :: 0 <= i < |s| ==> 'a' <= LowerChar(s[i]) <= 'z';
    forall i | 0 <= i < |s| ensures !IsWhitespace(s[i]) && s[i] != ':' {
      assert 'a' <= LowerChar(s[i]) <= 'z';
    }
  }

  /** Nor do numbers have blanks or colons. */
  ghost predicate ProperNumbers(number: string -> Option<Usize>) {
    forall s :: number(s).Some? ==> s != "" && !IsWhitespace(s[|s| - 1]) && ':' !in s
  }

  lemma NumbersAreProper()
    ensures ProperNumbers(ParseUsize)
  {
    forall s | ParseUsize(s).Some? ensures s != "" && !IsWhitespace(s[|s| - 1]) && ':' !in s {
      forall i | 0 <= i < |s| ensures s[i] == '+' || IsDigit(s[i]) {
        if i > 0 && s[0] == '+' { assert s[i] == s[1..][i - 1]; }
      }
    }
  }

  lemma IndexedParses(api: string, num: string, spec: DeviceSpec, names: string -> Api, number: string -> Option<Usize>)
    requires Proper(names) && ProperNumbers(number) && SpellsIndexed(api, num, spec, names, number)
    ensures ParseTrimmed(api + ":" + num, names, number) == Ok(spec)
  {
    var s := api + ":" + num;
    ColonSplits(api, num);
    assert Bare(names(s)).None? by { assert ':' in s; }
  }

  lemma ColonSplits(api: string, num: string)
    requires ':' !in num
    ensures LastIndexOf(api + ":" + num, ':') == Some(|api|)
    ensures (api + ":" + num)[..|api|] == api && (api + ":" + num)[|api| + 1..] == num
    ensures (api + ":" + num)[|api|] == ':'
  {
    CutAt(api, ":", num);
    LastIndexIs(api + ":" + num, ':', |api|);
  }

  lemma CutAt(before: string, sep: string, after: string)
    requires |sep| == 1
    ensures (before + sep + after)[..|before|] == before && (before + sep + after)[|before| + 1..] == after
    ensures (before + sep + after)[|before|] == sep[0]
  {
  }

  lemma IndexedIsTight(
    api: string, num: string, spec: DeviceSpec, names: string -> Api, number: string -> Option<Usize>)
    requires Proper(names) && ProperNumbers(number) && SpellsIndexed(api, num, spec, names, number)
    ensures Tight(api + ":" + num)
  {
    var s := api + ":" + num;
    assert Bare(names(api)).Some?;
    assert s[|s| - 1] == num[|num| - 1] && s[0] == api[0];
  }

  lemma CoreParses(core: string, spec: DeviceSpec, names: string -> Api, number: string -> Option<Usize>)
    requires Proper(names) && ProperNumbers(number) && SpellsCore(core, spec, names, number)
    ensures ParseTrimmed(core, names, number) == Ok(spec) && Tight(core)
  {
    if Bare(names(core)) != Some(spec) {
      var api, num :| core == api + ":" + num && SpellsIndexed(api, num, spec, names, number);
      IndexedParses(api, num, spec, names, number);
      IndexedIsTight(api, num, spec, names, number);
    }
  }

  lemma ParsedCore(s: string, spec: DeviceSpec, names: string -> Api, number: string -> Option<Usize>)
    requires ParseTrimmed(s, names, number) == Ok(spec)
    ensures SpellsCore(s, spec, names, number)
  {
    if Bare(names(s)).None? {
      var colon := LastIndexOf(s, ':').value;
      assert s == s[..colon] + ":" + s[colon + 1..] && SpellsIndexed(s[..colon], s[colon + 1..], spec, names, number);
    }
  }

  /** The accepted strings are exactly the spellings, and each spells one device only. */
  lemma ParseIffSpells(str: string, spec: DeviceSpec)
    ensures Parse(str) == Ok(spec) <==> Spells(str, spec)
  {
    if Spells(str, spec) {
      ApiNamesAreProper();
      NumbersAreProper();
      var before, core, after :|
        str == before + core + after && Blank(before) && Blank(after) && SpellsCore(core, spec, ApiOf, ParseUsize);
      CoreParses(core, spec, ApiOf, ParseUsize);
      TrimOf(before, core, after);
    }
    if Parse(str) == Ok(spec) {
      var before, after := TrimSplits(str);
      ParsedCore(Trim(str), spec, ApiOf, ParseUsize);
    }
  }

  lemma {:induction false} LeadingZeros(zeros: string, digits: string)
    requires Digits(zeros) && Digits(digits) && Value(zeros) == 0
    ensures Digits(zeros + digits) && Value(zeros + digits) == Value(digits)
    decreases |digits|
  {
    var s := zeros + digits;
    if digits == "" {
      assert s == zeros;
    } else {
      assert s[..|s| - 1] == zeros + digits[..|digits| - 1];
      LeadingZeros(zeros, digits[..|digits| - 1]);
    }
  }

  function InRange(n: nat): Option<Usize> {
    if n < 0x1_0000_0000_0000_0000 then Some(n) else None
  }

  lemma DigitsParse(s: string)
    requires s != "" && Digits(s)
    ensures ParseUsize(s) == InRange(Value(s)) && ParseUsize("+" + s) == InRange(Value(s))
  {
    assert ("+" + s)[1..] == s;
    assert IsDigit(s[0]);
  }

  /** A number may have a plus sign and leading zeros; it is rejected exactly when it does not fit. */
  lemma NumberSpellings(zeros: string, n: nat)
    requires Digits(zeros) && Value(zeros) == 0
    ensures ParseUsize(zeros + Numeral(n)) == InRange(n)
    ensures ParseUsize("+" + (zeros + Numeral(n))) == InRange(n)
  {
    ValueOfNumeral(n);
    LeadingZeros(zeros, Numeral(n));
    DigitsParse(zeros + Numeral(n));
  }

  lemma NumeralParses(n: Usize)
    ensures ParseUsize(Numeral(n)) == Some(n)
  {
    ValueOfNumeral(n);
    DigitsParse(Numeral(n));
  }

  lemma PrintedNames()
    ensures ApiOf("cpu") == CpuApi && ApiOf("cuda") == CudaApi && ApiOf("hip") == HipApi && ApiOf("npu") == NpuApi
  {
    assert AsciiLower("cpu") == "cpu" && AsciiLower("cuda") == "cuda";
    assert AsciiLower("hip") == "hip" && AsciiLower("npu") == "npu";
  }

  lemma IndexedSpells(
    api: string, num: string, idx: Usize, spec: DeviceSpec, names: string -> Api, number: string -> Option<Usize>)
    requires number(num) == Some(idx) && WithIndex(names(api), idx) == Ok(spec)
    ensures SpellsCore(api + ":" + num, spec, names, number)
  {
    assert SpellsIndexed(api, num, spec, names, number);
  }

  lemma PrintedSpells(api: string, idx: Usize, spec: DeviceSpec)
    requires WithIndex(ApiOf(api), idx) == Ok(spec)
    ensures SpellsCore(api + ":" + Numeral(idx), spec, ApiOf, ParseUsize)
  {
    NumeralParses(idx);
    IndexedSpells(api, Numeral(idx), idx, spec, ApiOf, ParseUsize);
  }

  lemma DisplaySpells(spec: DeviceSpec)
    ensures SpellsCore(Display(spec), spec, ApiOf, ParseUsize)
  {
    PrintedNames();
    match spec
    case Cuda(idx) => PrintedSpells("cuda", idx, spec);
    case Hip(idx) => PrintedSpells("hip", idx, spec);
    case Npu(idx) => PrintedSpells("npu", idx, spec);
    case _ =>
  }

  /** Printing and parsing gives the device back, for every index. */
  lemma ParseOfDisplay(spec: DeviceSpec)
    ensures Parse(Display(spec)) == Ok(spec)
  {
    DisplaySpells(spec);
    assert Display(spec) == "" + Display(spec) + "";
    ParseIffSpells(Display(spec), spec);
  }

  /** Printing what was parsed is a normal form of the string. */
  lemma DisplayIsNormalForm(str: string)
    requires Parse(str).Ok?
    ensures Parse(Display(Parse(str).value)) == Parse(str)
  {
    ParseOfDisplay(Parse(str).value);
  }

  /** Different devices print differently. */
  lemma DisplayInjective(a: DeviceSpec, b: DeviceSpec)
    requires Display(a) == Display(b)
    ensures a == b
  {
    ParseOfDisplay(a);
    ParseOfDisplay(b);
  }

  // ---------------------------------------------------------------- names in plain terms

  lemma BareParses(s: string, spec: DeviceSpec)
    requires Bare(ApiOf(s)) == Some(spec)
    ensures Parse(s) == Ok(spec)
  {
    assert SpellsCore(s, spec, ApiOf, ParseUsize);
    assert s == "" + s + "";
    ParseIffSpells(s, spec);
  }

  /** A name alone, in any ASCII case. */
  lemma NamesAlone(s: string)
    ensures AsciiLower(s) == "cpu" ==> Parse(s) == Ok(Cpu)
    ensures AsciiLower(s) == "cuda" ==> Parse(s) == Ok(CudaFirst)
    ensures AsciiLower(s) == "hip" || AsciiLower(s) == "rocm" ==> Parse(s) == Ok(HipFirst)
    ensures AsciiLower(s) == "npu" ==> Parse(s) == Ok(NpuFirst)
  {
    if Bare(ApiOf(s)).Some? { BareParses(s, Bare(ApiOf(s)).value); }
  }

  lemma IndexParses(api: string, idx: Usize, spec: DeviceSpec)
    requires WithIndex(ApiOf(api), idx) == Ok(spec)
    ensures Parse(api + ":" + Numeral(idx)) == Ok(spec)
  {
    var s := api + ":" + Numeral(idx);
    PrintedSpells(api, idx, spec);
    assert s == "" + s + "";
    ParseIffSpells(s, spec);
  }

  /** A name with an index, in any ASCII case; "rocm" is "hip" here as well. */
  lemma NamesWithIndex(api: string, idx: Usize)
    ensures AsciiLower(api) == "cuda" ==> Parse(api + ":" + Numeral(idx)) == Ok(Cuda(idx))
    ensures AsciiLower(api) == "hip" || AsciiLower(api) == "rocm" ==> Parse(api + ":" + Numeral(idx)) == Ok(Hip(idx))
    ensures AsciiLower(api) == "npu" ==> Parse(api + ":" + Numeral(idx)) == Ok(Npu(idx))
  {
    if WithIndex(ApiOf(api), idx).Ok? { IndexParses(api, idx, WithIndex(ApiOf(api), idx).value); }
  }

  predicate KnownName(name: string, indexed: bool) {
    (name == "cpu" && !indexed) || name == "cuda" || name == "hip" || name == "rocm" || name == "npu"
  }

  lemma NameIsKnown(api: string, idx: Usize)
    ensures Bare(ApiOf(api)).Some? <==> KnownName(AsciiLower(api), false)
    ensures WithIndex(ApiOf(api), idx).Ok? <==> KnownName(AsciiLower(api), true)
  {
  }

  /** Nothing else is accepted: no other name, and no index after "cpu". */
  lemma OtherNamesFail(str: string) returns (before: string, api: string, index: string, after: string)
    requires Parse(str).Ok?
    ensures str == before + (api + index) + after && Blank(before) && Blank(after)
    ensures index == "" || (index[0] == ':' && ParseUsize(index[1..]).Some?)
    ensures KnownName(AsciiLower(api), index != "")
  {
    var spec := Parse(str).value;
    ParseIffSpells(str, spec);
    var core: string;
    before, core, after :| str == before + core + after && Blank(before) && Blank(after)
                           && SpellsCore(core, spec, ApiOf, ParseUsize);
    api, index := CoreNames(core, spec, ApiOf, ParseUsize);
    NameIsKnown(api, if index == "" then 0 else ParseUsize(index[1..]).value);
  }

  lemma CoreNames(core: string, spec: DeviceSpec, names: string -> Api, number: string -> Option<Usize>)
    returns (api: string, index: string)
    requires SpellsCore(core, spec, names, number)
    ensures core == api + index
    ensures if index == "" then Bare(names(api)).Some?
            else index[0] == ':' && SpellsIndexed(api, index[1..], spec, names, number)
  {
    if Bare(names(core)) == Some(spec) {
      api, index := core, "";
    } else {
      var num: string;
      api, num :| core == api + ":" + num && SpellsIndexed(api, num, spec, names, number);
      index := ":" + num;
      assert index[1..] == num && core == api + index;
    }
  }

  // ---------------------------------------------------------------- the printed form is the shortest

  lemma BareLength(s: string, spec: DeviceSpec)
    requires Bare(ApiOf(s)) == Some(spec)
    ensures |Display(spec)| <= |s|
  {
    assert |AsciiLower(s)| == |s|;
  }

  lemma NumberLength(num: string)
    requires ParseUsize(num).Some?
    ensures |Numeral(ParseUsize(num).value)| <= |num|
  {
    NumeralIsShortest(if num[0] == '+' then num[1..] else num);
  }

  lemma NameLength(api: string, idx: Usize)
    requires WithIndex(ApiOf(api), idx).Ok?
    ensures |Display(WithIndex(ApiOf(api), idx).value)| <= |api| + 1 + |Numeral(idx)|
  {
    assert |AsciiLower(api)| == |api|;
  }

  lemma IndexedLength(api: string, num: string, spec: DeviceSpec)
    requires SpellsIndexed(api, num, spec, ApiOf, ParseUsize)
    ensures |Display(spec)| <= |api| + 1 + |num|
  {
    NumberLength(num);
    NameLength(api, ParseUsize(num).value);
  }

  lemma DisplayIsLower(spec: DeviceSpec)
    ensures AsciiLower(Display(spec)) == Display(spec)
  {
    var s := Display(spec);
    forall i | 0 <= i < |s| ensures LowerChar(s[i]) == s[i] {
      if (spec.Cuda? || spec.Hip? || spec.Npu?) && i >= |s| - |Numeral(spec.idx)| {
        assert s[i] == Numeral(spec.idx)[i - (|s| - |Numeral(spec.idx)|)];
      }
    }
  }

  /** Of all spellings of a device the printed one is a shortest, in lower case. */
  lemma DisplayIsShortest(str: string)
    requires Parse(str).Ok?
    ensures var printed := Display(Parse(str).value); |printed| <= |str| && AsciiLower(printed) == printed
  {
    DisplayIsLower(Parse(str).value);
    var spec := Parse(str).value;
    ParseIffSpells(str, spec);
    var before, core, after :| str == before + core + after && Blank(before) && Blank(after)
                               && SpellsCore(core, spec, ApiOf, ParseUsize);
    if Bare(ApiOf(core)) == Some(spec) {
      BareLength(core, spec);
    } else {
      var api, num :| core == api + ":" + num && SpellsIndexed(api, num, spec, ApiOf, ParseUsize);
      IndexedLength(api, num, spec);
    }
  }
}
