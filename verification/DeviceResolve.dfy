/**
  Turning a device specification into a device.  Calling a driver whose runtime is absent is
  fatal, so every construction must come after a probe of the same runtime that found it.
  A run is described by its result and the trace of probes and constructions.
*/
module DeviceResolve {
  import opened Wrappers
  import opened DeviceSpec

  /** The features the binary was compiled with. */
  datatype Build = Build(cuda: bool, rocm: bool, npu: bool)

  datatype Runtime = Nvidia | Amd | Xdna

  /** Which runtimes are present, and the error of constructing a device, if any. */
  datatype Machine = Machine(present: Runtime -> bool, failure: (Runtime, nat) -> Option<string>)

  datatype Device = CpuDevice | GpuDevice(runtime: Runtime, ordinal: nat)

  datatype Event = Probe(runtime: Runtime, found: bool) | Construct(runtime: Runtime, ordinal: nat)

  datatype Outcome = Outcome(result: Result<Device>, trace: seq<Event>)

  const MAX_FIRST_AVAILABLE_ORDINAL: nat := 32

  // ---------------------------------------------------------------- explicit specifications

  function Construction(m: Machine, rt: Runtime, idx: nat): Result<Device> {
    var failure := m.failure(rt, idx);
    if failure.Some? then Err(failure.value) else Ok(GpuDevice(rt, idx))
  }

  /** Probe, then construct only if the probe passed. */
  function Gated(m: Machine, rt: Runtime, idx: nat): Outcome {
    if m.present(rt) then Outcome(Construction(m, rt, idx), [Probe(rt, true), Construct(rt, idx)])
    else Outcome(Err("no runtime is present"), [Probe(rt, false)])
  }

  function ResolveCuda(b: Build, m: Machine, idx: nat): Outcome {
    if !b.cuda && !b.rocm then Outcome(Err("this binary has no GPU backend"), [])
    else if !b.cuda then Gated(m, Amd, idx)
    else Gated(m, Nvidia, idx)
  }

  function ResolveHip(b: Build, m: Machine, idx: nat): Outcome {
    if !b.cuda && !b.rocm then Outcome(Err("this binary has no GPU backend"), [])
    else if b.rocm then Gated(m, Amd, idx)
    else Outcome(Err("this binary has no HIP backend"), [])
  }

  function ResolveNpu(b: Build, m: Machine, idx: nat): Outcome {
    if b.npu then Gated(m, Xdna, idx) else Outcome(Err("this binary has no NPU backend"), [])
  }

  function CudaAttempt(b: Build, m: Machine): nat -> Outcome {
    (n: nat) => ResolveCuda(b, m, n)
  }

  function HipAttempt(b: Build, m: Machine): nat -> Outcome {
    (n: nat) => ResolveHip(b, m, n)
  }

  function NpuAttempt(b: Build, m: Machine): nat -> Outcome {
    (n: nat) => ResolveNpu(b, m, n)
  }

  // ---------------------------------------------------------------- the first available device

  /** From ordinal `ord` on, with the error and the trace so far. */
  function FirstFrom(attempt: nat -> Outcome, ord: nat, last: string, trace: seq<Event>): Outcome
    decreases MAX_FIRST_AVAILABLE_ORDINAL - ord
  {
    if ord >= MAX_FIRST_AVAILABLE_ORDINAL then Outcome(Err(last), trace)
    else
      var o := attempt(ord);
      if o.result.Ok? then Outcome(o.result, trace + o.trace)
      else FirstFrom(attempt, ord + 1, o.result.error, trace + o.trace)
  }

  method FirstAvailable(attempt: nat -> Outcome) returns (r: Outcome)
    ensures r == FirstFrom(attempt, 0, "matched no available device", [])
  {
    var last := "matched no available device";
    var trace := [];
    for ord := 0 to MAX_FIRST_AVAILABLE_ORDINAL
      invariant FirstFrom(attempt, 0, "matched no available device", []) == FirstFrom(attempt, ord, last, trace)
    {
      var o := attempt(ord);
      trace := trace + o.trace;
      match o.result {
        case Ok(device) => return Outcome(o.result, trace);
        case Err(error) => last := error;
      }
    }
    r := Outcome(Err(last), trace);
  }

  function Resolution(b: Build, m: Machine, spec: DeviceSpec): Outcome {
    match spec
    case Cpu => Outcome(Ok(CpuDevice), [])
    case Cuda(idx) => ResolveCuda(b, m, idx)
    case Hip(idx) => ResolveHip(b, m, idx)
    case Npu(idx) => ResolveNpu(b, m, idx)
    case CudaFirst =>
      if b.rocm && !b.cuda then FirstFrom(HipAttempt(b, m), 0, "matched no available device", [])
      else FirstFrom(CudaAttempt(b, m), 0, "matched no available device", [])
    case HipFirst => FirstFrom(HipAttempt(b, m), 0, "matched no available device", [])
    case NpuFirst => FirstFrom(NpuAttempt(b, m), 0, "matched no available device", [])
  }

  method Resolve(b: Build, m: Machine, spec: DeviceSpec) returns (r: Outcome)
    ensures r == Resolution(b, m, spec)
    decreases if spec.CudaFirst? then 1 else 0
  {
    match spec {
      case Cpu => r := Outcome(Ok(CpuDevice), []);
      case Cuda(idx) => r := ResolveCuda(b, m, idx);
      case Hip(idx) => r := ResolveHip(b, m, idx);
      case Npu(idx) => r := ResolveNpu(b, m, idx);
      case CudaFirst =>
        if b.rocm && !b.cuda {
          r := Resolve(b, m, HipFirst);
        } else {
          r := FirstAvailable(CudaAttempt(b, m));
        }
      case HipFirst => r := FirstAvailable(HipAttempt(b, m));
      case NpuFirst => r := FirstAvailable(NpuAttempt(b, m));
    }
  }

  /** Dual builds serve the AMD role. */
  function ServingRole(b: Build): Runtime {
    if b.rocm then Amd else Nvidia
  }

  function AutoSelect(b: Build, m: Machine): Outcome {
    if !b.cuda && !b.rocm then Outcome(Ok(CpuDevice), [])
    else
      var role := ServingRole(b);
      if m.present(role) then Outcome(Construction(m, role, 0), [Probe(role, true), Construct(role, 0)])
      else if b.cuda && b.rocm then
        if m.present(Nvidia) then
          Outcome(Err("found an NVIDIA runtime but this build serves the AMD role"),
                  [Probe(role, false), Probe(Nvidia, true)])
        else Outcome(Ok(CpuDevice), [Probe(role, false), Probe(Nvidia, false)])
      else Outcome(Ok(CpuDevice), [Probe(role, false)])
  }

  // ---------------------------------------------------------------- every construction is gated

  ghost predicate WellGated(trace: seq<Event>) {
    forall k :: 0 <= k < |trace| && trace[k].Construct? ==>
      exists i :: 0 <= i < k && trace[i] == Probe(trace[k].runtime, true)
  }

  lemma GatedConcat(s: seq<Event>, t: seq<Event>)
    requires WellGated(s) && WellGated(t)
    ensures WellGated(s + t)
  {
    var u := s + t;
    forall k | 0 <= k < |u| && u[k].Construct? ensures exists i :: 0 <= i < k && u[i] == Probe(u[k].runtime, true) {
      if k < |s| {
        var i :| 0 <= i < k && s[i] == Probe(s[k].runtime, true);
        assert u[i] == s[i];
      } else {
        var i :| 0 <= i < k - |s| && t[i] == Probe(t[k - |s|].runtime, true);
        assert u[|s| + i] == t[i];
      }
    }
  }

  /** The probe results in the trace are those of the machine. */
  ghost predicate Truthful(m: Machine, trace: seq<Event>) {
    forall k :: 0 <= k < |trace| && trace[k].Probe? ==> trace[k].found == m.present(trace[k].runtime)
  }

  ghost predicate Sound(m: Machine, o: Outcome) {
    && WellGated(o.trace) && Truthful(m, o.trace)
    && (o.result.Ok? && o.result.value.GpuDevice? ==>
          && o.trace != [] && o.trace[|o.trace| - 1] == Construct(o.result.value.runtime, o.result.value.ordinal)
          && m.failure(o.result.value.runtime, o.result.value.ordinal).None?)
  }

  lemma GatedIsSound(m: Machine, rt: Runtime, idx: nat)
    ensures Sound(m, Gated(m, rt, idx))
  {
    var o := Gated(m, rt, idx);
    if m.present(rt) { assert o.trace[0] == Probe(rt, true); }
  }

  lemma {:induction false} FirstFromIsSound(
    m: Machine, attempt: nat -> Outcome, ord: nat, last: string, trace: seq<Event>)
    requires WellGated(trace) && Truthful(m, trace) && forall n :: Sound(m, attempt(n))
    ensures Sound(m, FirstFrom(attempt, ord, last, trace))
    decreases MAX_FIRST_AVAILABLE_ORDINAL - ord
  {
    if ord < MAX_FIRST_AVAILABLE_ORDINAL {
      var o := attempt(ord);
      assert Sound(m, o);
      GatedConcat(trace, o.trace);
      if o.result.Err? { FirstFromIsSound(m, attempt, ord + 1, o.result.error, trace + o.trace); }
    }
  }

  /** In every build, on every machine, for every specification. */
  lemma ResolutionIsGated(b: Build, m: Machine, spec: DeviceSpec)
    ensures Sound(m, Resolution(b, m, spec))
  {
    forall n: nat
      ensures Sound(m, CudaAttempt(b, m)(n)) && Sound(m, HipAttempt(b, m)(n)) && Sound(m, NpuAttempt(b, m)(n))
    {
      GatedIsSound(m, Nvidia, n);
      GatedIsSound(m, Amd, n);
      GatedIsSound(m, Xdna, n);
    }
    if spec.Cuda? || spec.Hip? || spec.Npu? {
      assert Sound(m, CudaAttempt(b, m)(spec.idx)) && Sound(m, HipAttempt(b, m)(spec.idx));
      assert Sound(m, NpuAttempt(b, m)(spec.idx));
    }
    if spec.CudaFirst? && !(b.rocm && !b.cuda) {
      FirstFromIsSound(m, CudaAttempt(b, m), 0, "matched no available device", []);
    } else if spec.HipFirst? || spec.CudaFirst? {
      FirstFromIsSound(m, HipAttempt(b, m), 0, "matched no available device", []);
    } else if spec.NpuFirst? {
      FirstFromIsSound(m, NpuAttempt(b, m), 0, "matched no available device", []);
    }
  }

  lemma AutoSelectIsGated(b: Build, m: Machine)
    ensures Sound(m, AutoSelect(b, m))
  {
    var role := ServingRole(b);
    if (b.cuda || b.rocm) && m.present(role) {
      assert AutoSelect(b, m) == Gated(m, role, 0);
      GatedIsSound(m, role, 0);
    } else {
      assert forall k :: 0 <= k < |AutoSelect(b, m).trace| ==> AutoSelect(b, m).trace[k].Probe?;
    }
  }

  // ---------------------------------------------------------------- bare names

  /** The runtime an interface name stands for in a build, if the build has one for it. */
  function RuntimeOf(b: Build, spec: DeviceSpec): Option<Runtime> {
    if spec.Cuda? || spec.CudaFirst? then
      if b.cuda then Some(Nvidia) else if b.rocm then Some(Amd) else None
    else if spec.Hip? || spec.HipFirst? then
      if b.rocm then Some(Amd) else None
    else if spec.Npu? || spec.NpuFirst? then
      if b.npu then Some(Xdna) else None
    else None
  }

  predicate Usable(b: Build, m: Machine, spec: DeviceSpec, n: nat) {
    var rt := RuntimeOf(b, spec);
    rt.Some? && m.present(rt.value) && m.failure(rt.value, n).None?
  }

  /** An explicit index gives that very device, or an error if and only if it cannot be had. */
  lemma ExplicitTakesIndex(b: Build, m: Machine, spec: DeviceSpec)
    requires spec.Cuda? || spec.Hip? || spec.Npu?
    ensures Resolution(b, m, spec).result.Ok? <==> Usable(b, m, spec, spec.idx)
    ensures Usable(b, m, spec, spec.idx) ==>
              Resolution(b, m, spec).result == Ok(GpuDevice(RuntimeOf(b, spec).value, spec.idx))
  {
  }

  /** The least ordinal that constructs is taken, and the last error is kept if none does. */
  lemma {:induction false} FirstFromIsLeast(attempt: nat -> Outcome, ord: nat, last: string, trace: seq<Event>)
    requires ord <= MAX_FIRST_AVAILABLE_ORDINAL
    ensures var r := FirstFrom(attempt, ord, last, trace).result;
            if r.Ok? then
              exists k :: ord <= k < MAX_FIRST_AVAILABLE_ORDINAL && attempt(k).result == r &&
                forall i :: ord <= i < k ==> attempt(i).result.Err?
            else
              && (forall i :: ord <= i < MAX_FIRST_AVAILABLE_ORDINAL ==> attempt(i).result.Err?)
              && r == Err(if ord == MAX_FIRST_AVAILABLE_ORDINAL
                  then last else attempt(MAX_FIRST_AVAILABLE_ORDINAL - 1).result.error)
    decreases MAX_FIRST_AVAILABLE_ORDINAL - ord
  {
    if ord < MAX_FIRST_AVAILABLE_ORDINAL {
      var o := attempt(ord);
      if o.result.Err? { FirstFromIsLeast(attempt, ord + 1, o.result.error, trace + o.trace); }
    }
  }

  function AttemptOf(b: Build, m: Machine, spec: DeviceSpec): nat -> Outcome {
    if spec.NpuFirst? then NpuAttempt(b, m)
    else if spec.HipFirst? || (b.rocm && !b.cuda) then HipAttempt(b, m)
    else CudaAttempt(b, m)
  }

  lemma AttemptSucceedsIffUsable(b: Build, m: Machine, spec: DeviceSpec, n: nat)
    requires spec.CudaFirst? || spec.HipFirst? || spec.NpuFirst?
    ensures AttemptOf(b, m, spec)(n).result.Ok? <==> Usable(b, m, spec, n)
    ensures Usable(b, m, spec, n) ==> AttemptOf(b, m, spec)(n).result == Ok(GpuDevice(RuntimeOf(b, spec).value, n))
  {
  }

  /** A bare name gives the lowest ordinal below the bound that constructs, or an error iff there is none. */
  lemma BareNameTakesLowest(b: Build, m: Machine, spec: DeviceSpec)
    requires spec.CudaFirst? || spec.HipFirst? || spec.NpuFirst?
    ensures Resolution(b, m, spec).result.Err?
            <==> forall n :: 0 <= n < MAX_FIRST_AVAILABLE_ORDINAL ==> !Usable(b, m, spec, n)
    ensures Resolution(b, m, spec).result.Ok? ==>
              exists k :: 0 <= k < MAX_FIRST_AVAILABLE_ORDINAL && Usable(b, m, spec, k)
                          && Resolution(b, m, spec).result == Ok(GpuDevice(RuntimeOf(b, spec).value, k))
                          && forall n :: 0 <= n < k ==> !Usable(b, m, spec, n)
  {
    var attempt := AttemptOf(b, m, spec);
    var first := FirstFrom(attempt, 0, "matched no available device", []);
    SameFirst(b, m, spec);
    FirstFromIsLeast(attempt, 0, "matched no available device", []);
    forall n: nat
      ensures (attempt(n).result.Ok? <==> Usable(b, m, spec, n))
              && (Usable(b, m, spec, n) ==> attempt(n).result == Ok(GpuDevice(RuntimeOf(b, spec).value, n)))
    {
      AttemptSucceedsIffUsable(b, m, spec, n);
    }
  }

  lemma SameFirst(b: Build, m: Machine, spec: DeviceSpec)
    requires spec.CudaFirst? || spec.HipFirst? || spec.NpuFirst?
    ensures Resolution(b, m, spec) == FirstFrom(AttemptOf(b, m, spec), 0, "matched no available device", [])
  {
  }

  /** Automatic selection: device 0 of the serving role, never an NVIDIA device in a dual build. */
  lemma AutoSelectChoice(b: Build, m: Machine)
    ensures AutoSelect(b, m).result.Ok? && AutoSelect(b, m).result.value.GpuDevice? ==>
              AutoSelect(b, m).result.value == GpuDevice(ServingRole(b), 0)
              && (b.cuda || b.rocm) && m.present(ServingRole(b))
    ensures AutoSelect(b, m).result == Ok(CpuDevice)
            <==> (b.cuda ==> !m.present(Nvidia)) && (b.rocm ==> !m.present(Amd))
  {
  }
}
