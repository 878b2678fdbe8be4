/** Splitting one paged key/value budget among the models that are loaded together. */
module ResourcePlan {
  import opened Wrappers

  const USIZE_MAX: nat := 0xFFFF_FFFF_FFFF_FFFF

  datatype CacheType = Auto | F8E4M3 | Other(nat)

  datatype MemoryGpu =
    | MbAmount(mb: nat)
    | BestEffortMbAmount(targetMb: nat, minMb: Option<nat>)
    | Utilization(fraction: real)
    | ContextSize(tokens: nat)

  datatype PagedConfig = PagedConfig(
    blockSize: Option<nat>,
    memGpu: MemoryGpu,
    cacheType: CacheType,
    kCacheType: Option<CacheType>,
    vCacheType: Option<CacheType>,
    servingCapacity: Option<nat>,
    baseReservation: nat,
    primaryReservation: nat,
    mappedReservation: nat,
    checkpointLanes: nat,
    checkpointLanesAuto: bool,
    prefixCapacity: nat,
    resolveAfterLoad: bool,
    fitCtx: bool)

  function NewConfig(blockSize: Option<nat>, memGpu: MemoryGpu, cacheType: CacheType): PagedConfig {
    PagedConfig(blockSize, memGpu, cacheType, None, None, None, 0, 0, 0, 1, false, 0, true, false)
  }

  datatype Request = Request(pagedAttn: Option<PagedConfig>, maxNumSeqs: nat)

  // ---------------------------------------------------------------- shares

  function DivCeil(a: nat, b: nat): nat
    requires b > 0
  {
    if a % b == 0 then a / b else a / b + 1
  }

  function SaturatingMul(a: nat, b: nat): nat {
    if a * b <= USIZE_MAX then a * b else USIZE_MAX
  }

  function Max1(x: nat): nat {
    if x == 0 then 1 else x
  }

  function Share(value: nat, weight: nat, active: nat): nat
    requires active > 0
  {
    Max1(DivCeil(SaturatingMul(value, weight), active))
  }

  /** The share without saturation. */
  function FairShare(value: nat, weight: nat, active: nat): nat
    requires active > 0
  {
    Max1(DivCeil(value * weight, active))
  }

  function Fraction(f: real, weight: nat, active: nat): real
    requires active > 0
  {
    f * (weight as real) / (active as real)
  }

  function SplitMemory(mem: MemoryGpu, weight: nat, active: nat): MemoryGpu
    requires active > 0
  {
    match mem
    case MbAmount(mb) => BestEffortMbAmount(Share(mb, weight, active), None)
    case BestEffortMbAmount(target, min) =>
      BestEffortMbAmount(Share(target, weight, active),
                         if min.Some? then Some(Share(min.value, weight, active)) else None)
    case Utilization(f) => Utilization(Fraction(f, weight, active))
    case ContextSize(tokens) => ContextSize(Share(tokens, weight, active))
  }

  function SplitConfig(config: PagedConfig, weight: nat, active: nat): PagedConfig
    requires active > 0
  {
    NewConfig(config.blockSize, SplitMemory(config.memGpu, weight, active), config.cacheType).(
      kCacheType := config.kCacheType,
      vCacheType := config.vCacheType,
      servingCapacity := config.servingCapacity,
      baseReservation := config.baseReservation,
      primaryReservation := config.primaryReservation,
      mappedReservation := config.mappedReservation,
      checkpointLanes := config.checkpointLanes,
      checkpointLanesAuto := config.checkpointLanesAuto,
      prefixCapacity := config.prefixCapacity,
      resolveAfterLoad := config.resolveAfterLoad && weight == active)
  }

  function Weight(model: Request): nat {
    Max1(model.maxNumSeqs)
  }

  function Active(models: seq<Request>): seq<Request> {
    if models == [] then []
    else if models[0].pagedAttn.Some? then [models[0]] + Active(models[1..])
    else Active(models[1..])
  }

  function TotalWeight(models: seq<Request>): nat {
    if models == [] then 0 else Weight(models[0]) + TotalWeight(models[1..])
  }

  function ActiveWeight(models: seq<Request>): (w: nat)
    ensures w > 0
  {
    Max1(TotalWeight(Active(models)))
  }

  function PlanOne(model: Request, active: nat): Option<PagedConfig>
    requires active > 0
  {
    if model.pagedAttn.Some? then Some(SplitConfig(model.pagedAttn.value, Weight(model), active)) else None
  }

  function PlanAll(models: seq<Request>, active: nat): (plan: seq<Option<PagedConfig>>)
    requires active > 0
    ensures |plan| == |models| && forall i :: 0 <= i < |models| ==> plan[i] == PlanOne(models[i], active)
  {
    if models == [] then [] else [PlanOne(models[0], active)] + PlanAll(models[1..], active)
  }

  function Plan(models: seq<Request>): (plan: seq<Option<PagedConfig>>)
    ensures |plan| == |models|
  {
    PlanAll(models, ActiveWeight(models))
  }

  // ---------------------------------------------------------------- one share

  /** Ceiling division is the least multiple that suffices. */
  lemma DivCeilBounds(a: nat, b: nat)
    requires b > 0
    ensures a <= b * DivCeil(a, b) <= a + b - 1
  {
    assert a == b * (a / b) + a % b;
    assert b * (a / b + 1) == b * (a / b) + b;
  }

  lemma DivCeilLeast(a: nat, b: nat, q: nat)
    requires b > 0
    ensures DivCeil(a, b) <= q <==> a <= b * q
  {
    DivCeilBounds(a, b);
    var d := DivCeil(a, b);
    if d <= q {
      assert b * d <= b * q;
    } else {
      assert b * q <= b * (d - 1) == b * d - b;
    }
  }

  lemma DivCeilMonotone(a: nat, c: nat, b: nat)
    requires b > 0 && a <= c
    ensures DivCeil(a, b) <= DivCeil(c, b)
  {
    DivCeilBounds(c, b);
    DivCeilLeast(a, b, DivCeil(c, b));
  }

  lemma ProductMonotone(a: nat, b: nat, w: nat)
    requires a <= b
    ensures a * w <= b * w
  {
  }

  /** A larger budget never gets a smaller share, so a minimum stays below its target. */
  lemma ShareMonotone(small: nat, large: nat, weight: nat, active: nat)
    requires active > 0 && small <= large
    ensures Share(small, weight, active) <= Share(large, weight, active)
  {
    ProductMonotone(small, large, weight);
    DivCeilMonotone(SaturatingMul(small, weight), SaturatingMul(large, weight), active);
  }

  lemma FairShareRange(value: nat, weight: nat, active: nat)
    requires 1 <= weight <= active && value >= 1
    ensures 1 <= DivCeil(value * weight, active) <= value
    ensures FairShare(value, weight, active) == DivCeil(value * weight, active)
  {
    ProductMonotone(weight, active, value);
    ProductMonotone(1, weight, value);
    assert value * weight == weight * value && active * value == value * active;
    DivCeilLeast(value * weight, active, value);
    DivCeilLeast(value * weight, active, 0);
  }

  lemma ShareAtMostFair(value: nat, weight: nat, active: nat)
    requires active > 0
    ensures Share(value, weight, active) <= FairShare(value, weight, active)
  {
    DivCeilMonotone(SaturatingMul(value, weight), value * weight, active);
  }

  /** Shares lie between 1 and the whole budget. */
  lemma ShareRange(value: nat, weight: nat, active: nat)
    requires 1 <= weight <= active && value >= 1
    ensures 1 <= Share(value, weight, active) <= value
  {
    FairShareRange(value, weight, active);
    ShareAtMostFair(value, weight, active);
  }

  /** Saturation is harmless exactly while the product fits below the rounded-up limit. */
  lemma ShareIsFairIff(value: nat, weight: nat, active: nat)
    requires active > 0
    ensures Share(value, weight, active) == FairShare(value, weight, active)
            <==> value * weight <= active * DivCeil(USIZE_MAX, active)
  {
    var p := value * weight;
    DivCeilBounds(USIZE_MAX, active);
    DivCeilLeast(USIZE_MAX, active, 0);
    if p > USIZE_MAX {
      DivCeilLeast(p, active, DivCeil(USIZE_MAX, active));
      DivCeilMonotone(USIZE_MAX, p, active);
    }
  }

  // ---------------------------------------------------------------- the sum of all shares

  function TotalShare(models: seq<Request>, value: nat, active: nat): nat
    requires active > 0
  {
    if models == [] then 0 else Share(value, Weight(models[0]), active) + TotalShare(models[1..], value, active)
  }

  lemma Steps(a: nat, x: nat, y: nat)
    ensures x < y ==> a * x + a <= a * y
  {
    if x < y { assert a * (x + 1) <= a * y; }
  }

  lemma {:induction false} ActiveHasWeight(models: seq<Request>)
    ensures TotalWeight(Active(models)) >= |Active(models)|
    decreases |models|
  {
    if models != [] {
      ActiveHasWeight(models[1..]);
      var a := Active(models);
      if models[0].pagedAttn.Some? { assert a[1..] == Active(models[1..]); }
    }
  }

  // ---------------------------------------------------------------- when the shares cover the budget

  /** What saturation takes from one share. */
  function Loss(value: nat, weight: nat, active: nat): nat
    requires active > 0
  {
    var fair, cap := DivCeil(value * weight, active), DivCeil(USIZE_MAX, active);
    if fair > cap then fair - cap else 0
  }

  /** What rounding up adds to one share, in units of one part in `active`. */
  function RoundingUp(value: nat, weight: nat, active: nat): nat
    requires active > 0
  {
    var rest := value * weight % active;
    if rest == 0 then 0 else active - rest
  }

  function TotalLoss(models: seq<Request>, value: nat, active: nat): nat
    requires active > 0
  {
    if models == [] then 0 else Loss(value, Weight(models[0]), active) + TotalLoss(models[1..], value, active)
  }

  function TotalRoundingUp(models: seq<Request>, value: nat, active: nat): nat
    requires active > 0
  {
    if models == [] then 0
    else RoundingUp(value, Weight(models[0]), active) + TotalRoundingUp(models[1..], value, active)
  }

  lemma ShareAndLoss(value: nat, weight: nat, active: nat)
    requires 1 <= weight <= active && value >= 1
    ensures Share(value, weight, active) + Loss(value, weight, active) == DivCeil(value * weight, active)
  {
    var p := value * weight;
    FairShareRange(value, weight, active);
    DivCeilLeast(USIZE_MAX, active, 0);
    if p <= USIZE_MAX {
      DivCeilMonotone(p, USIZE_MAX, active);
    } else {
      DivCeilMonotone(USIZE_MAX, p, active);
    }
  }

  lemma CeilAndRounding(value: nat, weight: nat, active: nat)
    requires active > 0
    ensures active * DivCeil(value * weight, active) == value * weight + RoundingUp(value, weight, active)
  {
    var p := value * weight;
    assert p == active * (p / active) + p % active;
    assert active * (p / active + 1) == active * (p / active) + active;
  }

  /** Shares and losses together are the budget by weight, plus what was added by rounding up. */
  lemma {:induction false} SharesAndLosses(models: seq<Request>, value: nat, active: nat)
    requires active > 0 && value >= 1 && TotalWeight(models) <= active
    ensures active * (TotalShare(models, value, active) + TotalLoss(models, value, active))
            == value * TotalWeight(models) + TotalRoundingUp(models, value, active)
    decreases |models|
  {
    if models != [] {
      var w, rest := Weight(models[0]), models[1..];
      SharesAndLosses(rest, value, active);
      ShareAndLoss(value, w, active);
      CeilAndRounding(value, w, active);
      Distribute(active, DivCeil(value * w, active), TotalShare(rest, value, active) + TotalLoss(rest, value, active));
      Distribute(value, w, TotalWeight(rest));
    }
  }

  lemma Distribute(a: nat, x: nat, y: nat)
    ensures a * (x + y) == a * x + a * y
  {
  }

  lemma Cancel(a: nat, x: nat, y: nat)
    requires a > 0
    ensures a * x <= a * y <==> x <= y
  {
    Steps(a, y, x);
    if x <= y { assert a * x <= a * y; }
  }

  /**
    The shares of n active models add up to at most n - 1 more than the budget.  They add up
    to at least the budget if and only if saturation takes no more than rounding up adds.
  */
  lemma SharesCoverBudget(models: seq<Request>, value: nat)
    requires value >= 1 && Active(models) != []
    ensures var actives, active := Active(models), ActiveWeight(models);
            && TotalShare(actives, value, active) <= value + |actives| - 1
            && (value <= TotalShare(actives, value, active)
                <==> active * TotalLoss(actives, value, active) <= TotalRoundingUp(actives, value, active))
  {
    var actives, active := Active(models), ActiveWeight(models);
    ActiveHasWeight(models);
    assert TotalWeight(actives) == active;
    CoverIff(actives, value, active);
    SharesAndLosses(actives, value, active);
    RoundingUpBound(actives, value, active);
    AtMostExtra(value, active, TotalShare(actives, value, active), TotalLoss(actives, value, active),
                TotalRoundingUp(actives, value, active), |actives|);
  }

  lemma CoverIff(models: seq<Request>, value: nat, active: nat)
    requires active > 0 && value >= 1 && TotalWeight(models) == active
    ensures value <= TotalShare(models, value, active)
            <==> active * TotalLoss(models, value, active) <= TotalRoundingUp(models, value, active)
  {
    var share, loss := TotalShare(models, value, active), TotalLoss(models, value, active);
    SharesAndLosses(models, value, active);
    Distribute(active, share, loss);
    Cancel(active, value, share);
    assert value * active == active * value;
  }

  lemma AtMostExtra(v: nat, a: nat, share: nat, loss: nat, extra: nat, n: nat)
    requires a > 0 && n > 0 && a * (share + loss) == v * a + extra && extra <= n * (a - 1)
    ensures share <= v + n - 1
  {
    Steps(a, v + n - 1, share + loss);
    assert a * (v + n - 1) == v * a + n * a - a && n * (a - 1) == n * a - n;
  }

  lemma OneMore(n: nat, b: nat, sum: nat, x: nat)
    requires sum <= n * b && x <= b
    ensures sum + x <= (n + 1) * b
  {
  }

  /** Rounding up adds less than one unit per model. */
  lemma {:induction false} RoundingUpBound(models: seq<Request>, value: nat, active: nat)
    requires active > 0
    ensures TotalRoundingUp(models, value, active) <= |models| * (active - 1)
    decreases |models|
  {
    if models != [] {
      RoundingUpBound(models[1..], value, active);
      OneMore(|models| - 1, active - 1, TotalRoundingUp(models[1..], value, active),
              RoundingUp(value, Weight(models[0]), active));
    }
  }

  /** No product overflows: nothing is lost. */
  ghost predicate NoOverflow(models: seq<Request>, value: nat) {
    forall i :: 0 <= i < |models| ==> value * Weight(models[i]) <= USIZE_MAX
  }

  lemma {:induction false} NoOverflowNoLoss(models: seq<Request>, value: nat, active: nat)
    requires active > 0 && NoOverflow(models, value)
    ensures TotalLoss(models, value, active) == 0
    decreases |models|
  {
    if models != [] {
      DivCeilMonotone(value * Weight(models[0]), USIZE_MAX, active);
      NoOverflowNoLoss(models[1..], value, active);
    }
  }

  /** With saturation the shares can fall short of the budget: here by a third. */
  lemma SaturationLosesBudget()
    ensures var value, models := USIZE_MAX, [ExampleRequest(2), ExampleRequest(1)];
            ActiveWeight(models) == 3 && TotalShare(Active(models), value, 3) == 12297829382473034410 < value
  {
    var a, b := ExampleRequest(2), ExampleRequest(1);
    assert Active([b]) == [b] by { assert [b][1..] == []; }
    assert Active([a, b]) == [a, b] by { assert [a, b][1..] == [b]; }
    assert TotalWeight([b]) == 1 by { assert [b][1..] == []; }
    assert TotalWeight([a, b]) == 3 by { assert [a, b][1..] == [b]; }
    assert Share(USIZE_MAX, 1, 3) == 6148914691236517205;
    assert Share(USIZE_MAX, 2, 3) == 6148914691236517205;
    assert TotalShare([b], USIZE_MAX, 3) == 6148914691236517205 by { assert [b][1..] == []; }
    assert TotalShare([a, b], USIZE_MAX, 3) == 12297829382473034410 by { assert [a, b][1..] == [b]; }
  }

  function ExampleRequest(seqs: nat): Request {
    Request(Some(NewConfig(None, ContextSize(USIZE_MAX), Auto)), seqs)
  }

  // ---------------------------------------------------------------- the plan

  /** The integer budget of a configuration. */
  function Target(mem: MemoryGpu): Option<nat> {
    match mem
    case MbAmount(mb) => Some(mb)
    case BestEffortMbAmount(target, _) => Some(target)
    case Utilization(_) => None
    case ContextSize(tokens) => Some(tokens)
  }

  function PlannedTotal(plan: seq<Option<PagedConfig>>): nat {
    if plan == [] then 0
    else
      (if plan[0].Some? && Target(plan[0].value.memGpu).Some? then Target(plan[0].value.memGpu).value else 0)
      + PlannedTotal(plan[1..])
  }

  ghost predicate SameBudget(models: seq<Request>, value: nat) {
    forall i :: 0 <= i < |models| && models[i].pagedAttn.Some? ==>
      Target(models[i].pagedAttn.value.memGpu) == Some(value)
  }

  lemma {:induction false} PlannedIsTotalShare(models: seq<Request>, value: nat, active: nat)
    requires active > 0 && SameBudget(models, value)
    ensures PlannedTotal(PlanAll(models, active)) == TotalShare(Active(models), value, active)
    decreases |models|
  {
    if models != [] {
      PlannedIsTotalShare(models[1..], value, active);
      var plan, actives := PlanAll(models, active), Active(models);
      assert plan[1..] == PlanAll(models[1..], active);
      if models[0].pagedAttn.Some? {
        assert actives[1..] == Active(models[1..]);
      }
    }
  }

  /**
    One budget shared by all active models: at most n - 1 units on top are handed out, and
    the whole budget is handed out if and only if saturation takes no more than rounding up
    adds; in particular whenever no product overflows.
  */
  lemma PlanCoversBudget(models: seq<Request>, value: nat)
    requires value >= 1 && Active(models) != [] && SameBudget(models, value)
    ensures PlannedTotal(Plan(models)) <= value + |Active(models)| - 1
    ensures var actives, active := Active(models), ActiveWeight(models);
            value <= PlannedTotal(Plan(models))
            <==> active * TotalLoss(actives, value, active) <= TotalRoundingUp(actives, value, active)
    ensures NoOverflow(Active(models), value) ==> value <= PlannedTotal(Plan(models))
  {
    PlannedIsTotalShare(models, value, ActiveWeight(models));
    SharesCoverBudget(models, value);
    if NoOverflow(Active(models), value) { NoOverflowNoLoss(Active(models), value, ActiveWeight(models)); }
  }

  lemma {:induction false} WeightOfActive(models: seq<Request>, i: nat)
    requires i < |models| && models[i].pagedAttn.Some?
    ensures |Active(models)| >= 1
    ensures TotalWeight(Active(models)) >= Weight(models[i]) + |Active(models)| - 1
    ensures |Active(models)| == 1 ==> TotalWeight(Active(models)) == Weight(models[i])
    decreases |models|
  {
    var rest, actives := models[1..], Active(models);
    if models[0].pagedAttn.Some? { assert actives[1..] == Active(rest); }
    ActiveHasWeight(rest);
    if i > 0 { WeightOfActive(rest, i - 1); }
  }

  /** The weight of a model is the whole weight exactly when no other model is active. */
  lemma WholeWeightIffAlone(models: seq<Request>, i: nat)
    requires i < |models| && models[i].pagedAttn.Some?
    ensures Weight(models[i]) <= ActiveWeight(models)
    ensures Weight(models[i]) == ActiveWeight(models) <==> |Active(models)| == 1
  {
    WeightOfActive(models, i);
  }

  ghost predicate MinBelowTarget(mem: MemoryGpu) {
    mem.BestEffortMbAmount? && mem.minMb.Some? ==> mem.minMb.value <= mem.targetMb
  }

  /**
    Entry by entry: who is planned, what is kept, and when resolution after loading survives.
    Shrink-to-fit is not carried over: it is off after every split.
  */
  lemma PlanEntry(models: seq<Request>, i: nat)
    requires i < |models|
    ensures Plan(models)[i].Some? <==> models[i].pagedAttn.Some?
    ensures Plan(models)[i].Some? ==>
              var was, now := models[i].pagedAttn.value, Plan(models)[i].value;
              && now == was.(memGpu := now.memGpu, resolveAfterLoad := now.resolveAfterLoad, fitCtx := false)
              && (now.fitCtx == was.fitCtx <==> !was.fitCtx)
              && (now.resolveAfterLoad <==> was.resolveAfterLoad && |Active(models)| == 1)
              && (MinBelowTarget(was.memGpu) ==> MinBelowTarget(now.memGpu))
              && (Target(was.memGpu).Some? && Target(was.memGpu).value >= 1 ==>
                    Target(now.memGpu).Some? && 1 <= Target(now.memGpu).value <= Target(was.memGpu).value)
  {
    if models[i].pagedAttn.Some? {
      var was := models[i].pagedAttn.value;
      WholeWeightIffAlone(models, i);
      if MinBelowTarget(was.memGpu) { SplitKeepsOrder(was.memGpu, Weight(models[i]), ActiveWeight(models)); }
      SplitKeepsRange(was.memGpu, Weight(models[i]), ActiveWeight(models));
    }
  }

  lemma SplitKeepsOrder(mem: MemoryGpu, weight: nat, active: nat)
    requires active > 0 && MinBelowTarget(mem)
    ensures MinBelowTarget(SplitMemory(mem, weight, active))
  {
    if mem.BestEffortMbAmount? && mem.minMb.Some? {
      ShareMonotone(mem.minMb.value, mem.targetMb, weight, active);
    }
  }

  lemma SplitKeepsRange(mem: MemoryGpu, weight: nat, active: nat)
    requires 1 <= weight <= active
    ensures Target(SplitMemory(mem, weight, active)).Some? <==> Target(mem).Some?
    ensures Target(mem).Some? && Target(mem).value >= 1 ==>
              1 <= Target(SplitMemory(mem, weight, active)).value <= Target(mem).value
  {
    if Target(mem).Some? && Target(mem).value >= 1 { ShareRange(Target(mem).value, weight, active); }
  }

  // ---------------------------------------------------------------- what each model is given

  function Slots(model: Request): nat {
    if model.maxNumSeqs < 1 then 1 else model.maxNumSeqs
  }

  /** Concurrent sequences of all models that have a configuration. */
  function SlotSum(models: seq<Request>): nat {
    if models == [] then 0
    else
      var n := |models| - 1;
      SlotSum(models[..n]) + if models[n].pagedAttn.Some? then Slots(models[n]) else 0
  }

  /** The least positive x with active * x no less than value * weight, which is cut off at 64 bits. */
  ghost predicate IsShare(x: nat, value: nat, weight: nat, active: nat) {
    var due := if value * weight <= USIZE_MAX then value * weight else USIZE_MAX;
    1 <= x && due <= active * x && (x > 1 ==> active * (x - 1) < due)
  }

  ghost predicate Shared(was: MemoryGpu, now: MemoryGpu, weight: nat, active: nat) {
    match was
    case MbAmount(mb) => now.BestEffortMbAmount? && now.minMb.None? && IsShare(now.targetMb, mb, weight, active)
    case BestEffortMbAmount(target, min) =>
      && now.BestEffortMbAmount? && IsShare(now.targetMb, target, weight, active)
      && (now.minMb.Some? <==> min.Some?)
      && (min.Some? ==> IsShare(now.minMb.value, min.value, weight, active))
    case Utilization(f) => now.Utilization? && now.fraction * (active as real) == f * (weight as real)
    case ContextSize(tokens) => now.ContextSize? && IsShare(now.tokens, tokens, weight, active)
  }

  lemma ShareIsShare(value: nat, weight: nat, active: nat)
    requires active > 0
    ensures IsShare(Share(value, weight, active), value, weight, active)
  {
    var due, x := SaturatingMul(value, weight), Share(value, weight, active);
    DivCeilLeast(due, active, x);
    if x > 1 { DivCeilLeast(due, active, x - 1); }
  }

  lemma SplitIsShared(mem: MemoryGpu, weight: nat, active: nat)
    requires active > 0
    ensures Shared(mem, SplitMemory(mem, weight, active), weight, active)
  {
    match mem {
      case MbAmount(mb) => ShareIsShare(mb, weight, active);
      case BestEffortMbAmount(target, min) =>
        ShareIsShare(target, weight, active);
        if min.Some? { ShareIsShare(min.value, weight, active); }
      case Utilization(_) =>
      case ContextSize(tokens) => ShareIsShare(tokens, weight, active);
    }
  }

  lemma {:induction false} ActiveConcat(models: seq<Request>, more: seq<Request>)
    ensures TotalWeight(Active(models + more)) == TotalWeight(Active(models)) + TotalWeight(Active(more))
    decreases |models|
  {
    if models == [] {
      assert models + more == more;
    } else {
      var rest := models[1..];
      assert (models + more)[1..] == rest + more;
      ActiveConcat(rest, more);
      if models[0].pagedAttn.Some? {
        assert ([models[0]] + Active(rest))[1..] == Active(rest);
        assert ([models[0]] + Active(rest + more))[1..] == Active(rest + more);
      }
    }
  }

  lemma {:induction false} SlotSumIsWeight(models: seq<Request>)
    ensures TotalWeight(Active(models)) == SlotSum(models)
    decreases |models|
  {
    if models != [] {
      var n := |models| - 1;
      assert models == models[..n] + [models[n]];
      ActiveConcat(models[..n], [models[n]]);
      SlotSumIsWeight(models[..n]);
      assert [models[n]][1..] == [];
    }
  }

  lemma {:induction false} PlanIsSplit(models: seq<Request>, i: nat)
    requires i < |models| && models[i].pagedAttn.Some?
    ensures SlotSum(models) > 0 && Plan(models)[i].Some?
    ensures Plan(models)[i].value.memGpu
            == SplitMemory(models[i].pagedAttn.value.memGpu, Slots(models[i]), SlotSum(models))
  {
    SlotSumIsWeight(models);
    WeightOfActive(models, i);
  }

  /** Every kind of budget is shared out in proportion to the sequences a model serves. */
  lemma {:induction false} PlanShares(models: seq<Request>, i: nat)
    requires i < |models| && models[i].pagedAttn.Some?
    ensures Plan(models)[i].Some?
    ensures Shared(models[i].pagedAttn.value.memGpu, Plan(models)[i].value.memGpu, Slots(models[i]), SlotSum(models))
  {
    PlanIsSplit(models, i);
    SplitIsShared(models[i].pagedAttn.value.memGpu, Slots(models[i]), SlotSum(models));
  }

  // ---------------------------------------------------------------- fractions

  function PlannedFraction(plan: seq<Option<PagedConfig>>): real {
    if plan == [] then 0.0
    else
      (if plan[0].Some? && plan[0].value.memGpu.Utilization? then plan[0].value.memGpu.fraction else 0.0)
      + PlannedFraction(plan[1..])
  }

  ghost predicate SameFraction(models: seq<Request>, f: real) {
    forall i :: 0 <= i < |models| && models[i].pagedAttn.Some? ==>
      models[i].pagedAttn.value.memGpu == Utilization(f)
  }

  /** What each weight is given. */
  type Portion = nat -> real

  ghost predicate Additive(portion: Portion) {
    portion(0) == 0.0 && forall x: nat, y: nat :: portion(x) + portion(y) == portion(x + y)
  }

  ghost predicate GivesPortions(models: seq<Request>, plan: seq<Option<PagedConfig>>, portion: Portion) {
    |plan| == |models|
    && forall i :: 0 <= i < |models| ==>
         if models[i].pagedAttn.None? then plan[i].None?
         else plan[i].Some? && plan[i].value.memGpu == Utilization(portion(Weight(models[i])))
  }

  lemma {:induction false} FirstWeight(models: seq<Request>)
    requires models != []
    ensures TotalWeight(Active(models))
            == (if models[0].pagedAttn.Some? then Weight(models[0]) else 0) + TotalWeight(Active(models[1..]))
  {
    if models[0].pagedAttn.Some? { assert Active(models)[1..] == Active(models[1..]); }
  }

  lemma {:induction false} PortionsAddUp(models: seq<Request>, plan: seq<Option<PagedConfig>>, portion: Portion)
    requires Additive(portion) && GivesPortions(models, plan, portion)
    ensures PlannedFraction(plan) == portion(TotalWeight(Active(models)))
    decreases |models|
  {
    if models != [] {
      PortionsAddUp(models[1..], plan[1..], portion);
      FirstWeight(models);
    }
  }

  function PortionOf(f: real, active: nat): Portion
    requires active > 0
  {
    (weight: nat) => Fraction(f, weight, active)
  }

  lemma PortionIsAdditive(f: real, active: nat)
    requires active > 0
    ensures Additive(PortionOf(f, active)) && PortionOf(f, active)(active) == f
  {
    forall x: nat, y: nat ensures PortionOf(f, active)(x) + PortionOf(f, active)(y) == PortionOf(f, active)(x + y) {
      AddFractions(f, x, y, active);
    }
    AddFractions(f, 0, active, active);
  }

  lemma AddFractions(f: real, x: nat, y: nat, active: nat)
    requires active > 0
    ensures Fraction(f, x, active) + Fraction(f, y, active) == Fraction(f, x + y, active)
    ensures Fraction(f, 0, active) == 0.0 && Fraction(f, active, active) == f
  {
    var a, b, c := x as real, y as real, active as real;
    assert (x + y) as real == a + b;
    assert f * a / c + f * b / c == f * (a + b) / c;
    assert f * c / c == f;
  }

  lemma {:induction false} PlanGivesPortions(models: seq<Request>, f: real, active: nat)
    requires active > 0 && SameFraction(models, f)
    ensures GivesPortions(models, PlanAll(models, active), PortionOf(f, active))
  {
    var plan := PlanAll(models, active);
    forall i | 0 <= i < |models|
      ensures if models[i].pagedAttn.None? then plan[i].None?
              else plan[i].Some? && plan[i].value.memGpu == Utilization(PortionOf(f, active)(Weight(models[i])))
    {
      assert plan[i] == PlanOne(models[i], active);
    }
  }

  /** Fractions are shared out exactly: together the models get what one of them asked for. */
  lemma {:induction false} FractionIsConserved(models: seq<Request>, f: real)
    requires Active(models) != [] && SameFraction(models, f)
    ensures PlannedFraction(Plan(models)) == f
  {
    var active := ActiveWeight(models);
    PlanGivesPortions(models, f, active);
    PortionIsAdditive(f, active);
    PortionsAddUp(models, Plan(models), PortionOf(f, active));
  }
}
