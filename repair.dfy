/**
 * The target-tier rule of the `repair` command (`execute`): for each wheel, pick the
 * requested tier (--plat, --best-plat or the highest-priority tier), reject it on the
 * first dimension the analysed wheel does not meet, and build the list of platform tags
 * handed to the repair step, prefixed by a better tier the wheel qualifies for.
 *
 * The wheel analysis and the repair itself are not modelled: each wheel comes with the
 * analysis verdict and the tier set selected for it, and `execute` is observed through
 * the sequence of analysis and repair calls it makes and the way it ends.
 */
module Repair {
  import opened Results
  import opened Sequences
  import opened Policy

  /** The tags of the analysis verdict that the rule reads. */
  datatype WheelAbi = WheelAbi(symTag: string, ucsTag: string, blacklistTag: string, overallTag: string)

  /** What the analysis returns, or NonPlatformWheel when it raises that. */
  datatype Analysis = NonPlatformWheel | Analyzed(abi: WheelAbi)

  /** One WHEEL_FILE argument: whether it is a file, its tier set and its analysis. */
  datatype Wheel = Wheel(path: string, isFile: bool, policies: PlatformPolicies, analysis: Analysis)

  /** The options the rule reads: --plat, --best-plat, --only-plat and every --exclude. */
  datatype Options = Options(plat: Option<string>, bestPlat: bool, onlyPlat: bool, exclude: seq<string>)

  /** The calls `execute` makes to the analyser and to the repair step. */
  datatype Call =
    | AnalyzeWheel(wheel: string, exclude: set<string>)
    | RepairWheel(wheel: string, abis: seq<string>, exclude: set<string>)

  /** The reasons `execute` stops through the parser's error exit. */
  datatype UsageError =
    | NoSuchFile(path: string)
    | BestPlatWithPlat
    | TooRecentSymbols(wheel: string, plat: string)
    | Ucs2Build(wheel: string, plat: string)
    | BlacklistedSymbols(wheel: string, plat: string)

  /** An exception from a tier lookup: a duplicate (RuntimeError) or a missing tier used as one (TypeError). */
  datatype Crash = LookupError(error: PolicyError) | MissingTier(tag: Option<string>)

  /** How `execute` ends: normally, with return value 1, through the parser's error exit, or by an exception. */
  datatype Exit = Finished | NotPlatform | ParserError(usage: UsageError) | Raised(crash: Crash)

  datatype Outcome = Outcome(exit: Exit, calls: seq<Call>)

  /** The result of one wheel: either `execute` ends, or it goes on with the new --plat value. */
  datatype StepResult = Stop(outcome: Outcome) | Next(plat: Option<string>, calls: seq<Call>)

  /** get_policy_by_name, where a None result is an error for the caller. */
  function ResolveTier(pp: PlatformPolicies, tag: Option<string>): (r: Result<Tier, Crash>)
    ensures tag.Some? && Known(pp, tag.value) ==> r == Ok(PolicyNamed(pp, tag.value))
    ensures r.Ok? ==> tag.Some? && Known(pp, tag.value)
  {
    if tag.None? then Err(MissingTier(None))
    else match GetPolicyByName(pp, tag.value)
      case Err(e) => Err(LookupError(e))
      case Ok(None) => Err(MissingTier(tag))
      case Ok(Some(p)) => Ok(p)
  }

  /** get_priority_by_name, where a None result is an error for the caller. */
  function TagPriority(pp: PlatformPolicies, tag: string): (r: Result<int, Crash>)
    ensures Known(pp, tag) ==> r == Ok(PriorityOf(pp, tag))
    ensures r.Ok? ==> Known(pp, tag)
  {
    match GetPriorityByName(pp, tag)
    case Err(e) => Err(LookupError(e))
    case Ok(None) => Err(MissingTier(Some(tag)))
    case Ok(Some(k)) => Ok(k)
  }

  /**
   * The admissibility checks and the tag list for a wheel and a requested tier: the
   * request fails on the first of the symbol, UCS and blacklist dimensions whose tier has
   * a lower priority than the request; otherwise the tags are the requested tier's name and
   * aliases, preceded (unless --only-plat) by those of the verdict's overall tier when that
   * tier has a higher priority.
   */
  function RepairAbis(pp: PlatformPolicies, abi: WheelAbi, plat: Option<string>, onlyPlat: bool, wheel: string)
    : (r: Result<seq<string>, Exit>)
    ensures plat.None? ==> r == Err(Raised(MissingTier(None)))
    ensures plat.Some? && GetPolicyByName(pp, plat.value) == Ok(None) ==> r == Err(Raised(MissingTier(plat)))
    ensures plat.Some? && Known(pp, plat.value)
            && Known(pp, abi.symTag) && Known(pp, abi.ucsTag) && Known(pp, abi.blacklistTag) ==>
              var reqd := PriorityOf(pp, plat.value);
              && (r == Err(ParserError(TooRecentSymbols(wheel, plat.value))) <==> reqd > PriorityOf(pp, abi.symTag))
              && (r == Err(ParserError(Ucs2Build(wheel, plat.value))) <==>
                    reqd <= PriorityOf(pp, abi.symTag) && reqd > PriorityOf(pp, abi.ucsTag))
              && (r == Err(ParserError(BlacklistedSymbols(wheel, plat.value))) <==>
                    reqd <= PriorityOf(pp, abi.symTag) && reqd <= PriorityOf(pp, abi.ucsTag)
                    && reqd > PriorityOf(pp, abi.blacklistTag))
    ensures plat.Some? && Known(pp, plat.value)
            && Known(pp, abi.symTag) && Known(pp, abi.ucsTag) && Known(pp, abi.blacklistTag)
            && (onlyPlat || Known(pp, abi.overallTag)) ==>
              var reqd := PriorityOf(pp, plat.value);
              && (r.Ok? <==> reqd <= PriorityOf(pp, abi.symTag) && reqd <= PriorityOf(pp, abi.ucsTag)
                             && reqd <= PriorityOf(pp, abi.blacklistTag))
              && (r.Ok? ==>
                    r.value == (if !onlyPlat && reqd < PriorityOf(pp, abi.overallTag)
                                then Tags(PolicyNamed(pp, abi.overallTag)) else [])
                               + Tags(PolicyNamed(pp, plat.value)))
    ensures r.Err? ==> r.error.ParserError? || r.error.Raised?
    ensures r.Ok? ==> plat.Some? && Known(pp, plat.value)
                      && Known(pp, abi.symTag) && Known(pp, abi.ucsTag) && Known(pp, abi.blacklistTag)
                      && (onlyPlat || Known(pp, abi.overallTag))
  {
    match ResolveTier(pp, plat)
    case Err(c) => Err(Raised(c))
    case Ok(policy) =>
      var reqd := policy.priority;
      match TagPriority(pp, abi.symTag)
      case Err(c) => Err(Raised(c))
      case Ok(sym) =>
        if reqd > sym then Err(ParserError(TooRecentSymbols(wheel, plat.value)))
        else match TagPriority(pp, abi.ucsTag)
        case Err(c) => Err(Raised(c))
        case Ok(ucs) =>
          if reqd > ucs then Err(ParserError(Ucs2Build(wheel, plat.value)))
          else match TagPriority(pp, abi.blacklistTag)
          case Err(c) => Err(Raised(c))
          case Ok(blacklist) =>
            if reqd > blacklist then Err(ParserError(BlacklistedSymbols(wheel, plat.value)))
            else
              var abis := Tags(policy);
              if onlyPlat then Ok(abis)
              else match TagPriority(pp, abi.overallTag)
              case Err(c) => Err(Raised(c))
              case Ok(overall) =>
                if reqd < overall then
                  match ResolveTier(pp, Some(abi.overallTag))
                  case Err(c) => Err(Raised(c))
                  case Ok(higher) => Ok(Tags(higher) + abis)
                else Ok(abis)
  }

  /** The tags handed to the repair step end with the given tags. */
  predicate EndsWith(abis: seq<string>, tags: seq<string>)
  {
    |tags| <= |abis| && abis[|abis| - |tags|..] == tags
  }

  /** Python truthiness of args.PLAT: set and not empty. */
  predicate Truthy(plat: Option<string>)
  {
    plat.Some? && plat.value != ""
  }

  /** The calls a step made, whether it stopped or not. */
  function StepCalls(s: StepResult): seq<Call>
  {
    if s.Stop? then s.outcome.calls else s.calls
  }

  /** One iteration of the loop over WHEEL_FILE, with `plat` the current value of args.PLAT. */
  function Step(w: Wheel, opts: Options, plat: Option<string>): StepResult
  {
    var exclude := ToSet(opts.exclude);
    if !w.isFile then Stop(Outcome(ParserError(NoSuchFile(w.path)), []))
    else
      var analyzed := [AnalyzeWheel(w.path, exclude)];
      match w.analysis
      case NonPlatformWheel => Stop(Outcome(NotPlatform, analyzed))
      case Analyzed(abi) =>
        if opts.bestPlat && Truthy(plat) then Stop(Outcome(ParserError(BestPlatWithPlat), analyzed))
        else
          var requested := if opts.bestPlat then Some(abi.overallTag) else plat;
          match GetPolicyName(w.policies, w.policies.highest)
          case Err(e) => Stop(Outcome(Raised(LookupError(e)), analyzed))
          case Ok(highest) =>
            var target := if requested.None? then highest else requested;
            match RepairAbis(w.policies, abi, target, opts.onlyPlat, w.path)
            case Err(exit) => Stop(Outcome(exit, analyzed))
            case Ok(abis) =>
              Next(if opts.bestPlat then None else target, analyzed + [RepairWheel(w.path, abis, exclude)])
  }

  /**
   * How one wheel stops `execute`: a path that is not a file stops it before any analysis;
   * a non-platform wheel ends it with 1 after the analysis; --best-plat together with a
   * non-empty --plat is an error.
   */
  lemma StepStops(w: Wheel, opts: Options, plat: Option<string>)
    ensures !w.isFile ==> Step(w, opts, plat) == Stop(Outcome(ParserError(NoSuchFile(w.path)), []))
    ensures w.isFile && w.analysis.NonPlatformWheel? ==>
              Step(w, opts, plat) == Stop(Outcome(NotPlatform, [AnalyzeWheel(w.path, ToSet(opts.exclude))]))
    ensures w.isFile && w.analysis.Analyzed? && opts.bestPlat && Truthy(plat) ==>
              Step(w, opts, plat) == Stop(Outcome(ParserError(BestPlatWithPlat), [AnalyzeWheel(w.path, ToSet(opts.exclude))]))
  {
  }

  /**
   * The calls one wheel makes: an existing file is analysed first, and every call is about
   * that wheel and gets the --exclude set.
   */
  lemma StepCallsShape(w: Wheel, opts: Options, plat: Option<string>)
    ensures w.isFile ==> |StepCalls(Step(w, opts, plat))| >= 1 && StepCalls(Step(w, opts, plat))[0] == AnalyzeWheel(w.path, ToSet(opts.exclude))
    ensures forall c | c in StepCalls(Step(w, opts, plat)) :: c.wheel == w.path && c.exclude == ToSet(opts.exclude)
  {
  }

  /**
   * A wheel that lets the loop go on was analysed and then repaired, and with --best-plat
   * args.PLAT is cleared afterwards.
   */
  lemma StepGoesOn(w: Wheel, opts: Options, plat: Option<string>)
    ensures Step(w, opts, plat).Next? ==> |Step(w, opts, plat).calls| == 2 && Step(w, opts, plat).calls[1].RepairWheel? && w.analysis.Analyzed?
    ensures Step(w, opts, plat).Next? && opts.bestPlat ==> Step(w, opts, plat).plat.None?
  {
  }

  /** A wheel that stops the loop never ends `execute` normally. */
  lemma StepStopsAbnormally(w: Wheel, opts: Options, plat: Option<string>)
    ensures Step(w, opts, plat).Stop? ==> Step(w, opts, plat).outcome.exit != Finished
  {
  }

  /** One wheel's work as a function of the wheel and of args.PLAT at that point. */
  type StepFn = (Wheel, Option<string>) -> StepResult

  /** The wheels processed in order from the given args.PLAT, stopping at the first that ends `execute`. */
  function RunWith(wheels: seq<Wheel>, step: StepFn, plat: Option<string>): Outcome
    decreases |wheels|
  {
    if wheels == [] then Outcome(Finished, [])
    else match step(wheels[0], plat)
      case Stop(o) => o
      case Next(plat', calls) =>
        var rest := RunWith(wheels[1..], step, plat');
        Outcome(rest.exit, calls + rest.calls)
  }

  function StepOf(opts: Options): StepFn
  {
    (w, plat) => Step(w, opts, plat)
  }

  /** `execute` over WHEEL_FILE, starting from the given args.PLAT. */
  function Run(wheels: seq<Wheel>, opts: Options, plat: Option<string>): Outcome
  {
    RunWith(wheels, StepOf(opts), plat)
  }

  /** RunWith on a non-empty list, one step unfolded. */
  lemma RunWithCons(wheels: seq<Wheel>, step: StepFn, plat: Option<string>)
    requires wheels != []
    ensures step(wheels[0], plat).Stop? ==> RunWith(wheels, step, plat) == step(wheels[0], plat).outcome
    ensures step(wheels[0], plat).Next? ==>
              var s := step(wheels[0], plat);
              var rest := RunWith(wheels[1..], step, s.plat);
              RunWith(wheels, step, plat) == Outcome(rest.exit, s.calls + rest.calls)
  {
  }

  /** `execute`: the loop over WHEEL_FILE, with args.PLAT carried from one wheel to the next. */
  method Execute(wheels: seq<Wheel>, opts: Options) returns (o: Outcome)
    ensures o == Run(wheels, opts, opts.plat)
  {
    var plat := opts.plat;
    var calls: seq<Call> := [];
    for i := 0 to |wheels|
      invariant Run(wheels, opts, opts.plat) ==
                  Outcome(RunWith(wheels[i..], StepOf(opts), plat).exit, calls + RunWith(wheels[i..], StepOf(opts), plat).calls)
    {
      assert wheels[i..][1..] == wheels[i + 1..];
      RunWithCons(wheels[i..], StepOf(opts), plat);
      var step := Step(wheels[i], opts, plat);
      assert step == StepOf(opts)(wheels[i..][0], plat);
      if step.Stop? {
        return step.outcome.(calls := calls + step.outcome.calls);
      }
      calls := calls + step.calls;
      plat := step.plat;
    }
    assert wheels[|wheels|..] == [];
    o := Outcome(Finished, calls);
  }

  // ---------------------------------------------------------------------------
  // Properties of the loop

  /**
   * The shape of every step of `execute`: each call is about the wheel at hand and gets the
   * given --exclude set, a step that stops the loop does not finish it normally, and a wheel
   * that lets the loop go on was analysed and then repaired.
   */
  ghost predicate AnalyseThenRepair(step: StepFn, exclude: set<string>)
  {
    forall w, plat ::
      && (forall c | c in StepCalls(step(w, plat)) :: c.wheel == w.path && c.exclude == exclude)
      && (step(w, plat).Stop? ==> step(w, plat).outcome.exit != Finished)
      && (step(w, plat).Next? ==>
            && |step(w, plat).calls| == 2
            && step(w, plat).calls[0] == AnalyzeWheel(w.path, exclude)
            && step(w, plat).calls[1].RepairWheel?)
  }

  lemma StepOfAnalysesThenRepairs(opts: Options)
    ensures AnalyseThenRepair(StepOf(opts), ToSet(opts.exclude))
  {
    forall w, plat
      ensures && (forall c | c in StepCalls(StepOf(opts)(w, plat)) :: c.wheel == w.path && c.exclude == ToSet(opts.exclude))
              && (StepOf(opts)(w, plat).Stop? ==> StepOf(opts)(w, plat).outcome.exit != Finished)
              && (StepOf(opts)(w, plat).Next? ==>
                    && |StepOf(opts)(w, plat).calls| == 2
                    && StepOf(opts)(w, plat).calls[0] == AnalyzeWheel(w.path, ToSet(opts.exclude))
                    && StepOf(opts)(w, plat).calls[1].RepairWheel?)
    {
      StepCallsShape(w, opts, plat);
      StepGoesOn(w, opts, plat);
      StepStopsAbnormally(w, opts, plat);
    }
  }

  lemma {:induction false} RunWithPassesExclude(wheels: seq<Wheel>, step: StepFn, exclude: set<string>, plat: Option<string>)
    requires AnalyseThenRepair(step, exclude)
    ensures forall c | c in RunWith(wheels, step, plat).calls :: c.exclude == exclude
    decreases |wheels|
  {
    if wheels != [] {
      RunWithCons(wheels, step, plat);
      var s := step(wheels[0], plat);
      assert forall c | c in StepCalls(s) :: c.exclude == exclude;
      if s.Next? {
        RunWithPassesExclude(wheels[1..], step, exclude, s.plat);
      }
    }
  }

  /** Every call, to the analyser or to the repair step, gets the same set of --exclude values. */
  lemma RunPassesExcludeUnchanged(wheels: seq<Wheel>, opts: Options, plat: Option<string>)
    ensures forall c | c in Run(wheels, opts, plat).calls :: c.exclude == ToSet(opts.exclude)
  {
    StepOfAnalysesThenRepairs(opts);
    RunWithPassesExclude(wheels, StepOf(opts), ToSet(opts.exclude), plat);
  }

  lemma {:induction false} RunWithIgnoresAfterStop(wheels: seq<Wheel>, more: seq<Wheel>, step: StepFn, plat: Option<string>)
    requires RunWith(wheels, step, plat).exit != Finished
    ensures RunWith(wheels + more, step, plat) == RunWith(wheels, step, plat)
    decreases |wheels|
  {
    var all := wheels + more;
    assert wheels != [];
    assert all[0] == wheels[0];
    assert all[1..] == wheels[1..] + more;
    RunWithCons(wheels, step, plat);
    RunWithCons(all, step, plat);
    var s := step(wheels[0], plat);
    if s.Next? {
      RunWithIgnoresAfterStop(wheels[1..], more, step, s.plat);
    }
  }

  /** Once a wheel ends `execute`, the wheels after it are never looked at. */
  lemma RunIgnoresWheelsAfterStop(wheels: seq<Wheel>, more: seq<Wheel>, opts: Options, plat: Option<string>)
    requires Run(wheels, opts, plat).exit != Finished
    ensures Run(wheels + more, opts, plat) == Run(wheels, opts, plat)
  {
    RunWithIgnoresAfterStop(wheels, more, StepOf(opts), plat);
  }

  lemma {:induction false} RunWithFinishedRepairsEvery(wheels: seq<Wheel>, step: StepFn, exclude: set<string>, plat: Option<string>)
    requires AnalyseThenRepair(step, exclude)
    requires RunWith(wheels, step, plat).exit == Finished
    ensures |RunWith(wheels, step, plat).calls| == 2 * |wheels|
    ensures forall k | 0 <= k < |wheels| ::
              && RunWith(wheels, step, plat).calls[2 * k] == AnalyzeWheel(wheels[k].path, exclude)
              && RunWith(wheels, step, plat).calls[2 * k + 1].RepairWheel?
              && RunWith(wheels, step, plat).calls[2 * k + 1].wheel == wheels[k].path
    decreases |wheels|
  {
    if wheels != [] {
      RunWithCons(wheels, step, plat);
      var s := step(wheels[0], plat);
      assert s.Next?;
      assert s.calls[1] in StepCalls(s);
      RunWithFinishedRepairsEvery(wheels[1..], step, exclude, s.plat);
      var rest := RunWith(wheels[1..], step, s.plat);
      var all := RunWith(wheels, step, plat);
      assert all.calls == s.calls + rest.calls;
      forall k | 1 <= k < |wheels|
        ensures all.calls[2 * k] == rest.calls[2 * (k - 1)]
        ensures all.calls[2 * k + 1] == rest.calls[2 * (k - 1) + 1]
      {
      }
    }
  }

  /** `execute` finishes normally only after analysing and repairing every wheel, in order. */
  lemma FinishedRepairsEveryWheel(wheels: seq<Wheel>, opts: Options, plat: Option<string>)
    requires Run(wheels, opts, plat).exit == Finished
    ensures |Run(wheels, opts, plat).calls| == 2 * |wheels|
    ensures forall k | 0 <= k < |wheels| ::
              && Run(wheels, opts, plat).calls[2 * k] == AnalyzeWheel(wheels[k].path, ToSet(opts.exclude))
              && Run(wheels, opts, plat).calls[2 * k + 1].RepairWheel?
              && Run(wheels, opts, plat).calls[2 * k + 1].wheel == wheels[k].path
  {
    StepOfAnalysesThenRepairs(opts);
    RunWithFinishedRepairsEvery(wheels, StepOf(opts), ToSet(opts.exclude), plat);
  }

  /**
   * A wheel is only repaired to a tier it meets in every dimension: the tags handed to the
   * repair step end with the name and aliases of a tier whose priority is at most that of
   * the symbol, UCS and blacklist tiers of the verdict.
   */
  lemma RepairedTargetIsAdmissible(w: Wheel, opts: Options, plat: Option<string>)
    requires Step(w, opts, plat).Next?
    ensures var abi := w.analysis.abi;
            var pp := w.policies;
            var abis := Step(w, opts, plat).calls[1].abis;
            && Known(pp, abi.symTag) && Known(pp, abi.ucsTag) && Known(pp, abi.blacklistTag)
            && exists p | p in pp.policies ::
                 && EndsWith(abis, Tags(p))
                 && p.priority <= PriorityOf(pp, abi.symTag)
                 && p.priority <= PriorityOf(pp, abi.ucsTag)
                 && p.priority <= PriorityOf(pp, abi.blacklistTag)
  {
    var abi := w.analysis.abi;
    var pp := w.policies;
    var requested := if opts.bestPlat then Some(abi.overallTag) else plat;
    var highest := GetPolicyName(pp, pp.highest).value;
    var target := if requested.None? then highest else requested;
    var abis := RepairAbis(pp, abi, target, opts.onlyPlat, w.path).value;
    assert Step(w, opts, plat).calls[1].abis == abis;
    var p := PolicyNamed(pp, target.value);
    KnownIsMember(pp, target.value);
    assert abis[|abis| - |Tags(p)|..] == Tags(p);
  }

  /**
   * With --best-plat (and no --plat) the wheel is repaired to its overall tier and nothing
   * is prepended, and args.PLAT is cleared for the next wheel.
   */
  lemma BestPlatTargetsOverallTag(w: Wheel, opts: Options, plat: Option<string>)
    requires opts.bestPlat && Step(w, opts, plat).Next?
    ensures Known(w.policies, w.analysis.abi.overallTag)
    ensures Step(w, opts, plat).calls[1].abis == Tags(PolicyNamed(w.policies, w.analysis.abi.overallTag))
    ensures Step(w, opts, plat).plat == None
  {
    var abi := w.analysis.abi;
    var pp := w.policies;
    assert RepairAbis(pp, abi, Some(abi.overallTag), opts.onlyPlat, w.path).Ok?;
  }

  /**
   * With neither --plat nor --best-plat the target is the tier of highest priority, and
   * args.PLAT keeps that name for the wheels that follow.
   */
  lemma DefaultTargetIsHighest(w: Wheel, opts: Options)
    requires !opts.bestPlat && Step(w, opts, None).Next?
    ensures GetPolicyName(w.policies, w.policies.highest).Ok?
    ensures var name := Step(w, opts, None).plat;
            && name.Some? && Known(w.policies, name.value)
            && PriorityOf(w.policies, name.value) == w.policies.highest
            && EndsWith(Step(w, opts, None).calls[1].abis, Tags(PolicyNamed(w.policies, name.value)))
  {
    var pp := w.policies;
    var highest := GetPolicyName(pp, pp.highest);
    var name := highest.value;
    assert RepairAbis(pp, w.analysis.abi, name, opts.onlyPlat, w.path).Ok?;
    var i :| 0 <= i < |pp.policies| && pp.policies[i].name == name.value && pp.policies[i].priority == pp.highest;
    KnownIsMember(pp, name.value);
    var p := PolicyNamed(pp, name.value);
    var j :| 0 <= j < |pp.policies| && pp.policies[j] == p && NamedBy(p, name.value)
             && forall k | 0 <= k < |pp.policies| && k != j :: !NamedBy(pp.policies[k], name.value);
    assert NamedBy(pp.policies[i], name.value);
    assert i == j;
  }
}
