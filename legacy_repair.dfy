/**
 * The older `repair` command, for a single wheel and the host's tier set: the --plat
 * choices and default set up by the argument parser, then `execute`, which rejects a
 * requested tier the wheel's symbol or UCS tier does not reach and otherwise hands the
 * repair step the tier's tags (prefixed by a better tier the wheel qualifies for) and the
 * comma-split --include and --exclude options.
 *
 * The analysis and the repair are observed as the calls `execute` makes; the tier set is
 * an input, looked up with the tier lookups of the policy module.
 */
module LegacyRepair {
  import opened Results
  import opened Strings
  import opened Policy
  import Repair

  /** The tags of the older analysis verdict that the rule reads: there is no blacklist tag. */
  datatype WheelAbi = WheelAbi(symTag: string, ucsTag: string, overallTag: string)

  /** What the analysis returns, or NonPlatformWheel when it raises that. */
  datatype Analysis = NonPlatformWheel | Analyzed(abi: WheelAbi)

  /** The WHEEL_FILE argument: whether it is a file, and its analysis. */
  datatype Wheel = Wheel(path: string, isFile: bool, analysis: Analysis)

  /** The parsed options the rule reads: PLAT (None when it is unset), ONLY_PLAT, INCLUDE and EXCLUDE. */
  datatype Args = Args(plat: Option<string>, onlyPlat: bool, includes: Option<string>, excludes: Option<string>)

  /** The calls `execute` makes to the analyser and to the repair step. */
  datatype Call =
    | AnalyzeWheel(wheel: string)
    | RepairWheel(wheel: string, abis: seq<string>, includes: seq<string>, excludes: seq<string>)

  /** The reasons the argument parser's error exit is taken. */
  datatype UsageError =
    | InvalidChoice(plat: string)
    | NoSuchFile(path: string)
    | TooRecentSymbols(wheel: string, plat: string)
    | Ucs2Build(wheel: string, plat: string)

  /** How the command ends: normally, with return value 1, through the parser's error exit, or by an exception. */
  datatype Exit = Finished | NotPlatform | ParserError(usage: UsageError) | Raised(crash: Repair.Crash)

  datatype Outcome = Outcome(exit: Exit, calls: seq<Call>)

  // ---------------------------------------------------------------------------
  // Parser set-up

  /** Every alias of the tiers, tier by tier. */
  function Aliases(ps: seq<Tier>): seq<string>
  {
    if ps == [] then [] else ps[0].aliases + Aliases(ps[1..])
  }

  /** The --plat choices: every tier's name, then every alias. */
  function PolicyNames(ps: seq<Tier>): seq<string>
  {
    seq(|ps|, i requires 0 <= i < |ps| => ps[i].name) + Aliases(ps)
  }

  lemma {:induction false} AliasesMembers(ps: seq<Tier>, x: string)
    ensures x in Aliases(ps) <==> exists i | 0 <= i < |ps| :: x in ps[i].aliases
    decreases |ps|
  {
    if ps != [] {
      AliasesMembers(ps[1..], x);
      if x in Aliases(ps[1..]) {
        var i :| 0 <= i < |ps[1..]| && x in ps[1..][i].aliases;
        assert x in ps[i + 1].aliases;
      }
      if exists i | 0 <= i < |ps| :: x in ps[i].aliases {
        var i :| 0 <= i < |ps| && x in ps[i].aliases;
        if i > 0 {
          assert x in ps[1..][i - 1].aliases;
        }
      }
    }
  }

  /** A --plat value is accepted exactly when it is the name or an alias of some tier. */
  lemma ChoicesAreTierTags(ps: seq<Tier>, x: string)
    ensures x in PolicyNames(ps) <==> exists i | 0 <= i < |ps| :: NamedBy(ps[i], x)
  {
    var names := seq(|ps|, i requires 0 <= i < |ps| => ps[i].name);
    AliasesMembers(ps, x);
    if x in names {
      var i :| 0 <= i < |names| && names[i] == x;
      assert NamedBy(ps[i], x);
    }
    if exists i | 0 <= i < |ps| :: NamedBy(ps[i], x) {
      var i :| 0 <= i < |ps| && NamedBy(ps[i], x);
      if ps[i].name == x {
        assert names[i] == x;
      }
    }
  }

  /**
   * args.PLAT after parsing, from the --plat value if one was given: the parser set-up
   * looks up the name of the highest-priority tier (raising on a duplicate priority), a
   * given value must be one of the choices, and without one the default is that name
   * (None when no tier has the highest priority).
   */
  function Configure(pp: PlatformPolicies, plat: Option<string>): (r: Result<Option<string>, Exit>)
    ensures GetPolicyName(pp, pp.highest).Err? ==> r == Err(Raised(Repair.LookupError(DuplicatePriorities)))
    ensures GetPolicyName(pp, pp.highest).Ok? && plat.Some? ==>
              && (r == Ok(plat) <==> exists i | 0 <= i < |pp.policies| :: NamedBy(pp.policies[i], plat.value))
              && (r.Err? ==> r.error == ParserError(InvalidChoice(plat.value)))
    ensures GetPolicyName(pp, pp.highest).Ok? && plat.None? ==>
              && r.Ok?
              && (r.value.None? <==> forall i | 0 <= i < |pp.policies| :: pp.policies[i].priority != pp.highest)
              && (r.value.Some? ==>
                    exists i | 0 <= i < |pp.policies| ::
                      pp.policies[i].name == r.value.value && pp.policies[i].priority == pp.highest)
  {
    match GetPolicyName(pp, pp.highest)
    case Err(e) => Err(Raised(Repair.LookupError(e)))
    case Ok(highest) =>
      if plat.None? then Ok(highest)
      else
        ChoicesAreTierTags(pp.policies, plat.value);
        if plat.value in PolicyNames(pp.policies) then Ok(plat)
        else Err(ParserError(InvalidChoice(plat.value)))
  }

  // ---------------------------------------------------------------------------
  // execute

  /** `(opt or '').split(',')`: an absent option gives [""]. */
  function CommaList(opt: Option<string>): (parts: seq<string>)
    ensures opt.None? ==> parts == [""]
    ensures Join(parts, ',') == (if opt.None? then "" else opt.value)
    ensures |parts| >= 1 && forall i | 0 <= i < |parts| :: ',' !in parts[i]
  {
    var s := if opt.None? then "" else opt.value;
    JoinSplit(s, ',');
    Split(s, ',')
  }

  /** The current verdict with a blacklist tier that never rejects more than the symbol tier. */
  function WithoutBlacklist(abi: WheelAbi): Repair.WheelAbi
  {
    Repair.WheelAbi(abi.symTag, abi.ucsTag, abi.symTag, abi.overallTag)
  }

  /**
   * `execute` for one wheel: the requested tier is rejected if its priority exceeds that
   * of the symbol tier, then of the UCS tier; otherwise the wheel is repaired with the
   * tier's name and aliases, preceded (unless --only-plat) by those of the overall tier
   * when that tier has a higher priority. A missing or duplicated tier raises.
   */
  method Execute(pp: PlatformPolicies, w: Wheel, args: Args) returns (o: Outcome)
    ensures !w.isFile ==> o == Outcome(ParserError(NoSuchFile(w.path)), [])
    ensures w.isFile ==> 1 <= |o.calls| <= 2 && o.calls[0] == AnalyzeWheel(w.path)
    ensures w.isFile && w.analysis.NonPlatformWheel? ==> o == Outcome(NotPlatform, [AnalyzeWheel(w.path)])
    ensures w.isFile && w.analysis.Analyzed? && args.plat.None? ==>
              o == Outcome(Raised(Repair.MissingTier(None)), [AnalyzeWheel(w.path)])
    ensures w.isFile && w.analysis.Analyzed? && args.plat.Some? && Known(pp, args.plat.value)
            && Known(pp, w.analysis.abi.symTag) && Known(pp, w.analysis.abi.ucsTag) ==>
              var reqd := PriorityOf(pp, args.plat.value);
              && (o.exit == ParserError(TooRecentSymbols(w.path, args.plat.value)) <==>
                    reqd > PriorityOf(pp, w.analysis.abi.symTag))
              && (o.exit == ParserError(Ucs2Build(w.path, args.plat.value)) <==>
                    reqd <= PriorityOf(pp, w.analysis.abi.symTag) && reqd > PriorityOf(pp, w.analysis.abi.ucsTag))
    ensures w.isFile && w.analysis.Analyzed? && args.plat.Some? && Known(pp, args.plat.value)
            && Known(pp, w.analysis.abi.symTag) && Known(pp, w.analysis.abi.ucsTag)
            && (args.onlyPlat || Known(pp, w.analysis.abi.overallTag)) ==>
              var reqd := PriorityOf(pp, args.plat.value);
              && (o.exit == Finished <==>
                    reqd <= PriorityOf(pp, w.analysis.abi.symTag) && reqd <= PriorityOf(pp, w.analysis.abi.ucsTag))
              && (o.exit == Finished ==>
                    |o.calls| == 2 && o.calls[1] == RepairWheel(w.path,
                                              (if !args.onlyPlat && reqd < PriorityOf(pp, w.analysis.abi.overallTag)
                                               then Tags(PolicyNamed(pp, w.analysis.abi.overallTag)) else [])
                                              + Tags(PolicyNamed(pp, args.plat.value)),
                                              CommaList(args.includes), CommaList(args.excludes)))
    ensures o.exit == Finished ==>
              && w.isFile && w.analysis.Analyzed? && args.plat.Some? && Known(pp, args.plat.value)
              && Known(pp, w.analysis.abi.symTag) && Known(pp, w.analysis.abi.ucsTag)
              && (args.onlyPlat || Known(pp, w.analysis.abi.overallTag))
              && |o.calls| == 2 && o.calls[1].RepairWheel?
    ensures w.isFile && w.analysis.Analyzed? ==>
              var r := Repair.RepairAbis(pp, WithoutBlacklist(w.analysis.abi), args.plat, args.onlyPlat, w.path);
              && (o.exit == Finished <==> r.Ok?)
              && (r.Ok? ==> o.calls[1].abis == r.value)
  {
    if !w.isFile {
      return Outcome(ParserError(NoSuchFile(w.path)), []);
    }
    var calls := [AnalyzeWheel(w.path)];
    if w.analysis.NonPlatformWheel? {
      return Outcome(NotPlatform, calls);
    }
    var abi := w.analysis.abi;

    var policy := Repair.ResolveTier(pp, args.plat);
    if policy.Err? {
      return Outcome(Raised(policy.error), calls);
    }
    var reqd := policy.value.priority;

    var sym := Repair.TagPriority(pp, abi.symTag);
    if sym.Err? {
      return Outcome(Raised(sym.error), calls);
    }
    if reqd > sym.value {
      return Outcome(ParserError(TooRecentSymbols(w.path, args.plat.value)), calls);
    }

    var ucs := Repair.TagPriority(pp, abi.ucsTag);
    if ucs.Err? {
      return Outcome(Raised(ucs.error), calls);
    }
    if reqd > ucs.value {
      return Outcome(ParserError(Ucs2Build(w.path, args.plat.value)), calls);
    }

    var abis := Tags(policy.value);
    if !args.onlyPlat {
      var overall := Repair.TagPriority(pp, abi.overallTag);
      if overall.Err? {
        return Outcome(Raised(overall.error), calls);
      }
      if reqd < overall.value {
        var higher := Repair.ResolveTier(pp, Some(abi.overallTag));
        if higher.Err? {
          return Outcome(Raised(higher.error), calls);
        }
        abis := Tags(higher.value) + abis;
      }
    }

    calls := calls + [RepairWheel(w.path, abis, CommaList(args.includes), CommaList(args.excludes))];
    o := Outcome(Finished, calls);
  }
}
