/**
 * The manylinux / musllinux policy (ABI tier) engine: the tiers read from the policy
 * file, the PEP 600 monotonicity check, the per-architecture specialisation done at
 * load time, the lookups by name and priority, and the legacy tag rewrite.
 *
 * The policy file is given already parsed (a list of RawPolicy records); the host
 * architecture and the C library family are parameters.
 */
module Policy {
  import opened Results
  import opened Sequences
  import opened Strings

  datatype Platform = Manylinux | Musllinux

  /** One tier as it stands in the policy file: symbol versions by arch, then by prefix. */
  datatype RawPolicy = RawPolicy(
    name: string,
    priority: int,
    aliases: seq<string>,
    libWhitelist: seq<string>,
    symbolVersions: map<string, map<string, seq<string>>>)

  /** After loading, a tier keeps only the versions of the current arch, except the 'linux' tier. */
  datatype SymbolVersions =
    | PerArch(byArch: map<string, map<string, seq<string>>>)
    | ForArch(byPrefix: map<string, seq<string>>)

  /** A loaded tier: name and aliases carry the arch suffix. */
  datatype Tier = Tier(
    name: string,
    priority: int,
    aliases: seq<string>,
    libWhitelist: seq<string>,
    symbolVersions: SymbolVersions)

  datatype PlatformPolicies = PlatformPolicies(
    platform: Platform,
    policies: seq<Tier>,
    lowest: int,
    highest: int)

  /** The ValueError and RuntimeError cases raised by this module. */
  datatype PolicyError =
    | MissingWhitelistLibraries(policy: string, missing: set<string>)
    | MissingSymbolVersions(policy: string)
    | NoPolicyForArch
    | DuplicatePolicies
    | DuplicatePriorities

  /** The catch-all tier, exempt from the monotonicity check and from the arch filter. */
  const LinuxName := "linux"

  // ---------------------------------------------------------------------------
  // Host architecture

  /** The pointer width of the interpreter, from sys.maxsize. */
  function Bits(maxsize: int): (bits: int)
    ensures bits == 64 || bits == 32
    ensures bits == 64 <==> maxsize > 0x1_0000_0000
  {
    8 * (if maxsize > 0x1_0000_0000 then 8 else 4)
  }

  /**
   * get_arch_name: the machine name, except that on x86 the interpreter's own
   * pointer width decides between x86_64 and i686.
   */
  function GetArchName(machine: string, maxsize: int): (arch: string)
    ensures machine != "x86_64" && machine != "i686" ==> arch == machine
    ensures machine == "x86_64" || machine == "i686" ==>
              (arch == "x86_64" <==> maxsize > 0x1_0000_0000) && (arch == "i686" <==> maxsize <= 0x1_0000_0000)
  {
    if machine != "x86_64" && machine != "i686" then machine
    else if Bits(maxsize) == 64 then "x86_64" else "i686"
  }

  // ---------------------------------------------------------------------------
  // sorted(policies, key=priority, reverse=True)

  predicate SortedByPriorityDesc(s: seq<RawPolicy>)
  {
    forall i, j | 0 <= i < j < |s| :: s[i].priority >= s[j].priority
  }

  /** Inserts p in front of the first tier whose priority is not higher (keeps equal keys in input order). */
  function InsertByPriority(p: RawPolicy, s: seq<RawPolicy>): (r: seq<RawPolicy>)
    requires SortedByPriorityDesc(s)
    ensures SortedByPriorityDesc(r)
    ensures multiset(r) == multiset(s) + multiset{p}
  {
    if s == [] || s[0].priority <= p.priority then [p] + s
    else
      var rest := InsertByPriority(p, s[1..]);
      assert s == [s[0]] + s[1..];
      assert forall x | x in rest :: x.priority <= s[0].priority by {
        forall x | x in rest ensures x.priority <= s[0].priority {
          assert x in multiset(rest);
        }
      }
      [s[0]] + rest
  }

  /** A stable sort by descending priority. */
  function SortByPriorityDesc(ps: seq<RawPolicy>): (r: seq<RawPolicy>)
    ensures SortedByPriorityDesc(r)
    ensures multiset(r) == multiset(ps)
  {
    if ps == [] then []
    else
      assert ps == [ps[0]] + ps[1..];
      InsertByPriority(ps[0], SortByPriorityDesc(ps[1..]))
  }

  // ---------------------------------------------------------------------------
  // PEP 600 compliance: specification

  /** m.get(prefix, set()) */
  function Get(m: map<string, set<string>>, prefix: string): set<string>
  {
    if prefix in m then m[prefix] else {}
  }

  /** The accumulated versions for arch and prefix, empty when never seen. */
  function Lookup(m: map<string, map<string, set<string>>>, arch: string, prefix: string): set<string>
  {
    if arch in m then Get(m[arch], prefix) else {}
  }

  /** The versions a tier lists for arch and prefix, empty when it lists none. */
  function Listed(sv: map<string, map<string, seq<string>>>, arch: string, prefix: string): set<string>
  {
    if arch in sv && prefix in sv[arch] then ToSet(sv[arch][prefix]) else {}
  }

  /** Union of the whitelists of the non-'linux' tiers before position i. */
  function LibsBefore(s: seq<RawPolicy>, i: nat): set<string>
    requires i <= |s|
  {
    if i == 0 then {}
    else LibsBefore(s, i - 1) + (if s[i - 1].name == LinuxName then {} else ToSet(s[i - 1].libWhitelist))
  }

  /** Union of the versions listed for arch and prefix by the non-'linux' tiers before position i. */
  function VersionsBefore(s: seq<RawPolicy>, i: nat, arch: string, prefix: string): set<string>
    requires i <= |s|
  {
    if i == 0 then {}
    else VersionsBefore(s, i - 1, arch, prefix)
         + (if s[i - 1].name == LinuxName then {} else Listed(s[i - 1].symbolVersions, arch, prefix))
  }

  predicate WhitelistConforms(s: seq<RawPolicy>, i: nat)
    requires i < |s|
  {
    LibsBefore(s, i) <= ToSet(s[i].libWhitelist)
  }

  /** Only the arches and prefixes that tier i itself lists are compared. */
  predicate VersionsConform(s: seq<RawPolicy>, i: nat)
    requires i < |s|
  {
    forall arch, prefix | arch in s[i].symbolVersions && prefix in s[i].symbolVersions[arch] ::
      VersionsBefore(s, i, arch, prefix) <= ToSet(s[i].symbolVersions[arch][prefix])
  }

  predicate Conforms(s: seq<RawPolicy>, i: nat)
    requires i < |s|
  {
    s[i].name == LinuxName || (WhitelistConforms(s, i) && VersionsConform(s, i))
  }

  /** The error for the first non-conforming tier at or after position i, if any. */
  function ViolationFrom(s: seq<RawPolicy>, i: nat): Option<PolicyError>
    requires i <= |s|
    decreases |s| - i
  {
    if i == |s| then None
    else if Conforms(s, i) then ViolationFrom(s, i + 1)
    else if !WhitelistConforms(s, i) then
      Some(MissingWhitelistLibraries(s[i].name, LibsBefore(s, i) - ToSet(s[i].libWhitelist)))
    else Some(MissingSymbolVersions(s[i].name))
  }

  /** What validation reports for a policy file: the first violation in descending priority. */
  function Pep600Violation(policies: seq<RawPolicy>): Option<PolicyError>
  {
    ViolationFrom(SortByPriorityDesc(policies), 0)
  }

  /**
   * The independent statement of PEP 600 monotonicity: for any two non-'linux' tiers,
   * the later (lower priority) one has every library and every version for each arch
   * and prefix it lists that the earlier one has.
   */
  predicate Monotone(s: seq<RawPolicy>)
  {
    forall i, j | 0 <= i < j < |s| && s[i].name != LinuxName && s[j].name != LinuxName ::
      && ToSet(s[i].libWhitelist) <= ToSet(s[j].libWhitelist)
      && forall arch, prefix | arch in s[j].symbolVersions && prefix in s[j].symbolVersions[arch] ::
           Listed(s[i].symbolVersions, arch, prefix) <= ToSet(s[j].symbolVersions[arch][prefix])
  }

  lemma {:induction false} LibsBeforeWithin(s: seq<RawPolicy>, i: nat, x: set<string>)
    requires i <= |s|
    ensures LibsBefore(s, i) <= x <==>
              forall k | 0 <= k < i && s[k].name != LinuxName :: ToSet(s[k].libWhitelist) <= x
  {
    if i > 0 {
      LibsBeforeWithin(s, i - 1, x);
    }
  }

  lemma {:induction false} VersionsBeforeWithin(s: seq<RawPolicy>, i: nat, arch: string, prefix: string, x: set<string>)
    requires i <= |s|
    ensures VersionsBefore(s, i, arch, prefix) <= x <==>
              forall k | 0 <= k < i && s[k].name != LinuxName :: Listed(s[k].symbolVersions, arch, prefix) <= x
  {
    if i > 0 {
      VersionsBeforeWithin(s, i - 1, arch, prefix, x);
    }
  }

  /** Tier j conforms exactly when it is monotone with respect to every earlier tier. */
  lemma ConformsIffMonotoneAt(s: seq<RawPolicy>, j: nat)
    requires j < |s| && s[j].name != LinuxName
    ensures Conforms(s, j) <==>
              forall i | 0 <= i < j && s[i].name != LinuxName ::
                && ToSet(s[i].libWhitelist) <= ToSet(s[j].libWhitelist)
                && forall arch, prefix | arch in s[j].symbolVersions && prefix in s[j].symbolVersions[arch] ::
                     Listed(s[i].symbolVersions, arch, prefix) <= ToSet(s[j].symbolVersions[arch][prefix])
  {
    var sv := s[j].symbolVersions;
    LibsBeforeWithin(s, j, ToSet(s[j].libWhitelist));
    forall arch, prefix | arch in sv && prefix in sv[arch] {
      VersionsBeforeWithin(s, j, arch, prefix, ToSet(sv[arch][prefix]));
    }
  }

  /** Validation accepts a sorted tier list exactly when the list is monotone. */
  lemma ViolationIffNotMonotone(s: seq<RawPolicy>)
    ensures ViolationFrom(s, 0).None? <==> Monotone(s)
  {
    NoViolationIffAllConform(s, 0);
    forall j | 0 <= j < |s| && s[j].name != LinuxName {
      ConformsIffMonotoneAt(s, j);
    }
  }

  lemma {:induction false} NoViolationIffAllConform(s: seq<RawPolicy>, i: nat)
    requires i <= |s|
    ensures ViolationFrom(s, i).None? <==> forall k | i <= k < |s| :: Conforms(s, k)
    decreases |s| - i
  {
    if i < |s| {
      NoViolationIffAllConform(s, i + 1);
    }
  }

  /**
   * PEP 600 monotonicity of an accepted policy file, stated on the input itself:
   * a non-'linux' tier of strictly lower priority has every library and every version
   * (for the arches and prefixes it lists) of a tier of higher priority.
   */
  lemma AcceptedIsMonotone(policies: seq<RawPolicy>, p: RawPolicy, q: RawPolicy)
    requires Pep600Violation(policies).None?
    requires p in policies && q in policies
    requires p.name != LinuxName && q.name != LinuxName && p.priority > q.priority
    ensures ToSet(p.libWhitelist) <= ToSet(q.libWhitelist)
    ensures forall arch, prefix | arch in q.symbolVersions && prefix in q.symbolVersions[arch] ::
              Listed(p.symbolVersions, arch, prefix) <= ToSet(q.symbolVersions[arch][prefix])
  {
    var s := SortByPriorityDesc(policies);
    ViolationIffNotMonotone(s);
    assert p in multiset(s) && q in multiset(s);
    var i :| 0 <= i < |s| && s[i] == p;
    var j :| 0 <= j < |s| && s[j] == q;
    assert i < j;
  }

  // ---------------------------------------------------------------------------
  // PEP 600 compliance: the check as the source runs it

  /**
   * Checks one tier's versions for one arch against those accumulated so far, and
   * merges them in; the prefixes are visited in no particular order.
   */
  method MergePrefixes(seen: map<string, set<string>>, versions: map<string, seq<string>>)
    returns (ok: bool, merged: map<string, set<string>>)
    ensures ok <==> forall prefix | prefix in versions :: Get(seen, prefix) <= ToSet(versions[prefix])
    ensures ok ==> forall prefix :: Get(merged, prefix) ==
                     Get(seen, prefix) + (if prefix in versions then ToSet(versions[prefix]) else {})
  {
    merged := seen;
    var prefixes := versions.Keys;
    while prefixes != {}
      invariant prefixes <= versions.Keys
      invariant forall prefix | prefix in versions && prefix !in prefixes :: Get(seen, prefix) <= ToSet(versions[prefix])
      invariant forall prefix :: Get(merged, prefix) ==
                  Get(seen, prefix) + (if prefix in versions && prefix !in prefixes then ToSet(versions[prefix]) else {})
      decreases prefixes
    {
      var prefix :| prefix in prefixes;
      var policyVersions := ToSet(versions[prefix]);
      if !(Get(merged, prefix) <= policyVersions) {
        return false, merged;
      }
      merged := merged[prefix := Get(merged, prefix) + policyVersions];
      prefixes := prefixes - {prefix};
    }
    ok := true;
  }

  /** Checks one tier's symbol versions against those accumulated so far, and merges them in. */
  method MergeSymbolVersions(acc: map<string, map<string, set<string>>>, sv: map<string, map<string, seq<string>>>)
    returns (ok: bool, merged: map<string, map<string, set<string>>>)
    ensures ok <==> forall arch, prefix | arch in sv && prefix in sv[arch] :: Lookup(acc, arch, prefix) <= ToSet(sv[arch][prefix])
    ensures ok ==> forall arch, prefix :: Lookup(merged, arch, prefix) == Lookup(acc, arch, prefix) + Listed(sv, arch, prefix)
  {
    merged := acc;
    var arches := sv.Keys;
    while arches != {}
      invariant arches <= sv.Keys
      invariant forall arch, prefix | arch in sv && arch !in arches && prefix in sv[arch] ::
                  Lookup(acc, arch, prefix) <= ToSet(sv[arch][prefix])
      invariant forall arch, prefix :: Lookup(merged, arch, prefix) ==
                  Lookup(acc, arch, prefix) + (if arch in arches then {} else Listed(sv, arch, prefix))
      decreases arches
    {
      var arch :| arch in arches;
      var seen := if arch in merged then merged[arch] else map[];
      assert forall prefix :: Get(seen, prefix) == Lookup(acc, arch, prefix) by {
        forall prefix ensures Get(seen, prefix) == Lookup(acc, arch, prefix) {
          assert Lookup(merged, arch, prefix) == Lookup(acc, arch, prefix);
        }
      }
      var archOk, archMerged := MergePrefixes(seen, sv[arch]);
      if !archOk {
        return false, merged;
      }
      merged := merged[arch := archMerged];
      arches := arches - {arch};
    }
    ok := true;
  }

  /**
   * _validate_pep600_compliance: walks the tiers from highest to lowest priority,
   * skipping 'linux', and reports the first tier that lacks a whitelisted library or a
   * symbol version that a higher tier had.
   */
  method ValidatePep600Compliance(policies: seq<RawPolicy>) returns (err: Option<PolicyError>)
    ensures err == Pep600Violation(policies)
    ensures err.None? <==> Monotone(SortByPriorityDesc(policies))
  {
    var sorted := SortByPriorityDesc(policies);
    ViolationIffNotMonotone(sorted);
    var libWhitelist: set<string> := {};
    var symbolVersions: map<string, map<string, set<string>>> := map[];
    for i := 0 to |sorted|
      invariant libWhitelist == LibsBefore(sorted, i)
      invariant forall arch, prefix :: Lookup(symbolVersions, arch, prefix) == VersionsBefore(sorted, i, arch, prefix)
      invariant ViolationFrom(sorted, 0) == ViolationFrom(sorted, i)
    {
      var policy := sorted[i];
      if policy.name == LinuxName {
        continue;
      }
      var policyLibs := ToSet(policy.libWhitelist);
      if !(libWhitelist <= policyLibs) {
        return Some(MissingWhitelistLibraries(policy.name, libWhitelist - policyLibs));
      }
      libWhitelist := libWhitelist + policyLibs;
      var ok, merged := MergeSymbolVersions(symbolVersions, policy.symbolVersions);
      if !ok {
        return Some(MissingSymbolVersions(policy.name));
      }
      symbolVersions := merged;
    }
    return None;
  }

  // ---------------------------------------------------------------------------
  // _load_policy

  /** A tier survives the arch filter when it lists the arch, or is the 'linux' tier. */
  predicate KeptFor(p: RawPolicy, arch: string)
  {
    arch in p.symbolVersions || p.name == LinuxName
  }

  /** The arch filter of _load_policy as a condition on one tier. */
  function KeepsArch(arch: string): RawPolicy -> bool
  {
    p => KeptFor(p, arch)
  }

  /** The tiers that survive the arch filter, in input order. */
  function Kept(ps: seq<RawPolicy>, arch: string): (r: seq<RawPolicy>)
    ensures forall p | p in r :: KeptFor(p, arch)
  {
    Filter(ps, KeepsArch(arch))
  }

  /** Exactly the input tiers that list the arch, plus 'linux', are kept. */
  lemma KeptMembers(ps: seq<RawPolicy>, arch: string, p: RawPolicy)
    ensures p in Kept(ps, arch) <==> p in ps && KeptFor(p, arch)
  {
    if p in ps && KeptFor(p, arch) {
      FilterKeepsAll(ps, KeepsArch(arch));
      var i :| 0 <= i < |ps| && ps[i] == p;
      assert KeepsArch(arch)(ps[i]);
    }
  }

  /** alias + suffix for every alias, in order. */
  function AddSuffix(names: seq<string>, suffix: string): (r: seq<string>)
    ensures |r| == |names|
    ensures forall k | 0 <= k < |r| :: r[k] == names[k] + suffix
  {
    if names == [] then [] else [names[0] + suffix] + AddSuffix(names[1..], suffix)
  }

  /**
   * The renaming done to a kept tier: '_' + arch appended to the name and to every alias;
   * a non-'linux' tier keeps only the symbol versions of that arch.
   */
  function Specialize(p: RawPolicy, arch: string): (q: Tier)
    requires KeptFor(p, arch)
    ensures q.priority == p.priority && q.libWhitelist == p.libWhitelist
    ensures |q.name| == |p.name| + 1 + |arch|
    ensures q.name[..|p.name|] == p.name && q.name[|p.name|..] == "_" + arch
    ensures |q.aliases| == |p.aliases|
    ensures forall k | 0 <= k < |q.aliases| :: q.aliases[k] == p.aliases[k] + "_" + arch
    ensures p.name != LinuxName ==> q.symbolVersions == ForArch(p.symbolVersions[arch])
    ensures p.name == LinuxName ==> q.symbolVersions == PerArch(p.symbolVersions)
  {
    Tier(
      p.name + "_" + arch,
      p.priority,
      AddSuffix(p.aliases, "_" + arch),
      p.libWhitelist,
      if p.name != LinuxName then ForArch(p.symbolVersions[arch]) else PerArch(p.symbolVersions))
  }

  /** max(p['priority'] for p in policies) */
  function MaxPriority(ps: seq<Tier>): (m: int)
    requires ps != []
    ensures forall k | 0 <= k < |ps| :: ps[k].priority <= m
    ensures exists k | 0 <= k < |ps| :: ps[k].priority == m
  {
    if |ps| == 1 then ps[0].priority
    else
      var rest := MaxPriority(ps[1..]);
      assert forall k | 1 <= k < |ps| :: ps[k] == ps[1..][k - 1];
      if ps[0].priority >= rest then ps[0].priority else rest
  }

  /** min(p['priority'] for p in policies) */
  function MinPriority(ps: seq<Tier>): (m: int)
    requires ps != []
    ensures forall k | 0 <= k < |ps| :: m <= ps[k].priority
    ensures exists k | 0 <= k < |ps| :: ps[k].priority == m
  {
    if |ps| == 1 then ps[0].priority
    else
      var rest := MinPriority(ps[1..]);
      assert forall k | 1 <= k < |ps| :: ps[k] == ps[1..][k - 1];
      if ps[0].priority <= rest then ps[0].priority else rest
  }

  /**
   * _load_policy on an already parsed policy file: validates it (glibc only), keeps the
   * tiers for arch and renames them, and records the lowest and highest priorities.
   */
  method LoadPolicy(parsed: seq<RawPolicy>, platform: Platform, arch: string)
    returns (r: Result<PlatformPolicies, PolicyError>)
    ensures platform == Manylinux && Pep600Violation(parsed).Some? ==> r == Err(Pep600Violation(parsed).value)
    ensures (platform == Musllinux || Pep600Violation(parsed).None?) && Kept(parsed, arch) == [] ==>
              r == Err(NoPolicyForArch)
    ensures (platform == Musllinux || Pep600Violation(parsed).None?) && Kept(parsed, arch) != [] ==>
              && r.Ok?
              && r.value.platform == platform
              && |r.value.policies| == |Kept(parsed, arch)|
              && (forall k | 0 <= k < |r.value.policies| ::
                    r.value.policies[k] == Specialize(Kept(parsed, arch)[k], arch))
              && r.value.lowest == MinPriority(r.value.policies)
              && r.value.highest == MaxPriority(r.value.policies)
  {
    if platform == Manylinux {
      var err := ValidatePep600Compliance(parsed);
      if err.Some? {
        return Err(err.value);
      }
    }
    var policies: seq<Tier> := [];
    for i := 0 to |parsed|
      invariant |policies| == |Kept(parsed[..i], arch)|
      invariant forall k | 0 <= k < |policies| :: policies[k] == Specialize(Kept(parsed[..i], arch)[k], arch)
    {
      assert parsed[..i + 1] == parsed[..i] + [parsed[i]];
      FilterAppend(parsed[..i], parsed[i], KeepsArch(arch));
      var p := parsed[i];
      if arch in p.symbolVersions || p.name == LinuxName {
        policies := policies + [Specialize(p, arch)];
      }
    }
    assert parsed[..|parsed|] == parsed;
    if policies == [] {
      return Err(NoPolicyForArch);
    }
    r := Ok(PlatformPolicies(platform, policies, MinPriority(policies), MaxPriority(policies)));
  }

  // ---------------------------------------------------------------------------
  // Lookups

  /** A tier answers to its name and to each of its aliases. */
  predicate NamedBy(p: Tier, name: string)
  {
    p.name == name || name in p.aliases
  }

  /**
   * get_policy_by_name: None when no tier answers to the name, the tier when exactly one
   * does, RuntimeError when several do.
   */
  function GetPolicyByName(pp: PlatformPolicies, name: string): (r: Result<Option<Tier>, PolicyError>)
    ensures r == Ok(None) <==> forall i | 0 <= i < |pp.policies| :: !NamedBy(pp.policies[i], name)
    ensures r.Err? <==> exists i, j | 0 <= i < j < |pp.policies| ::
                          NamedBy(pp.policies[i], name) && NamedBy(pp.policies[j], name)
    ensures r.Err? ==> r.error == DuplicatePolicies
    ensures r.Ok? && r.value.Some? ==>
              exists i | 0 <= i < |pp.policies| ::
                && pp.policies[i] == r.value.value
                && NamedBy(pp.policies[i], name)
                && forall j | 0 <= j < |pp.policies| && j != i :: !NamedBy(pp.policies[j], name)
  {
    var named := (p: Tier) => NamedBy(p, name);
    var matches := Filter(pp.policies, named);
    FilterEmpty(pp.policies, named);
    FilterPair(pp.policies, named);
    if |matches| == 0 then Ok(None)
    else if |matches| > 1 then Err(DuplicatePolicies)
    else
      FilterSingle(pp.policies, named);
      Ok(Some(matches[0]))
  }

  /**
   * get_policy_name: None when no tier has the priority, the name of the tier when exactly
   * one has it, RuntimeError when several have it.
   */
  function GetPolicyName(pp: PlatformPolicies, priority: int): (r: Result<Option<string>, PolicyError>)
    ensures r == Ok(None) <==> forall i | 0 <= i < |pp.policies| :: pp.policies[i].priority != priority
    ensures r.Err? <==> exists i, j | 0 <= i < j < |pp.policies| ::
                          pp.policies[i].priority == priority && pp.policies[j].priority == priority
    ensures r.Err? ==> r.error == DuplicatePriorities
    ensures r.Ok? && r.value.Some? ==>
              exists i | 0 <= i < |pp.policies| ::
                && pp.policies[i].name == r.value.value
                && pp.policies[i].priority == priority
                && forall j | 0 <= j < |pp.policies| && j != i :: pp.policies[j].priority != priority
  {
    var ranked := (p: Tier) => p.priority == priority;
    var matches := Filter(pp.policies, ranked);
    FilterEmpty(pp.policies, ranked);
    FilterPair(pp.policies, ranked);
    if |matches| == 0 then Ok(None)
    else if |matches| > 1 then Err(DuplicatePriorities)
    else
      FilterSingle(pp.policies, ranked);
      Ok(Some(matches[0].name))
  }

  /** get_priority_by_name: the priority of the tier get_policy_by_name finds. */
  function GetPriorityByName(pp: PlatformPolicies, name: string): (r: Result<Option<int>, PolicyError>)
    ensures r == Ok(None) <==> GetPolicyByName(pp, name) == Ok(None)
    ensures r.Err? <==> GetPolicyByName(pp, name).Err?
    ensures r.Ok? && r.value.Some? ==>
              exists i | 0 <= i < |pp.policies| ::
                && NamedBy(pp.policies[i], name)
                && pp.policies[i].priority == r.value.value
                && forall j | 0 <= j < |pp.policies| && j != i :: !NamedBy(pp.policies[j], name)
  {
    match GetPolicyByName(pp, name)
    case Err(e) => Err(e)
    case Ok(None) => Ok(None)
    case Ok(Some(p)) => Ok(Some(p.priority))
  }

  /** The name resolves to exactly one tier. */
  predicate Known(pp: PlatformPolicies, name: string)
  {
    GetPolicyByName(pp, name).Ok? && GetPolicyByName(pp, name).value.Some?
  }

  function PolicyNamed(pp: PlatformPolicies, name: string): Tier
    requires Known(pp, name)
  {
    GetPolicyByName(pp, name).value.value
  }

  function PriorityOf(pp: PlatformPolicies, name: string): int
    requires Known(pp, name)
  {
    PolicyNamed(pp, name).priority
  }

  /** [policy['name']] + policy['aliases'] */
  function Tags(p: Tier): seq<string>
  {
    [p.name] + p.aliases
  }

  /** No name or alias is shared by two tiers. */
  ghost predicate DistinctTags(ps: seq<Tier>)
  {
    forall i, j, name | 0 <= i < |ps| && 0 <= j < |ps| && i != j && NamedBy(ps[i], name) :: !NamedBy(ps[j], name)
  }

  /** With distinct tags, a tier's own name and each of its aliases find that tier. */
  lemma LookupFindsOwnTier(pp: PlatformPolicies, i: nat, name: string)
    requires DistinctTags(pp.policies)
    requires i < |pp.policies| && NamedBy(pp.policies[i], name)
    ensures GetPolicyByName(pp, name) == Ok(Some(pp.policies[i]))
    ensures Known(pp, name) && PriorityOf(pp, name) == pp.policies[i].priority
  {
    var r := GetPolicyByName(pp, name);
    assert r != Ok(None);
    assert forall a, b | 0 <= a < b < |pp.policies| :: !(NamedBy(pp.policies[a], name) && NamedBy(pp.policies[b], name));
    var k :| 0 <= k < |pp.policies| && pp.policies[k] == r.value.value && NamedBy(pp.policies[k], name);
    assert k == i;
  }

  /** A tier found by name is one of the tiers and answers to that name. */
  lemma KnownIsMember(pp: PlatformPolicies, name: string)
    requires Known(pp, name)
    ensures PolicyNamed(pp, name) in pp.policies && NamedBy(PolicyNamed(pp, name), name)
    ensures GetPriorityByName(pp, name) == Ok(Some(PriorityOf(pp, name)))
  {
  }

  /**
   * The highest priority of a loaded tier set always belongs to some tier: its name lookup
   * is never None, so the default repair target exists unless priorities repeat.
   */
  lemma HighestPriorityHasName(pp: PlatformPolicies)
    requires pp.policies != [] && pp.highest == MaxPriority(pp.policies)
    ensures GetPolicyName(pp, pp.highest) != Ok(None)
    ensures GetPolicyName(pp, pp.highest).Ok? ==>
              exists i | 0 <= i < |pp.policies| ::
                pp.policies[i].name == GetPolicyName(pp, pp.highest).value.value
                && forall j | 0 <= j < |pp.policies| :: pp.policies[j].priority <= pp.policies[i].priority
  {
  }

  // ---------------------------------------------------------------------------
  // Legacy platform tags

  /**
   * get_replace_platforms as written: no replacement for 'linux*', the arch part of a
   * 'manylinux_X_Y_arch' tag, and for any other tag everything after its first field.
   */
  function GetReplacePlatforms(name: string): (r: seq<string>)
    ensures |r| <= 1
    ensures r == [] <==> StartsWith(name, "linux")
    ensures r != [] ==> StartsWith(r[0], "linux_")
  {
    if StartsWith(name, "linux") then []
    else if StartsWith(name, "manylinux_") then ["linux_" + Join(Drop(Split(name, '_'), 3), '_')]
    else ["linux_" + Join(Split(name, '_')[1..], '_')]
  }

  /** Python's xs[k:] (empty when k is past the end). */
  function Drop<T>(xs: seq<T>, k: nat): seq<T>
  {
    if k <= |xs| then xs[k..] else []
  }

  /** A string that differs from the prefix at position k does not start with it. */
  lemma DiffersAt(s: string, prefix: string, k: nat)
    requires k < |prefix| && k < |s| && s[k] != prefix[k]
    ensures !StartsWith(s, prefix)
  {
  }

  /** A legacy tag 'head_rest' (head without '_') becomes 'linux_rest'. */
  lemma LegacyTagReplaced(head: string, rest: string)
    requires '_' !in head
    requires !StartsWith(head + "_" + rest, "linux") && !StartsWith(head + "_" + rest, "manylinux_")
    ensures GetReplacePlatforms(head + "_" + rest) == ["linux_" + rest]
  {
    SplitAfterHead(head, '_', rest);
    JoinSplit(rest, '_');
  }

  /** A PEP 600 tag 'manylinux_X_Y_arch' becomes 'linux_arch'. */
  lemma Pep600TagReplaced(major: string, minor: string, arch: string)
    requires '_' !in major && '_' !in minor
    ensures GetReplacePlatforms("manylinux_" + major + "_" + minor + "_" + arch) == ["linux_" + arch]
  {
    var name := "manylinux_" + major + "_" + minor + "_" + arch;
    FixedRewriteKeepsOnlyArch("manylinux", major, minor, arch);
    assert name == "manylinux" + "_" + major + "_" + minor + "_" + arch;
    DiffersAt(name, "musllinux_", 1);
    FixedAgreesOffMusllinux(name);
  }

  /** The doctests of get_replace_platforms: 'linux_*' tags have no replacement. */
  lemma LinuxTagsHaveNoReplacement()
    ensures GetReplacePlatforms("linux_x86_64") == []
    ensures GetReplacePlatforms("linux_i686") == []
  {
    assert StartsWith("linux_x86_64", "linux");
    assert StartsWith("linux_i686", "linux");
  }

  /** A doctest of get_replace_platforms: 'manylinux1_x86_64' becomes 'linux_x86_64'. */
  lemma Manylinux1X86Replaced()
    ensures GetReplacePlatforms("manylinux1_x86_64") == ["linux_x86_64"]
  {
    var arch := "x86_64";
    assert "manylinux1_x86_64" == "manylinux1_" + arch;
    ManylinuxOneReplaced(arch);
    assert "linux_" + arch == "linux_x86_64";
  }

  /** A doctest of get_replace_platforms: 'manylinux1_i686' becomes 'linux_i686'. */
  lemma Manylinux1I686Replaced()
    ensures GetReplacePlatforms("manylinux1_i686") == ["linux_i686"]
  {
    var arch := "i686";
    assert "manylinux1_i686" == "manylinux1_" + arch;
    ManylinuxOneReplaced(arch);
    assert "linux_" + arch == "linux_i686";
  }

  lemma ManylinuxOneReplaced(arch: string)
    requires |arch| > 0
    ensures GetReplacePlatforms("manylinux1_" + arch) == ["linux_" + arch]
  {
    var name := "manylinux1_" + arch;
    assert name == "manylinux1" + "_" + arch;
    DiffersAt(name, "linux", 0);
    DiffersAt(name, "manylinux_", 9);
    LegacyTagReplaced("manylinux1", arch);
  }

  /**
   * A PEP 656 tag 'musllinux_X_Y_arch' is handled by the last branch and keeps its
   * version fields: 'musllinux_1_1_x86_64' becomes 'linux_1_1_x86_64', not 'linux_x86_64'.
   */
  lemma MusllinuxTagKeepsVersion()
    ensures GetReplacePlatforms("musllinux_1_1_x86_64") == ["linux_1_1_x86_64"]
  {
    var rest := "1_1_x86_64";
    assert "musllinux_1_1_x86_64" == "musllinux_" + rest;
    MusllinuxTagReplaced(rest);
    assert "linux_" + rest == "linux_1_1_x86_64";
  }

  lemma MusllinuxTagReplaced(rest: string)
    ensures GetReplacePlatforms("musllinux_" + rest) == ["linux_" + rest]
  {
    var name := "musllinux_" + rest;
    assert name == "musllinux" + "_" + rest;
    DiffersAt(name, "linux", 0);
    DiffersAt(name, "manylinux_", 1);
    LegacyTagReplaced("musllinux", rest);
  }

  /** The tag rewrite with 'musllinux_X_Y_arch' handled like 'manylinux_X_Y_arch'. */
  function GetReplacePlatformsFixed(name: string): (r: seq<string>)
    ensures |r| <= 1
    ensures r == [] <==> StartsWith(name, "linux")
    ensures r != [] ==> StartsWith(r[0], "linux_")
  {
    if StartsWith(name, "linux") then []
    else if StartsWith(name, "manylinux_") || StartsWith(name, "musllinux_") then
      ["linux_" + Join(Drop(Split(name, '_'), 3), '_')]
    else ["linux_" + Join(Split(name, '_')[1..], '_')]
  }

  /** Both PEP 600 and PEP 656 tags of the form 'family_X_Y_arch' become 'linux_arch'. */
  lemma FixedRewriteKeepsOnlyArch(family: string, major: string, minor: string, arch: string)
    requires family == "manylinux" || family == "musllinux"
    requires '_' !in major && '_' !in minor
    ensures GetReplacePlatformsFixed(family + "_" + major + "_" + minor + "_" + arch) == ["linux_" + arch]
  {
    var name := family + "_" + major + "_" + minor + "_" + arch;
    var tail := minor + "_" + arch;
    var mid := major + "_" + tail;
    assert name == family + "_" + mid;
    SplitAfterHead(family, '_', mid);
    SplitAfterHead(major, '_', tail);
    SplitAfterHead(minor, '_', arch);
    var parts := Split(name, '_');
    assert parts == [family] + ([major] + ([minor] + Split(arch, '_')));
    assert Drop(parts, 3) == Split(arch, '_');
    JoinSplit(arch, '_');
    assert name[..|family| + 1] == family + "_";
    assert StartsWith(name, "manylinux_") || StartsWith(name, "musllinux_");
    DiffersAt(name, "linux", 0);
  }

  /** The fix changes nothing for tags that are not musllinux ones. */
  lemma FixedAgreesOffMusllinux(name: string)
    requires !StartsWith(name, "musllinux_")
    ensures GetReplacePlatformsFixed(name) == GetReplacePlatforms(name)
  {
  }
}
