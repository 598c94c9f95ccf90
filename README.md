# auditwheel policy engine and repair target rule, in Dafny

This project models two parts of auditwheel, the tool that checks and repairs Linux binary
wheels against the manylinux and musllinux platform tags.

**The policy engine** (`auditwheel/policy/__init__.py`). A policy file lists the ABI tiers
(manylinux_2_17, manylinux_2_24, ...). Each tier has a name, a priority, aliases, a library
whitelist and symbol versions per architecture and prefix. The engine does four things:

- It checks that a glibc policy file obeys the monotonicity rule of PEP 600: in order of
  decreasing priority, no tier may lose a whitelisted library, nor a symbol version for an
  arch and prefix it lists.
- It keeps the tiers for the host architecture and renames them.
- It looks tiers up by name or alias and by priority. A lookup fails when it is ambiguous.
- It rewrites a tag into its legacy `linux_*` form.

**The `repair` command's target-tier rule**, in two versions:

- `src/auditwheel/main_repair.py` loops over the wheels.
- `auditwheel/main_repair.py` is the older version for a single wheel. It has no
  blacklist check and comma-splits `--include` and `--exclude`.

For each wheel the rule chooses a requested tier. It rejects the request on the first
dimension the analysed wheel does not reach: symbol versions, then UCS, then (in the current
version) blacklisted symbols. Otherwise it hands the repair step a list of tags. That list is
the tier's name and aliases, preceded by those of a better tier the wheel qualifies for.

How the model is shaped:

- Python exceptions and `p.error` exits are values: `Result`, `Exit`, `Outcome`.
  - An ambiguous lookup (RuntimeError) becomes `LookupError`.
  - A `None` lookup result used as a tier (TypeError) becomes `MissingTier`.
- The wheel analysis and the repair step are observed as the calls `execute` makes.
- The loops of the source are methods with loop invariants, proved against the
  specification functions: `ValidatePep600Compliance`, `MergePrefixes`, `LoadPolicy`,
  `Repair.Execute`.

Files:

- `results.dfy`: `Option` and `Result`.
- `sequences.dfy`: list comprehension as `Filter`, and `set(...)` as `ToSet`.
- `strings.dfy`: `str.split` and `str.join` on one character.
- `policy.dfy`: the policy engine.
- `repair.dfy`: the current `execute`.
- `legacy_repair.dfy`: the older `execute` and its argument-parser set-up.

## Model

| member | source | states |
|---|---|---|
| Sequences.Filter | auditwheel/policy/__init__.py:134-135 | the comprehension keeps only elements of the list that satisfy the condition |
| Sequences.FilterEmpty | auditwheel/policy/__init__.py:136-137 | `len(matches) == 0` exactly when no element satisfies the condition |
| Sequences.FilterPair | auditwheel/policy/__init__.py:138-139 | `len(matches) > 1` exactly when two distinct positions satisfy the condition |
| Sequences.FilterKeepsAll | auditwheel/policy/__init__.py:134-135 | every element that satisfies the condition is kept |
| Sequences.FilterAppend | auditwheel/policy/__init__.py:95-103 | filtering a list extended by one element appends that element exactly when it satisfies the condition |
| Sequences.FilterSingle | auditwheel/policy/__init__.py:140 | a single match is an element of the list that satisfies the condition |
| Strings.Split | auditwheel/main_repair.py:136-137 | `split(',')` yields one more part than there are commas, and no part contains a comma |
| Strings.Join | auditwheel/policy/__init__.py:179-180 | `'_'.join(parts)`: the parts with the separator between consecutive ones; JoinSplit and SplitJoin state it is the inverse of Split |
| Strings.JoinSplit | auditwheel/main_repair.py:136-137 | joining the parts of a split with the separator gives back the string |
| Strings.SplitJoin | auditwheel/main_repair.py:136-137 | splitting a join of separator-free parts gives back the parts |
| Strings.SplitWithoutSeparator | auditwheel/policy/__init__.py:179-180 | a string without the separator splits into itself alone |
| Strings.SplitAfterHead | auditwheel/policy/__init__.py:179-180 | splitting `h + sep + tail`, with no sep in h, yields h followed by the split of the tail |
| Policy.Bits | auditwheel/policy/__init__.py:34 | the pointer width is 64 exactly when sys.maxsize exceeds 2**32, and 32 otherwise |
| Policy.GetArchName | auditwheel/policy/__init__.py:34-42 | a machine other than x86_64/i686 is returned as is; otherwise the arch is x86_64 exactly when sys.maxsize exceeds 2**32, else i686 |
| Policy.InsertByPriority | auditwheel/policy/__init__.py:61 | inserting into a list sorted by decreasing priority keeps it sorted and adds exactly that tier |
| Policy.SortByPriorityDesc | auditwheel/policy/__init__.py:61 | `sorted(..., reverse=True)` by priority: sorted by decreasing priority and a permutation of the input |
| Policy.LibsBeforeWithin | auditwheel/policy/__init__.py:60-70 | the accumulated whitelist is within a set exactly when every earlier non-linux tier's whitelist is |
| Policy.VersionsBeforeWithin | auditwheel/policy/__init__.py:71-87 | the accumulated versions for an arch and prefix are within a set exactly when every earlier non-linux tier's are |
| Policy.ViolationFrom | auditwheel/policy/__init__.py:61-87 | the ValueError of the loop from a position on: none when every tier from there passes (NoViolationIffAllConform), else the error for the first tier that fails the whitelist check, then the symbol-version check |
| Policy.Pep600Violation | auditwheel/policy/__init__.py:58-87 | what validation raises for a policy file: the first violation in descending priority; ViolationIffNotMonotone and AcceptedIsMonotone state it is none exactly for a monotone file |
| Policy.ConformsIffMonotoneAt | auditwheel/policy/__init__.py:64-86 | a tier passes both subset checks exactly when its whitelist and versions contain those of every earlier non-linux tier |
| Policy.NoViolationIffAllConform | auditwheel/policy/__init__.py:61-87 | no ValueError from a position on exactly when every tier from there passes its checks |
| Policy.ViolationIffNotMonotone | auditwheel/policy/__init__.py:58-87 | the validation raises nothing exactly when the sorted tiers are monotone (PEP 600) pairwise |
| Policy.AcceptedIsMonotone | auditwheel/policy/__init__.py:58-87 | in an accepted file, a non-linux tier of higher priority has a whitelist and symbol versions within those of every non-linux tier of lower priority |
| Policy.MergePrefixes | auditwheel/policy/__init__.py:72-86 | the prefix loop succeeds exactly when each seen prefix set is a subset of the tier's, and then each prefix's set is the union |
| Policy.MergeSymbolVersions | auditwheel/policy/__init__.py:71-87 | the arch loop succeeds exactly when every arch and prefix passes, and then the accumulated versions are the union |
| Policy.ValidatePep600Compliance | auditwheel/policy/__init__.py:58-87 | the loop raises the first violation in priority order, and nothing exactly when the sorted tiers are monotone |
| Policy.KeptFor | auditwheel/policy/__init__.py:96-97 | a tier is kept when its symbol versions list the arch or it is named `linux` |
| Policy.KeepsArch | auditwheel/policy/__init__.py:96-97 | the same condition as a filter over tiers |
| Policy.Kept | auditwheel/policy/__init__.py:95-97 | every kept tier has the host arch in its symbol versions or is the linux tier |
| Policy.KeptMembers | auditwheel/policy/__init__.py:95-103 | a tier is kept exactly when it is in the file and has the arch or is the linux tier |
| Policy.AddSuffix | auditwheel/policy/__init__.py:101-102 | each alias gets `_` + arch appended, in order |
| Policy.Specialize | auditwheel/policy/__init__.py:96-102 | a kept tier keeps its priority and whitelist, gets `_arch` on its name and aliases, and keeps only the arch's versions unless it is the linux tier |
| Policy.MaxPriority | auditwheel/policy/__init__.py:105 | `max` is an upper bound attained by some tier |
| Policy.MinPriority | auditwheel/policy/__init__.py:106 | `min` is a lower bound attained by some tier |
| Policy.LoadPolicy | auditwheel/policy/__init__.py:90-111 | a glibc file that breaks PEP 600 is refused; no tier for the arch is an error (`max` of nothing); otherwise the renamed kept tiers in order with their min and max priorities |
| Policy.GetPolicyByName | auditwheel/policy/__init__.py:132-141 | None exactly when no tier has the name or alias; RuntimeError exactly when two do; otherwise the one tier that has it |
| Policy.GetPolicyName | auditwheel/policy/__init__.py:144-153 | None exactly when no tier has the priority; RuntimeError exactly when two do; otherwise the name of the one tier that has it |
| Policy.GetPriorityByName | auditwheel/policy/__init__.py:156-160 | None and RuntimeError exactly as for the name lookup; otherwise the priority of the one tier with that name or alias |
| Policy.Tags | src/auditwheel/main_repair.py:177 | `[policy["name"]] + policy["aliases"]`, the tags of a tier, also at lines 190 and at auditwheel/main_repair.py:118, 126; RepairAbis and the older Execute state the tag lists built from it |
| Policy.LookupFindsOwnTier | auditwheel/policy/__init__.py:132-141 | when no tag is shared, looking up a tier's name or alias finds that tier and its priority |
| Policy.KnownIsMember | auditwheel/policy/__init__.py:132-160 | a found tier is in the tier set and carries the name, and the priority lookup agrees with it |
| Policy.HighestPriorityHasName | auditwheel/policy/__init__.py:105 | in a loaded tier set, the lookup of the highest priority never returns None, and a name it returns belongs to a tier of maximal priority |
| Policy.GetReplacePlatforms | auditwheel/policy/__init__.py:163-180 | no replacement exactly for tags starting with `linux`, otherwise one tag starting with `linux_` |
| Policy.LinuxTagsHaveNoReplacement | auditwheel/policy/__init__.py:166-169 | `linux_x86_64` and `linux_i686` have no replacement |
| Policy.Manylinux1X86Replaced | auditwheel/policy/__init__.py:170-171 | `manylinux1_x86_64` is replaced by `linux_x86_64` |
| Policy.Manylinux1I686Replaced | auditwheel/policy/__init__.py:172-173 | `manylinux1_i686` is replaced by `linux_i686` |
| Policy.ManylinuxOneReplaced | auditwheel/policy/__init__.py:180 | `manylinux1_<arch>` is replaced by `linux_<arch>` for every arch |
| Policy.LegacyTagReplaced | auditwheel/policy/__init__.py:180 | a legacy tag `<head>_<rest>` is replaced by `linux_<rest>` |
| Policy.Pep600TagReplaced | auditwheel/policy/__init__.py:178-179 | `manylinux_<major>_<minor>_<arch>` is replaced by `linux_<arch>` |
| Policy.MusllinuxTagReplaced | auditwheel/policy/__init__.py:176-180 | as written, `musllinux_<rest>` falls to the legacy branch and becomes `linux_<rest>` |
| Policy.MusllinuxTagKeepsVersion | auditwheel/policy/__init__.py:176-180 | as written, `musllinux_1_1_x86_64` becomes `linux_1_1_x86_64` |
| Policy.GetReplacePlatformsFixed | auditwheel/policy/__init__.py:176-180 | the corrected rewrite keeps the contract of the original: none exactly for `linux*`, otherwise one `linux_` tag |
| Policy.FixedRewriteKeepsOnlyArch | auditwheel/policy/__init__.py:178-179 | corrected: both `manylinux_X_Y_<arch>` and `musllinux_X_Y_<arch>` become `linux_<arch>` |
| Policy.FixedAgreesOffMusllinux | auditwheel/policy/__init__.py:176-180 | the correction changes nothing for tags outside musllinux |
| Repair.ResolveTier | src/auditwheel/main_repair.py:149-150 | a known tag resolves to its tier; an unknown, ambiguous or None tag raises |
| Repair.TagPriority | src/auditwheel/main_repair.py:152-179 | a known tag gives its tier's priority; any other tag raises when compared |
| Repair.RepairAbis | src/auditwheel/main_repair.py:149-190 | the request fails on the first of symbol, UCS and blacklist whose priority is below it; it passes exactly when none is; the tags are the target's, preceded (without --only-plat) by the overall tier's when that is higher |
| Repair.Truthy | src/auditwheel/main_repair.py:139 | `if args.PLAT`: set and not the empty string |
| Repair.Step | src/auditwheel/main_repair.py:125-209 | one pass of the loop for one wheel and the current args.PLAT: it either ends `execute` with its exit and calls, or goes on with the new args.PLAT and its calls; StepStops, StepCallsShape, StepGoesOn, StepStopsAbnormally and the lemmas below state what it does |
| Repair.StepStops | src/auditwheel/main_repair.py:125-141 | a missing file is an error before analysis; a non-platform wheel returns 1 after it; --best-plat with a non-empty --plat is an error |
| Repair.StepCallsShape | src/auditwheel/main_repair.py:122-203 | an existing file is analysed first, and every call is about that wheel and gets the one exclude set |
| Repair.StepGoesOn | src/auditwheel/main_repair.py:177-209 | a wheel that lets the loop go on was analysed and then repaired; with --best-plat args.PLAT is cleared |
| Repair.StepStopsAbnormally | src/auditwheel/main_repair.py:125-175 | every way a wheel stops the loop is an error or the return of 1 |
| Repair.StepOfAnalysesThenRepairs | src/auditwheel/main_repair.py:122-209 | every iteration analyses and then repairs its own wheel with the exclude set |
| Repair.RunWith | src/auditwheel/main_repair.py:125-209 | the loop over the wheels for any per-wheel step: the first step that stops gives the exit, earlier steps' calls come first, and args.PLAT is carried from step to step |
| Repair.Run | src/auditwheel/main_repair.py:125-209 | `execute` over its wheels from a given args.PLAT, as RunWith over Step; the lemmas below state its exclude set, its early exits and its normal finish |
| Repair.Execute | src/auditwheel/main_repair.py:125-209 | the loop, with args.PLAT carried across wheels, ends as the wheel-by-wheel specification does, with the same calls |
| Repair.RunWithPassesExclude | src/auditwheel/main_repair.py:122-201 | over any loop whose steps all pass one exclude set, every call gets that set |
| Repair.RunPassesExcludeUnchanged | src/auditwheel/main_repair.py:122-201 | `frozenset(args.EXCLUDE)` is what every analysis and repair call receives |
| Repair.RunWithIgnoresAfterStop | src/auditwheel/main_repair.py:125-136 | once a step stops the loop, the wheels after it change nothing |
| Repair.RunIgnoresWheelsAfterStop | src/auditwheel/main_repair.py:125-136 | once a wheel ends `execute`, appending wheels changes neither its exit nor its calls |
| Repair.RunWithFinishedRepairsEvery | src/auditwheel/main_repair.py:125-203 | a loop that finishes made exactly an analysis and a repair per wheel, in order |
| Repair.FinishedRepairsEveryWheel | src/auditwheel/main_repair.py:125-203 | `execute` finishes normally only after analysing and repairing every wheel, in order |
| Repair.RepairedTargetIsAdmissible | src/auditwheel/main_repair.py:149-190 | the repair tags end with those of a tier no higher than the symbol, UCS and blacklist tiers |
| Repair.BestPlatTargetsOverallTag | src/auditwheel/main_repair.py:138-209 | with --best-plat the tags are exactly the overall tier's, nothing is prepended, and args.PLAT is reset to None |
| Repair.DefaultTargetIsHighest | src/auditwheel/main_repair.py:146-148 | without --plat and --best-plat the target is a tier of the highest priority, kept in args.PLAT, and the tags end with its name and aliases |
| LegacyRepair.Aliases | auditwheel/main_repair.py:17 | every alias of the tiers, tier by tier; AliasesMembers states its members |
| LegacyRepair.PolicyNames | auditwheel/main_repair.py:16-17 | the --plat choices: every name, then every alias; ChoicesAreTierTags states its members |
| LegacyRepair.AliasesMembers | auditwheel/main_repair.py:17 | the alias list holds exactly the aliases of all tiers |
| LegacyRepair.ChoicesAreTierTags | auditwheel/main_repair.py:16-17 | a --plat choice is exactly the name or an alias of some tier |
| LegacyRepair.Configure | auditwheel/main_repair.py:28-43 | the default PLAT is the name of a highest-priority tier (None when there is none); a duplicated highest priority raises; a given value is accepted exactly when it is a choice |
| LegacyRepair.CommaList | auditwheel/main_repair.py:136-137 | `(opt or '').split(',')` joins back to the option, has comma-free parts, and is `['']` when the option is absent |
| LegacyRepair.Execute | auditwheel/main_repair.py:87-137 | missing file, then non-platform wheel, then symbol and then UCS rejection, exactly by priority; otherwise one repair call with the target's tags, preceded by the overall tier's when higher, and the comma-split lists; it agrees with the current rule when no blacklist constraint applies |

## Left out

- Argument parsing beyond what the rule reads is not modelled: help text, the `epilog` loop in `configure_parser`, `--lib-sdir`, `--wheel-dir`, `--no-update-tags`, `--strip`. The `AUDITWHEEL_PLAT` default of the older `--plat` is also left out, because its `EnvironmentDefault` action is not part of this model.
- Logging, the `os.makedirs` of the wheel directory and the printed output path have no effect on the decision.
- Reading `policy.json` and the schema from disk is not modelled. `Policy.LoadPolicy` models `_load_policy` and gets the parsed file, the platform and the arch as inputs.
- `load_policies` is not modelled: its choice of policy file by platform, its `lru_cache`, and its `ValueError("Invalid policy")` branch, which a two-valued `Platform` cannot reach.
- Host detection is left out. `get_policy_platform` (musl detection) is replaced by a parameter. `get_arch_name` takes `platform.machine()` and `sys.maxsize` as parameters.
- `analyze_wheel_abi`, `repair_wheel` and `Patchelf` are abstract. A wheel carries its analysis verdict, and the repair is recorded as a call.
- `WheelPolicies` and `set_platform_from_wheel` are not part of this model. Each wheel carries the tier set chosen for it, and the shown lookup functions act on it.
- Policy.ValidatePep600Compliance: the error names the tier and the missing libraries, but for symbol versions only the tier. Which arch and prefix Python reports first depends on dict order, which the model does not fix.
- Policy.SortByPriorityDesc: stability (ties keep input order) is not proved, only sortedness and permutation.
- Policy.LoadPolicy: the in-place update of the parsed dicts is modelled by building new tier values.
- tests/test_pyfpe.py is not part of this model.

## Findings

| source | as written | input that shows it | evidently intended | confidence | as-written member | corrected member |
|---|---|---|---|---|---|---|
| auditwheel/policy/__init__.py:176-180 | only `manylinux_` tags drop the two version fields; a `musllinux_X_Y_arch` tag falls to the legacy branch and keeps them | `musllinux_1_1_x86_64` gives `linux_1_1_x86_64` | `linux_x86_64`, as for `manylinux_2_17_x86_64` | medium, not executed | Policy.MusllinuxTagKeepsVersion | Policy.FixedRewriteKeepsOnlyArch |
