# AFU-to-platform port negotiation, modelled in Dafny

This project models the decision logic of the OPAE platform manager's
`afu_platform_config` and `afu_synth_setup` tools.

An AFU (accelerator functional unit) names a generic top-level interface. It
may patch that interface with its own `module-ports` list. The platform
database lists the ports the FPGA platform offers. The tool checks, port by
port, that the platform satisfies the AFU. For ports that are vectors on both
sides it also picks the number of entries. It stops at the first violation.

Modules:

- `Entries` (`entries.dfy`): port records and the sizing of vector/vector
  pairs. The rule chain is (a) the AFU default, (b) the platform default,
  (c) the platform maximum. The result is clamped to the AFU maximum and then
  checked against both minimums. `sys.maxsize`, the source's "no maximum"
  sentinel, is the explicit value `Unbounded`.
- `PortMatch` (`port_match.dfy`): `matchAfuPorts`. It looks up each offering
  under the key `class + '/' + interface`, skips an optional port that is not
  offered, rejects shape mismatches and records one match per offered port.
- `IfcMerge` (`ifc_merge.dfy`): `injectAfuIfcChanges`. An entry for a new
  class adds that class and must carry `interface`. An entry for a known class
  may change only `default-entries`, `max-entries`, `min-entries`, `optional`
  and `params`.
- `LegacyKeys` (`legacy_keys.dfy`): the legacy-key clean-up in `getAfuIfc`.
  It renames `module-arguments` to `module-ports` and `name` to `class`.
- `SynthSetup` (`synth_setup.dfy`): three pieces of `afu_synth_setup.py`.
  They are `updCmdEnv`, the choice of the release hw/lib directory, and the
  "exactly one AFU JSON file" check on the output of `rtl_src_config`.
- `Text` (`text.dfy`): Python's `str.split`, `str.rstrip` and `str.strip`,
  with `Join` as the inverse of `Split`.
- `Json` and `Wrappers`: JSON values, `Option` and `Result`.

Every `errorExit` becomes a `Failure` with a tag. The functions are pure. The
source merges in place into the loaded base interface. The model returns a
new table instead, which behaves the same because any failure ends the
process.

Points where the model follows the code rather than a simpler reading of it:

- Ports are matched in the insertion order of the AFU's `module-ports`
  dictionary. The sorted order appears only in verbose printing
  (afu_platform_config.py:82-88, 91). `PortMatch.MatchAll` receives that
  order as a sequence; the merge model does not produce it (see "## Left
  out").
- A resolved `num-entries` is not always within the platform maximum. Rule
  (b) takes the platform default without comparing it with the platform
  maximum. `Entries.PlatformDefaultIgnoresPlatformMax` shows such a case, and
  `Entries.ResolveEntries` states the bound only for a platform whose default
  lies within its own bounds.
- When both sides have no maximum and rule (c) applies, the source records
  `sys.maxsize` itself as `num-entries`. The model records `Unbounded`.

## Model

| member | source | states |
|---|---|---|
| `Entries.Clamp` | platforms/scripts/platmgr/tools/afu_platform_config.py:145-147 | the clamped size never exceeds the AFU maximum; it is either the proposed size or, when that exceeded the maximum, the maximum itself |
| `Entries.ResolveEntries` | platforms/scripts/platmgr/tools/afu_platform_config.py:129-163 | a chosen `num-entries` lies within the AFU's [min, max] and at or above the platform min; it is at most the platform max whenever the platform's default lies within its own bounds; failure happens exactly when the clamped proposal is below either minimum; below the AFU min it is the "requires more vector entries" error, otherwise below the platform min it is the platform-floor error |
| `Entries.RuleAChoosesAfuDefault` | platforms/scripts/platmgr/tools/afu_platform_config.py:132-152 | an AFU without a maximum whose default lies in the platform's [min, max] gets exactly that default, or fails as needing more entries when the default is below its own min |
| `Entries.RuleBChoosesPlatformDefault` | platforms/scripts/platmgr/tools/afu_platform_config.py:138-157 | when rule (a) does not apply, an AFU without a maximum and a platform default at or above the AFU min gets exactly the platform default, or fails with the platform-floor error when that default is below the platform min |
| `Entries.RuleCChoosesPlatformMax` | platforms/scripts/platmgr/tools/afu_platform_config.py:142-157 | when neither (a) nor (b) applies, the count is the platform max, lowered to the AFU max when it exceeds it; below the AFU min it fails as needing more entries, otherwise below the platform min with the platform-floor error |
| `Entries.ResolveComplete` | platforms/scripts/platmgr/tools/afu_platform_config.py:132-157 | for descriptors whose defaults lie in their own bounds, sizing succeeds exactly when some count fits both sides, and the count chosen fits both sides' full windows |
| `Entries.RuleAExample` | platforms/scripts/platmgr/tools/afu_platform_config.py:132-137 | AFU {min 1, no max, default 4} against platform {min 2, max 8} resolves to 4 |
| `Entries.RuleBExample` | platforms/scripts/platmgr/tools/afu_platform_config.py:138-141 | AFU {min 1, no max, no default} against platform {min 2, max 8, default 6} resolves to 6 |
| `Entries.ClampExample` | platforms/scripts/platmgr/tools/afu_platform_config.py:142-147 | an AFU with a stated maximum of 3 gets the platform max 8 lowered to 3 |
| `Entries.PlatformDefaultIgnoresPlatformMax` | platforms/scripts/platmgr/tools/afu_platform_config.py:138-143 | a platform default of 8 above a platform max of 4 is chosen unchanged |
| `Entries.NoBacktracking` | platforms/scripts/platmgr/tools/afu_platform_config.py:138-157 | the first applicable rule is final: a platform default below the platform min fails the run although counts 2..8 would fit |
| `PortMatch.MatchPort` | platforms/scripts/platmgr/tools/afu_platform_config.py:94-166 | a port that is not offered is skipped exactly when it is optional and fails otherwise; a shape disagreement in either direction fails with the matching error; a scalar/scalar pair always matches, with no `num-entries`; a vector/vector pair matches exactly when sizing succeeds, with the sized count, and otherwise fails with sizing's error; a match pairs the port with exactly the offering stored under `class/interface` |
| `PortMatch.OfferedPorts` | platforms/scripts/platmgr/tools/afu_platform_config.py:91-107 | exactly the AFU ports for which an offering exists: every result is an offered AFU port and every offered AFU port is in the result |
| `PortMatch.OfferedPortsAppend` | platforms/scripts/platmgr/tools/afu_platform_config.py:91-107 | the offered ports keep the AFU order: those of `a + b` are those of `a` followed by those of `b` |
| `PortMatch.MatchAll` | platforms/scripts/platmgr/tools/afu_platform_config.py:91-168 | the run succeeds exactly when every port matches on its own; on success there is one match per offered port, in order, each equal to that port's own match; on failure the error is that of the first failing port, after which no port is considered |
| `PortMatch.MatchAllAppend` | platforms/scripts/platmgr/tools/afu_platform_config.py:91-166 | matching is per port with no rollback: matching `a + b` equals matching `a`, then `b`, and concatenating |
| `PortMatch.OptionalMissingExample` | platforms/scripts/platmgr/tools/afu_platform_config.py:96-101 | an optional port missing from the platform yields no match and no error |
| `PortMatch.ScalarAgainstVectorExample` | platforms/scripts/platmgr/tools/afu_platform_config.py:122-127 | a scalar requirement against a vector offering fails with the shape-mismatch error |
| `PortMatch.PortKeyCollision` | platforms/scripts/platmgr/tools/afu_platform_config.py:95-96 | class "a/b" with interface "c" and class "a" with interface "b/c" are looked up under the same key |
| `PortMatch.PortKeyInjective` | platforms/scripts/platmgr/tools/afu_platform_config.py:95 | when class names hold no '/', equal lookup keys mean equal class and interface |
| `IfcMerge.Override` | platforms/scripts/platmgr/tools/afu_platform_config.py:319-335 | every field of the update except `class` replaces the port's field; every other field of the port keeps its value |
| `IfcMerge.ApplyEntry` | platforms/scripts/platmgr/tools/afu_platform_config.py:294-335 | an entry succeeds exactly when it is an object with a class and either names a known class and carries only allowed fields, or names a new class and carries `interface`; each failure carries its own tag: not an object, no `class`, a `class` that is not a string, a new class without `interface`, and on a known class the unauthorized-override error; success adds that class only, stores a new class verbatim, and leaves every other class unchanged |
| `IfcMerge.ApplyEntries` | platforms/scripts/platmgr/tools/afu_platform_config.py:293-335 | after a successful merge the table holds the base classes plus the classes the entries name, and classes no entry names are unchanged |
| `IfcMerge.InjectAfuIfcChanges` | platforms/scripts/platmgr/tools/afu_platform_config.py:284-335 | without `module-ports` the base is returned unchanged; a `module-ports` that is not a list fails; a list is merged exactly as `ApplyEntries` merges it; a successful merge keeps every base class, adds exactly the named classes, and leaves every class no entry names unchanged |
| `IfcMerge.ApplyEntriesAppend` | platforms/scripts/platmgr/tools/afu_platform_config.py:293-335 | entries apply strictly in list order: merging `a + b` is merging `a` and then `b` into the result |
| `IfcMerge.NewClassAdded` | platforms/scripts/platmgr/tools/afu_platform_config.py:306-312 | an entry for a class not yet present that names an `interface` adds that class with the entry stored verbatim |
| `IfcMerge.OverrideOneField` | platforms/scripts/platmgr/tools/afu_platform_config.py:316-335 | an allowed field on a known class changes only that field of that port |
| `IfcMerge.LastOverrideWins` | platforms/scripts/platmgr/tools/afu_platform_config.py:316-335 | two overrides of the same field leave the second value |
| `IfcMerge.UnauthorizedFieldRefuses` | platforms/scripts/platmgr/tools/afu_platform_config.py:319-327 | a field outside the allow-list on a known class fails the whole merge, whatever precedes or follows it |
| `IfcMerge.AddedClassIsKnown` | platforms/scripts/platmgr/tools/afu_platform_config.py:305-312 | a class added earlier in the list is known to later entries, so repeating its `interface` is refused |
| `IfcMerge.ExtensionsCommute` | platforms/scripts/platmgr/tools/afu_platform_config.py:305-312 | two extensions adding different new classes succeed and give the same table in either order |
| `LegacyKeys.RenameKey` | platforms/scripts/platmgr/tools/afu_platform_config.py:230-231 | the old key disappears, the new key holds the old key's value when it existed, and all other keys are untouched |
| `LegacyKeys.CanonicalizeLegacyKeys` | platforms/scripts/platmgr/tools/afu_platform_config.py:230-236 | no legacy key remains; `module-ports` / `class` exist exactly when they or their legacy names did, the legacy value winning; every other key is untouched |
| `LegacyKeys.CanonicalizeIdempotent` | platforms/scripts/platmgr/tools/afu_platform_config.py:230-236 | running the clean-up twice equals running it once |
| `LegacyKeys.CurrentSchemaUnchanged` | platforms/scripts/platmgr/tools/afu_platform_config.py:230-236 | a descriptor without legacy keys is left as it is |
| `Text.Split` | platforms/scripts/platmgr/tools/afu_synth_setup.py:122 | `split` gives at least one piece, no piece contains the separator, and joining the pieces gives back the string |
| `Text.SplitAppend` | platforms/scripts/platmgr/tools/afu_synth_setup.py:122-124 | splitting `a + sep + b` gives the pieces of `a` followed by those of `b` |
| `Text.SplitNoSeparator` | platforms/scripts/platmgr/tools/afu_synth_setup.py:122-123 | a string without the separator splits into itself alone |
| `Text.SplitSingleIff` | platforms/scripts/platmgr/tools/afu_synth_setup.py:246-250 | there is exactly one piece exactly when the separator does not occur |
| `Text.SplitJoin` | platforms/scripts/platmgr/tools/afu_synth_setup.py:122 | splitting undoes joining for separator-free pieces |
| `Text.LastComponentAppend` | platforms/scripts/platmgr/tools/afu_synth_setup.py:122-124 | after appending `:value` with a colon-free value, the last component is `value` |
| `Text.RStrip` | platforms/scripts/platmgr/tools/afu_synth_setup.py:72 | `rstrip('/')` gives a prefix, removes only '/' characters, and leaves no trailing '/' |
| `Text.TrimStart` | platforms/scripts/platmgr/tools/afu_synth_setup.py:246 | a suffix of the input; every character removed is whitespace; the result does not start with whitespace |
| `Text.TrimEnd` | platforms/scripts/platmgr/tools/afu_synth_setup.py:246 | a prefix of the input; every character removed is whitespace; the result does not end with whitespace |
| `Text.Strip` | platforms/scripts/platmgr/tools/afu_synth_setup.py:246 | `strip()` gives a contiguous slice of the input such that everything before and after it is whitespace, and the slice neither starts nor ends with whitespace |
| `SynthSetup.UpdCmdEnv` | platforms/scripts/platmgr/tools/afu_synth_setup.py:116-126 | an absent key is set to the value; the old path is always kept as a prefix; it is unchanged when its last component is the value, and otherwise its components are followed by the value's; no other variable changes; afterwards the last component is the value's last component |
| `SynthSetup.UpdCmdEnvTwice` | platforms/scripts/platmgr/tools/afu_synth_setup.py:116-126 | applying the update twice equals applying it once exactly when the value has no ':' |
| `SynthSetup.EarlierEntryNotChecked` | platforms/scripts/platmgr/tools/afu_synth_setup.py:121-124 | only the last entry is compared: "a" is appended to "a:b" again |
| `SynthSetup.HwLibDirAsWritten` | platforms/scripts/platmgr/tools/afu_synth_setup.py:67-79 | the directory comes from `--lib`, then BBS_LIB_PATH, then OPAE_PLATFORM_ROOT, and the run fails exactly when none is given; `--lib` is returned verbatim and exported as BBS_LIB_PATH; BBS_LIB_PATH loses its trailing '/'; OPAE_PLATFORM_ROOT loses its trailing '/' and gets `hw/lib` joined on |
| `SynthSetup.RootSlashGivesRelativeDir` | platforms/scripts/platmgr/tools/afu_synth_setup.py:73-76 | OPAE_PLATFORM_ROOT="/" yields the relative directory "hw/lib" |
| `SynthSetup.TrimTrailingSlashes` | platforms/scripts/platmgr/tools/afu_synth_setup.py:72-75 | trailing '/' removed as by `rstrip('/')`, except that a path of only '/' stays "/", so an absolute path stays absolute |
| `SynthSetup.HwLibDir` | platforms/scripts/platmgr/tools/afu_synth_setup.py:67-79 | the same source precedence, failure and export as the source, and an absolute BBS_LIB_PATH or OPAE_PLATFORM_ROOT gives an absolute directory |
| `SynthSetup.HwLibDirAgrees` | platforms/scripts/platmgr/tools/afu_synth_setup.py:67-79 | the corrected selection equals the source's whenever the variable it reads is not made only of '/' |
| `SynthSetup.SelectAfuJson` | platforms/scripts/platmgr/tools/afu_synth_setup.py:246-254 | the stripped output is accepted exactly when it is non-empty and a single line, and the accepted name is exactly the stripped output; several lines fail with "more than one", an empty output fails with "none found"; the accepted name is non-empty, has no newline and no surrounding whitespace, and occurs in the output |

## Left out

- File and directory discovery and JSON parsing in `getAfuIfc` are I/O. So are `findPlatforms`, `findAfuIfcs`, `getSearchPath`, `getOfsPlatIfPath`, the `emitDebug*` helpers and argument parsing.
- Loading and canonicalizing the databases (`jsondb`) and emitting the configuration (`emitConfig`, `emitSimConfig`, `emitQsfConfig`) happen in modules that are not part of this model. Matching therefore takes canonical `Port` records with `min-entries` and `max-entries` always present.
- `copy_build_env`, the `commands_list*` subprocess calls, symlink creation, `components.ipx` writing and the `fme-platform-class.txt` existence check are filesystem and subprocess work. The output of `rtl_src_config` is a parameter of `SynthSetup.SelectAfuJson`, and the environment is a parameter of `SynthSetup.UpdCmdEnv` and `SynthSetup.HwLibDir`.
- binaries/fpgainfo/board.c and libraries/plugins/xfpga/sysfs_int.h are not part of this model. The first is plugin loading, locking and printing around foreign calls; the second has declarations only.
- Verbose printing and the wording of error messages are not modelled. Failures carry tags and the class and interface concerned.
- PortMatch.MatchAll: the checks at afu_platform_config.py:72-77 that `module-ports` and `module-ports-offered` are dictionaries are enforced by the types of the model, not by error results.
- IfcMerge.ApplyEntries: the merged table is an unordered map, so it does not record the dictionary order of `module-ports`. The source appends a new class after all existing classes (afu_platform_config.py:312), and an overridden class keeps its place (:335). That insertion order is the order in which `matchAfuPorts` later walks the ports (:91). `PortMatch.MatchAll` therefore takes the port order as an explicit sequence rather than deriving it from the merged table.
- IfcMerge.ApplyEntry: a `class` value that is not a JSON string fails with `ClassNotString`. The source would use such a value as a dictionary key, or raise `TypeError` for a list or object. Real descriptors always use strings, and the later compound key needs them.
- IfcMerge.ApplyEntry: the unauthorized-override failure names the class but not the offending field, because a JSON object is modelled as an unordered map. The source names the first such field in key order. Fields applied before that point are never observable, because the process exits.
- Entries.ResolveEntries: an explicit `max-entries` equal to `sys.maxsize`, or any count at or above it, is not distinguished from "no maximum". The model keeps the sentinel apart from real numbers.
- JSON floating-point numbers are not represented; the modelled logic never reads one.

## Findings

| source | as written | input that shows it | evidently intended | confidence | as-written member | corrected member |
|---|---|---|---|---|---|---|
| platforms/scripts/platmgr/tools/afu_synth_setup.py:72-76 | `rstrip('/')` turns a value made only of '/' into "", so joining gives the relative path `hw/lib` (and BBS_LIB_PATH="/" gives "") | OPAE_PLATFORM_ROOT="/" with no `--lib` and no BBS_LIB_PATH gives "hw/lib", resolved against the working directory instead of "/hw/lib" | the release root directory itself, so an absolute root gives an absolute hw/lib directory | low; not executed | `SynthSetup.HwLibDirAsWritten`, `SynthSetup.RootSlashGivesRelativeDir` | `SynthSetup.HwLibDir`, `SynthSetup.TrimTrailingSlashes` |
