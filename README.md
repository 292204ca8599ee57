# TriggerFS file-system rules, modelled in Dafny

TriggerFS watches directories and runs rules against the file-system events
the OS reports. A rule has three parts:

- a list of **trigger** event kinds, in the taxonomy of the `notify` crate;
- **conditions** on each affected file: its kind, its sniffed content type,
  its size and its name;
- one **action**: move the file into a directory, delete it, create a
  symlink, or run a shell command with `{}` replaced by the path.

This project models the `libs/fs` library that makes these decisions. The
library exists in two versions, and both are modelled, separately:

- `actions.rs` with `conditions.rs`: a rule's conditions are a flat list,
  and all of them must hold;
- `actions/mod.rs` with `actions/conditions.rs`: a rule carries one
  condition, or one `And`/`Or` group of conditions.

Modules, one per concern:

- `Paths` (paths.dfy): Rust's `Path` on Unix, seen through
  `components()`. It covers parsing a string, `file_name`, `join`,
  component-wise `starts_with`, `strip_prefix` and `to_string_lossy`.
- `Resolve` (resolve.dfy): `resolve_path`. The home directory and the
  working directory are inputs. The panics on a missing home or working
  directory become error results.
- `EventKinds` and `Matcher` (event_kinds.dfy, matcher.dfy): the `notify`
  kinds and `match_event_kind` with its eight helpers.
  - The matcher is proved equal to an independent reference semantics. Each
    kind is encoded as a label path (`Open` and `Close` share one label), and
    a configuration accepts an observed kind when the two paths are equal, or
    when the configuration ends in a wildcard and the rest of it is a prefix
    of the observed path.
  - Reflexivity, transitivity, antisymmetry, category separation and the
    one-sidedness of wildcards follow from that semantics.
- `CheckInputs` (check_inputs.dfy): `CheckArgs` and the foreign inputs.
  - The metadata fields are the ones that are read.
  - The `infer` categories appear as a datatype.
  - The `regex` crate is an oracle: whether a pattern compiles, and whether
    it matches a text.
- `Conditions` (conditions.rs) and `GroupedConditions`
  (actions/conditions.rs): the two condition evaluators, each with its own
  types, as in the source. A one-to-one translation between them is proved
  to preserve every leaf's verdict.
- `Effects` (effects.dfy): `move_file`, `remove_file`, `create_symlink` and
  `CustomAction::execute_command`, and the dispatch on the action type.
  - The file system and the shell are a `Host` oracle.
  - Every side effect is recorded in a log of `Effect` records: rename,
    remove, symlink and spawn.
- `Execution` (execution.dfy): the trigger gate and the per-path loop of
  `Action::execute`, written as an imperative method. It probes each path:
  - metadata, open, and one `read` into a zeroed 512-byte array;
  - content sniffing of the whole buffer;
  - the condition gate, then the action.

  The first error stops the loop. The method is proved equal to a recursive
  specification. Lemmas about that specification give:
  - the order in which effects are issued;
  - success exactly when no path fails;
  - abort at the first failure.
- `FlatActions` (flat_actions.dfy) and `Actions` (actions.dfy): the two
  `Action::execute` versions. The grouped version subsumes the flat one: a
  flat rule behaves exactly as its conditions wrapped in one `And` group.

Three behaviours of the code are modelled as written:

- The command template has every `{}` replaced, not only the first one:
  `str::replace` at libs/fs/src/actions/mod.rs:50.
- `create_symlink` creates the link at the configured path, pointing at the
  event's path (libs/fs/src/actions/mod.rs:145-157). It computes
  `src.join(file_name)` at line 155 and uses it only in the trace message
  at line 156.
- A move or a symlink on a path without a file name issues nothing and
  succeeds (libs/fs/src/actions/mod.rs:123-134 and 145-154).

## Model

| member | source | states |
|---|---|---|
| Paths.FileName | libs/fs/src/actions/mod.rs:126-134 | a file name exists exactly when the last component is a normal one, and it is that component |
| Paths.Join | libs/fs/src/actions/mod.rs:136 | an absolute argument replaces the base; otherwise the result keeps the base's root, starts with the base's components and continues with the argument's components less a leading `.` (when the base is rooted or non-empty), and a relative argument joined onto the empty path is itself; joining keeps the `components()` normal form |
| Paths.JoinIsTextual | libs/fs/src/lib.rs:27 | joining a relative path onto a non-empty one is the same as writing both out with a `/` between them and parsing that text, whenever their names are plain |
| Paths.StripTilde | libs/fs/src/lib.rs:17 | the stripped path is relative and `~` followed by it gives back the original components; normal form is kept |
| Paths.ParseWellFormed | libs/fs/src/lib.rs:11 | every parsed string is in the normal form of `components()` (`.` only in leading position of a relative path) |
| Paths.ParseStartsWithTilde | libs/fs/src/lib.rs:13 | `Path::new(s).starts_with("~")` holds exactly when `s` is `~` or begins with `~/` (the test is per component) |
| Paths.DisplayParses | libs/fs/src/actions/mod.rs:50 | rendering a path as text (`to_string_lossy`) and parsing it back gives the same path, whenever its names are plain |
| Resolve.TildeExpandsUnderHome | libs/fs/src/lib.rs:13-17 | `~` and `~/rest` resolve to the home directory's components followed by the rest, and the result is absolute |
| Resolve.TildeWithoutHomeFails | libs/fs/src/lib.rs:18-20 | a `~` path with no home directory is an error (the source panics) |
| Resolve.AbsoluteUnchanged | libs/fs/src/lib.rs:21-23 | an absolute path is returned as parsed, whatever the home and working directories |
| Resolve.RelativeJoinsWorkingDir | libs/fs/src/lib.rs:24-28 | any other path is joined onto the working directory, and is an error without one |
| Resolve.TildeUserIsRelative | libs/fs/src/lib.rs:13 | `~user/...` is not home-expanded; it resolves against the working directory |
| Resolve.ResolvedIsAbsolute | libs/fs/src/lib.rs:10-29 | with an absolute home and working directory, every successful result is absolute and in normal form |
| Matcher.MatchIsAccepts | libs/fs/src/actions.rs:160-261 | `match_event_kind(conf, given)` holds exactly when the reference semantics accepts `given`'s label path under `conf`'s |
| Matcher.AccessAgrees | libs/fs/src/actions.rs:171-183 | `match_access_kind` agrees with the reference semantics on every pair of access kinds |
| Matcher.ModeAgrees | libs/fs/src/actions.rs:185-191 | `match_access_mode` agrees with the reference semantics under the shared open/close label |
| Matcher.ModifyAgrees | libs/fs/src/actions.rs:205-250 | `match_modify_kind` and its three helpers agree with the reference semantics on every pair of modify kinds |
| Matcher.EncodeInjective | libs/fs/src/actions.rs:176-177 | two kinds have the same label path exactly when they are equal once `Close` is read as `Open` |
| Matcher.MatchReflexive | libs/fs/src/actions.rs:160-261 | every kind matches itself |
| Matcher.MatchTransitive | libs/fs/src/actions.rs:160-261 | if `a` accepts `b` and `b` accepts `c`, then `a` accepts `c` |
| Matcher.MatchAntisymmetric | libs/fs/src/actions.rs:160-261 | two kinds that accept each other are equal up to `Open`/`Close` |
| Matcher.AnyAcceptsEverything | libs/fs/src/actions.rs:162 | a configured top-level `Any` accepts every observed kind, `Other` and `Any` included |
| Matcher.CategoriesNeverCross | libs/fs/src/actions.rs:171-261 | an Access, Create, Modify or Remove configuration never accepts a kind of another category |
| Matcher.SubLevelAnyAcceptsItsParent | libs/fs/src/actions.rs:171-261 | each sub-level `Any` accepts exactly the observed kinds under its parent (access, open/close mode, create, modify, data, metadata, rename, remove) |
| Matcher.SpecificMatchesOnlyIdentical | libs/fs/src/actions.rs:160-261 | a configuration with no `Any` (so `Read` and the `Other`s too) accepts exactly the identical kind, up to `Open`/`Close` |
| Matcher.ObservedWildcardNeedsConfiguredWildcard | libs/fs/src/actions.rs:194-203 | an observed kind containing `Any` is accepted only by a configuration containing `Any` |
| Matcher.ObservedAnyOnlyByAny | libs/fs/src/actions.rs:162-168 | an observed `Any` is accepted by the configured `Any` alone; an observed `Create(Any)` only by `Any` and `Create(Any)` |
| Matcher.OpenCloseModes | libs/fs/src/actions.rs:185-191 | a configured `Open(m)` or `Close(m)` accepts an observed `Open(n)` or `Close(n)` exactly when `m` is `Any` or equals `n` |
| CheckInputs.BaseNameText | libs/fs/src/conditions.rs:53-57 | the text matched is the UTF-8 file name, or the empty string when there is none or it is not valid UTF-8 |
| Conditions.MatcherTypeRoundTrip | libs/fs/src/conditions.rs:115-130 | the category conversion has a two-sided inverse, mapping each of the ten variants to its namesake |
| Conditions.MatcherTypeInjective | libs/fs/src/conditions.rs:115-130 | the category conversion is one-to-one |
| Conditions.ToBytes | libs/fs/src/conditions.rs:140-148 | the result is the size times 1, 1024, 1024² or 1024³ by unit, when that product fits in a u64 |
| Conditions.ToBytesMonotone | libs/fs/src/conditions.rs:140-148 | converting is monotone in the size without overflow |
| Conditions.ToBytesLargerUnit | libs/fs/src/conditions.rs:143-146 | a size in one unit converts to the same bytes as 1024 times it in the next smaller unit |
| Conditions.IsSatisfied | libs/fs/src/conditions.rs:175-189 | each of the six operators is its relation between the file length and the exact threshold in bytes |
| Conditions.SizeOperatorsComplementary | libs/fs/src/conditions.rs:181-188 | `>` and `<=`, `>=` and `<`, `==` and `!=` hold on complementary sets of files |
| Conditions.SizeUnitScaling | libs/fs/src/conditions.rs:175-189 | stating a size in a larger unit gives the same verdict as 1024 times it in the smaller unit |
| Conditions.CheckFileType | libs/fs/src/conditions.rs:86-98 | false without a sniffed type under every operator; `Equal`/`NotEqual` compare the converted category; any other operator is false |
| Conditions.CheckEntity | libs/fs/src/conditions.rs:71-79 | `Directory` holds iff the metadata says directory, `Symlink` iff it says symlink, `File` iff its type check holds |
| Conditions.CheckNamePattern | libs/fs/src/conditions.rs:44-61 | an invalid pattern is false; a valid one is tried on the base name text |
| Conditions.CheckCondition | libs/fs/src/conditions.rs:30-37 | each variant is decided by exactly its own leaf check, the name pattern by the path alone |
| Conditions.FileTypeOperators | libs/fs/src/conditions.rs:86-98 | with a sniffed type `Equal` and `NotEqual` are complements; without one both are false |
| Conditions.LeafInputs | libs/fs/src/conditions.rs:30-37 | a leaf's verdict depends only on its own inputs: the base name, the length, or the flags and sniffed type |
| GroupedConditions.MatcherTypeInjective | libs/fs/src/actions/conditions.rs:153-168 | the grouped version's category conversion is one-to-one |
| GroupedConditions.ToBytes | libs/fs/src/actions/conditions.rs:181-190 | the result is the size times 1, 1024, 1024² or 1024³ by unit, when that product fits in a u64 |
| GroupedConditions.IsSatisfied | libs/fs/src/actions/conditions.rs:216-231 | each of the six operators is its relation between the file length and the exact threshold in bytes |
| GroupedConditions.CheckFileType | libs/fs/src/actions/conditions.rs:124-136 | false without a sniffed type; `Equal`/`NotEqual` compare the converted category; any other operator is false |
| GroupedConditions.CheckEntity | libs/fs/src/actions/conditions.rs:109-117 | `Directory` iff the directory flag, `Symlink` iff the symlink flag, `File` iff its type check |
| GroupedConditions.CheckNamePattern | libs/fs/src/actions/conditions.rs:82-98 | an invalid pattern is false; a valid one is tried on the base name text |
| GroupedConditions.CheckCondition | libs/fs/src/actions/conditions.rs:68-76 | each variant is decided by exactly its own leaf check |
| GroupedConditions.AnyHolds | libs/fs/src/actions/conditions.rs:53 | true exactly when some member condition holds |
| GroupedConditions.AllHold | libs/fs/src/actions/conditions.rs:54 | true exactly when every member condition holds |
| GroupedConditions.CheckGroup | libs/fs/src/actions/conditions.rs:50-57 | an `Or` group holds iff some member does, an `And` group iff all do; an empty group holds iff it is `And` |
| GroupedConditions.CheckTree | libs/fs/src/actions/conditions.rs:35-42 | a single condition evaluates as its own check, a group as the group's check |
| GroupedConditions.SingletonGroup | libs/fs/src/actions/conditions.rs:35-57 | a one-member group of either kind evaluates as its member |
| GroupedConditions.UnsniffedFileTypeInGroups | libs/fs/src/actions/conditions.rs:124-136 | without a sniffed type, adding a file-type leaf leaves an `Or` group unchanged and makes an `And` group fail |
| GroupedConditions.TranslationRoundTrip | libs/fs/src/actions/conditions.rs:59-66 | the translation between the two versions' condition types is one-to-one and onto |
| GroupedConditions.LeafChecksAgree | libs/fs/src/actions/conditions.rs:68-76 | a grouped-version leaf gives the same verdict as its leaf-only translation |
| GroupedConditions.FromLeafChecksAgree | libs/fs/src/conditions.rs:30-37 | a leaf-only condition gives the same verdict once translated to the grouped version |
| Effects.Issue | libs/fs/src/actions/mod.rs:138 | one effect is logged; the step fails exactly when the host rejects it, with the host's error |
| Effects.MoveFile | libs/fs/src/actions/mod.rs:123-139 | no file name: nothing, success; otherwise one rename of the source to a target in directory `dst` with the same file name |
| Effects.RemoveFilePath | libs/fs/src/actions/mod.rs:141-143 | exactly one removal of the path, failing iff the host rejects it |
| Effects.CreateSymlinkAt | libs/fs/src/actions/mod.rs:145-157 | no file name: nothing, success; otherwise exactly the link `symlink(src, dst)` |
| Effects.ExecuteCommand | libs/fs/src/actions/mod.rs:49-66 | exactly one spawn of the substituted command, failing only when the spawn itself fails |
| Effects.DispatchIssuesPlan | libs/fs/src/actions/mod.rs:100-115 | the action issues exactly its planned effect and fails exactly when the host rejects it |
| Effects.PlannedIsOneEffect | libs/fs/src/actions/mod.rs:100-115 | at most one effect, of the action's own kind; none only for a move or symlink without a file name; `force` changes nothing |
| Effects.ExitStatusIgnored | libs/fs/src/actions/mod.rs:57-65 | a spawned command's exit status never becomes an error |
| Effects.ReplaceSkipsPlain | libs/fs/src/actions/mod.rs:50 | text without `{}` passes through the substitution unchanged |
| Effects.ReplaceEveryPlaceholder | libs/fs/src/actions/mod.rs:50 | every `{}` of the template is replaced by the path text, not only the first |
| Execution.SniffWindow | libs/fs/src/actions/mod.rs:86-89 | the sniffed buffer is 512 bytes: what the read delivered, then zeros |
| Execution.FillBuffer | libs/fs/src/actions/mod.rs:86-87 | filling the zeroed 512-byte array from one read yields the sniffing window |
| Execution.ProbePath | libs/fs/src/actions/mod.rs:83-97 | metadata, open, read and sniff build the path's `CheckArgs`, or give the first I/O error |
| Execution.StepPath | libs/fs/src/actions/mod.rs:82-116 | one iteration: probe, then dispatch the action when the gate passes |
| Execution.RunPaths | libs/fs/src/actions/mod.rs:81-117 | the loop's status and effect log are those of the recursive specification over the paths in order |
| Execution.Triggered | libs/fs/src/actions/mod.rs:74-78 | a rule reacts exactly when some trigger matches the event kind |
| Execution.TriggeredByAcceptance | libs/fs/src/actions/mod.rs:74-78 | a rule reacts exactly when a trigger accepts the event's label path; listing the kind itself or `Any` always triggers |
| Execution.StepIsPlan | libs/fs/src/actions/mod.rs:82-116 | one iteration logs the path's plan and fails exactly when the path fails, with its error |
| Execution.RunSucceeds | libs/fs/src/actions/mod.rs:81-119 | the loop succeeds exactly when no path fails, and then logs every path's plan in path order |
| Execution.RunStopsAtFirstFailure | libs/fs/src/actions/mod.rs:83-113 | a failing loop reports its first failing path's error; it has logged only the plans up to and including that path |
| Execution.PathPlanShape | libs/fs/src/actions/mod.rs:98-115 | a path gets at most one effect, and one exactly when it is probed, passes the gate and the action has something to do |
| Execution.RunFromRespectsGate | libs/fs/src/actions/mod.rs:98 | the loop depends on the gate only through its verdicts |
| FlatActions.AllConditionsHold | libs/fs/src/actions.rs:99 | holds exactly when every listed condition holds; an empty list holds |
| FlatActions.Execute | libs/fs/src/actions.rs:72-120 | no matching trigger: success, no effect; otherwise the per-path loop gated by all conditions |
| FlatActions.PathActedOnIffConditionsHold | libs/fs/src/actions.rs:82-116 | a path is acted on exactly when it is probed, every condition holds on it, and the action has something to do |
| FlatActions.NoConditionsActsOnEveryPath | libs/fs/src/actions.rs:99 | with no conditions every probed path gets the action's plan |
| Actions.Execute | libs/fs/src/actions/mod.rs:71-120 | no matching trigger: success, no effect; otherwise the per-path loop gated by the condition tree |
| Actions.PathActedOnIffTreeHolds | libs/fs/src/actions/mod.rs:98-115 | a path is acted on exactly when it is probed, the condition tree holds on it, and the action has something to do |
| Actions.EmptyOrGroupNeverActs | libs/fs/src/actions/conditions.rs:53 | a rule whose conditions are an empty `Or` group issues no effect, and fails only where a path cannot be probed |
| LinuxHost.ProbedIsNeitherLinkNorDirectory | libs/fs/src/actions/mod.rs:83-87 | on a host whose `metadata` follows links and where reading a directory fails, every path that gets past the probe is neither a symlink nor a directory |
| Actions.EntityRuleNeverActsOnLinuxHost | libs/fs/src/actions/conditions.rs:109-117 | on such a host, a rule whose only condition is the `Symlink` or the `Directory` entity never acts on any path |
| Actions.FlatIsAndGroup | libs/fs/src/actions.rs:99 | a flat rule gates and runs exactly as its conditions wrapped in one `And` group of the grouped version |

## Left out

- The OS watcher, the actor framework, the executor's routing, daemon and
  signal handling, logging and tracing are not part of this model. No
  debounce or per-key dispatch exists in the library.
- The host (`tokio::fs`, `File::open`/`read`, rename, remove, symlink, the
  `sh -c` spawn) is an oracle `Host`. The model records which effects are
  issued and in what order, and nothing about what they do to the disk.
- The `Host` oracle is more permissive than the program in two ways, so
  the model reaches two entity branches the program never reaches:
  - `tokio::fs::metadata` (libs/fs/src/actions/mod.rs:83) follows links, so
    `is_symlink()` is always false and `FileSystemEntity::Symlink`
    (libs/fs/src/conditions.rs:71-79, libs/fs/src/actions/conditions.rs:109-117)
    never holds in the program. The oracle may report a link.
  - On Linux, `File::open` of a directory succeeds but `read` fails with
    `EISDIR` (libs/fs/src/actions/mod.rs:85-87), and `?` ends `execute`
    before `Directory` is tested. The oracle may let a directory be read.
  - The predicates `FollowsLinks` and `DirectoriesUnreadable` state the
    real behaviour; under them `EntityRuleNeverActsOnLinuxHost` shows that a
    `Symlink` or `Directory` rule never acts. Every other lemma holds for
    any host.
- The effect log is a model device. The source has no log, only the
  effects themselves.
- `infer::get` is the oracle `sniff` applied to the 512-byte window. The
  magic-byte tables of the `infer` crate are not modelled.
- `regex::Regex` is the oracle `Regex` (whether a pattern compiles, whether
  it matches a text). Regex syntax and semantics are not modelled.
- The bytes one `read` call delivers are whatever the host returns; only
  the first 512 of them reach the buffer, as in the source.
- Conditions.ToBytes: a product that overflows u64 (a panic in debug builds,
  a wrap in release builds) is excluded by the `NoOverflow` precondition,
  carried by every size condition through `ConditionValid`. The same holds
  for GroupedConditions.ToBytes.
- Paths: only the `components()` view is modelled. Trailing slashes, `//`
  and the exact bytes of non-UTF-8 names are not. `to_string_lossy` renders
  a name by its lossy text. `join` with an empty remainder (resolving `~`)
  yields the home directory; the trailing separator Rust adds is not
  modelled.
- Serde deserialisation of the rule configuration is not modelled. A rule
  is given as a value.
- Effects: both source versions declare identical `ActionType`, `move_file`,
  `remove_file`, `create_symlink` and `execute_command`; the model declares
  them once and both versions use them.
- Both versions call the same matcher. `actions/mod.rs` imports it from a
  `matcher` module that is not part of this model; the definition in
  `actions.rs` is used for both.
- The `async` execution and the concurrency it allows are not modelled.
  Paths are processed one at a time, as the loop awaits each step.
