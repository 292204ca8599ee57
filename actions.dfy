/**
 * The grouped rule of the file-system library: a list of triggers, one
 * condition or one `And`/`Or` group of conditions, and one action.
 */
module Actions {
  import opened Wrappers
  import opened Paths
  import opened CheckInputs
  import opened GroupedConditions
  import opened Effects
  import opened EventKinds
  import opened Execution
  import opened LinuxHost
  import Leaf = Conditions
  import Flat = FlatActions

  datatype Action = Action(triggers: seq<EventKind>, conditions: ConditionOrConditionsGroup, actionType: ActionType)

  predicate ActionValid(a: Action) {
    TreeValid(a.conditions)
  }

  /** The gate a path's arguments must pass before the action runs. */
  function Gate(a: Action, re: Regex): CheckArgs -> bool
    requires ActionValid(a)
  {
    args => CheckTree(a.conditions, args, re)
  }

  /** `Action::execute`: nothing unless a trigger matches; then the per-path loop. */
  method Execute(a: Action, event: Event, re: Regex, host: Host) returns (status: Status, log: seq<Effect>)
    requires ActionValid(a)
    ensures !Triggered(a.triggers, event.kind) ==> status == Success && log == []
    ensures Triggered(a.triggers, event.kind) ==>
              Issued(status, log) == RunFrom(Gate(a, re), a.actionType, event.paths, 0, host)
  {
    if Triggered(a.triggers, event.kind) {
      status, log := RunPaths(Gate(a, re), a.actionType, event.paths, host);
    } else {
      status, log := Success, [];
    }
  }

  /**
   * On a triggered event, a path receives the action's effect exactly when
   * it can be probed, the condition tree holds on its arguments, and the
   * action has something to do with it.
   */
  lemma PathActedOnIffTreeHolds(a: Action, path: Path, re: Regex, host: Host)
    requires ActionValid(a)
    ensures PathPlan(Gate(a, re), a.actionType, path, host) != [] <==>
              Probe(path, host).Ok? && CheckTree(a.conditions, Probe(path, host).value, re)
              && Planned(a.actionType, path) != []
  {
    PathPlanShape(Gate(a, re), a.actionType, path, host);
  }

  /**
   * A rule whose conditions are an empty `Or` group never acts: whatever
   * the event, it issues no effect, and it fails only where a path cannot
   * be probed.
   */
  lemma {:induction false} EmptyOrGroupNeverActs(triggers: seq<EventKind>, actionType: ActionType, paths: seq<Path>, i: nat, re: Regex, host: Host)
    requires i <= |paths|
    ensures var a := Action(triggers, Group(ConditionsGroup(Or, [])), actionType);
            RunFrom(Gate(a, re), actionType, paths, i, host).effects == []
            && (RunFrom(Gate(a, re), actionType, paths, i, host).status.Success?
                <==> forall j :: i <= j < |paths| ==> Probe(paths[j], host).Ok?)
    decreases |paths| - i
  {
    if i < |paths| {
      EmptyOrGroupNeverActs(triggers, actionType, paths, i + 1, re, host);
    }
  }

  /**
   * On a host that follows links and cannot read directories, a rule whose
   * only condition is the `Symlink` or the `Directory` entity never acts.
   */
  lemma EntityRuleNeverActsOnLinuxHost(triggers: seq<EventKind>, entity: FileSystemEntity, actionType: ActionType, path: Path, re: Regex, host: Host)
    requires entity.Symlink? || entity.Directory?
    requires FollowsLinks(host) && DirectoriesUnreadable(host)
    ensures var a := Action(triggers, Single(Entity(entity)), actionType);
            PathPlan(Gate(a, re), actionType, path, host) == []
  {
    ProbedIsNeitherLinkNorDirectory(path, host);
  }

  /** The leaf-only configurations, written with this version's types. */
  function FromLeafAll(cs: seq<Leaf.Condition>): (r: seq<Condition>)
    ensures |r| == |cs|
    ensures forall i :: 0 <= i < |cs| ==> r[i] == FromLeaf(cs[i])
  {
    if cs == [] then [] else [FromLeaf(cs[0])] + FromLeafAll(cs[1..])
  }

  /** The grouped rule that the leaf-only rule `fa` amounts to: its conditions as one `And` group. */
  function AsGrouped(fa: Flat.Action): Action {
    Action(fa.triggers, Group(ConditionsGroup(And, FromLeafAll(fa.conditions))), fa.actionType)
  }

  /**
   * The grouped rule subsumes the leaf-only one: a leaf-only rule behaves
   * on every event exactly as its conditions wrapped in one `And` group.
   */
  lemma FlatIsAndGroup(fa: Flat.Action, event: Event, re: Regex, host: Host)
    requires Flat.ActionValid(fa)
    ensures ActionValid(AsGrouped(fa))
    ensures forall args :: Flat.Gate(fa, re)(args) == Gate(AsGrouped(fa), re)(args)
    ensures RunFrom(Flat.Gate(fa, re), fa.actionType, event.paths, 0, host)
            == RunFrom(Gate(AsGrouped(fa), re), fa.actionType, event.paths, 0, host)
  {
    var ga := AsGrouped(fa);
    var cs := FromLeafAll(fa.conditions);
    forall i | 0 <= i < |cs|
      ensures ConditionValid(cs[i])
    {
      FromLeafChecksAgree(fa.conditions[i], CheckArgs(CheckInputs.Metadata(0, false, false), None, Path(false, [])), re);
    }
    forall args
      ensures Flat.Gate(fa, re)(args) == Gate(ga, re)(args)
    {
      forall i | 0 <= i < |cs|
        ensures CheckCondition(cs[i], args, re) == Leaf.CheckCondition(fa.conditions[i], args, re)
      {
        FromLeafChecksAgree(fa.conditions[i], args, re);
      }
    }
    RunFromRespectsGate(Flat.Gate(fa, re), Gate(ga, re), fa.actionType, event.paths, 0, host);
  }
}
