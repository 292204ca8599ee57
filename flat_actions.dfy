/**
 * The leaf-only rule of the file-system library: a list of triggers, a list
 * of leaf conditions that must all hold, and one action.
 */
module FlatActions {
  import opened Wrappers
  import opened Paths
  import opened CheckInputs
  import opened Conditions
  import opened Effects
  import opened EventKinds
  import opened Execution

  datatype Action = Action(triggers: seq<EventKind>, conditions: seq<Condition>, actionType: ActionType)

  predicate ActionValid(a: Action) {
    forall i :: 0 <= i < |a.conditions| ==> ConditionValid(a.conditions[i])
  }

  /** `conditions.iter().all(...)`: every leaf holds; an empty list holds. */
  function AllConditionsHold(cs: seq<Condition>, args: CheckArgs, re: Regex): (r: bool)
    requires forall i :: 0 <= i < |cs| ==> ConditionValid(cs[i])
    ensures r <==> forall i :: 0 <= i < |cs| ==> CheckCondition(cs[i], args, re)
  {
    if cs == [] then true
    else CheckCondition(cs[0], args, re) && AllConditionsHold(cs[1..], args, re)
  }

  /** The gate a path's arguments must pass before the action runs. */
  function Gate(a: Action, re: Regex): CheckArgs -> bool
    requires ActionValid(a)
  {
    args => AllConditionsHold(a.conditions, args, re)
  }

  /** `Action::execute`: nothing unless a trigger matches; then the per-path loop. */
  method Execute(a: Action, event: Event, re: Regex, host: Host) returns (status: Status, log: seq<Effect>)
    requires ActionValid(a)
    ensures !Triggered(a.triggers, event.kind) ==> status == Success && log == []
    ensures Triggered(a.triggers, event.kind) ==>
              Issued(status, log) == RunFrom(Gate(a, re), a.actionType, event.paths, 0, host)
  {
    if Triggered(a.triggers, event.kind) {
      status, log := RunPaths(Gate(a, re), a.actionType, event.paths, host);
    } else {
      status, log := Success, [];
    }
  }

  /**
   * On a triggered event, a path receives the action's effect exactly when
   * it can be probed, every condition holds on its arguments, and the
   * action has something to do with it.
   */
  lemma PathActedOnIffConditionsHold(a: Action, path: Path, re: Regex, host: Host)
    requires ActionValid(a)
    ensures PathPlan(Gate(a, re), a.actionType, path, host) != [] <==>
              Probe(path, host).Ok?
              && (forall i :: 0 <= i < |a.conditions| ==> CheckCondition(a.conditions[i], Probe(path, host).value, re))
              && Planned(a.actionType, path) != []
  {
    PathPlanShape(Gate(a, re), a.actionType, path, host);
  }

  /** With no conditions, every probed path is acted on. */
  lemma NoConditionsActsOnEveryPath(triggers: seq<EventKind>, actionType: ActionType, path: Path, re: Regex, host: Host)
    requires Probe(path, host).Ok?
    ensures PathPlan(Gate(Action(triggers, [], actionType), re), actionType, path, host) == Planned(actionType, path)
  {
  }
}
