/**
 * The per-path loop of `Action::execute`, common to both versions of the
 * library; the versions differ only in the gate a path's `CheckArgs` must
 * pass, which is a parameter here.
 *
 * For each path, in order: read the metadata, open the file, read up to
 * 512 bytes into a zeroed buffer, sniff the content type from the whole
 * buffer, build the `CheckArgs`, and when the gate passes perform the
 * action. The first error from any of these stops the loop.
 */
module Execution {
  import opened Wrappers
  import opened Paths
  import opened CheckInputs
  import opened Effects
  import opened EventKinds
  import opened Matcher

  /** A file-system event: its kind and the paths it concerns. */
  datatype Event = Event(kind: EventKind, paths: seq<Path>)

  /** `triggers.iter().any(...)`: some configured kind matches the event's kind. */
  function Triggered(triggers: seq<EventKind>, kind: EventKind): (r: bool)
    ensures r <==> exists i :: 0 <= i < |triggers| && MatchEventKind(triggers[i], kind)
  {
    if triggers == [] then false
    else MatchEventKind(triggers[0], kind) || Triggered(triggers[1..], kind)
  }

  /**
   * A rule reacts to an event exactly when one of its triggers accepts the
   * event's label path; in particular, listing the event's own kind, or
   * `Any`, always makes it react.
   */
  lemma TriggeredByAcceptance(triggers: seq<EventKind>, kind: EventKind)
    ensures Triggered(triggers, kind) <==> exists i :: 0 <= i < |triggers| && Accepts(Encode(triggers[i]), Encode(kind))
    ensures kind in triggers || EventKind.Any in triggers ==> Triggered(triggers, kind)
  {
    forall i | 0 <= i < |triggers|
      ensures MatchEventKind(triggers[i], kind) <==> Accepts(Encode(triggers[i]), Encode(kind))
    {
      MatchIsAccepts(triggers[i], kind);
    }
    if kind in triggers {
      var i :| 0 <= i < |triggers| && triggers[i] == kind;
      MatchReflexive(kind);
    }
  }

  /** The size of the sniffing buffer (`vec![0; 512]`). */
  const BufferSize: nat := 512

  /** What `infer::get` sees: the bytes one `read` delivered, then the buffer's zeros. */
  function SniffWindow(data: seq<bv8>): (w: seq<bv8>)
    ensures |w| == BufferSize
    ensures forall i :: 0 <= i < BufferSize ==> w[i] == if i < |data| then data[i] else 0
  {
    var k := if |data| < BufferSize then |data| else BufferSize;
    data[..k] + seq(BufferSize - k, _ => 0)
  }

  /** Building the `CheckArgs` of a path, or the first I/O error on the way. */
  function Probe(path: Path, host: Host): Result<CheckArgs, IoError> {
    match host.metadata(path)
    case Err(e) => Err(e)
    case Ok(metadata) =>
      match host.open(path)
      case Some(e) => Err(e)
      case None =>
        match host.read(path)
        case Err(e) => Err(e)
        case Ok(data) => Ok(CheckArgs(metadata, host.sniff(SniffWindow(data)), path))
  }

  /** One iteration of the loop, on one path. */
  function Step(passes: CheckArgs -> bool, actionType: ActionType, path: Path, host: Host): Issued {
    match Probe(path, host)
    case Err(e) => Issued(Failure(e), [])
    case Ok(args) => if passes(args) then Dispatch(actionType, path, host) else Issued(Success, [])
  }

  /** The loop from the `i`-th path on. */
  function RunFrom(passes: CheckArgs -> bool, actionType: ActionType, paths: seq<Path>, i: nat, host: Host): Issued
    requires i <= |paths|
    decreases |paths| - i
  {
    if i == |paths| then Issued(Success, [])
    else
      var step := Step(passes, actionType, paths[i], host);
      if step.status.Failure? then step
      else
        var rest := RunFrom(passes, actionType, paths, i + 1, host);
        Issued(rest.status, step.effects + rest.effects)
  }

  /** Fills the zeroed 512-byte buffer with what one `read` delivered. */
  method FillBuffer(data: seq<bv8>) returns (window: seq<bv8>)
    ensures window == SniffWindow(data)
  {
    var buffer := new bv8[BufferSize](_ => 0);
    var k := if |data| < BufferSize then |data| else BufferSize;
    forall j | 0 <= j < k {
      buffer[j] := data[j];
    }
    window := buffer[..];
  }

  /** The head of one iteration: metadata, open, read, sniff. */
  method ProbePath(path: Path, host: Host) returns (r: Result<CheckArgs, IoError>)
    ensures r == Probe(path, host)
  {
    var metadata := host.metadata(path);
    if metadata.Err? {
      return Err(metadata.error);
    }
    var openError := host.open(path);
    if openError.Some? {
      return Err(openError.value);
    }
    var read := host.read(path);
    if read.Err? {
      return Err(read.error);
    }
    var window := FillBuffer(read.value);
    r := Ok(CheckArgs(metadata.value, host.sniff(window), path));
  }

  /** One iteration: probe the path, and perform the action if the gate passes. */
  method StepPath(passes: CheckArgs -> bool, actionType: ActionType, path: Path, host: Host) returns (issued: Issued)
    ensures issued == Step(passes, actionType, path, host)
  {
    var probe := ProbePath(path, host);
    if probe.Err? {
      return Issued(Failure(probe.error), []);
    }
    if passes(probe.value) {
      issued := Dispatch(actionType, path, host);
    } else {
      issued := Issued(Success, []);
    }
  }

  /**
   * What one iteration does to the loop's account: `total` is the whole
   * run, `log` what the paths before `i` issued.
   */
  lemma RunFromStep(passes: CheckArgs -> bool, actionType: ActionType, paths: seq<Path>, i: nat, host: Host,
                    total: Issued, log: seq<Effect>)
    requires i < |paths|
    requires total.status == RunFrom(passes, actionType, paths, i, host).status
    requires total.effects == log + RunFrom(passes, actionType, paths, i, host).effects
    ensures var step := Step(passes, actionType, paths[i], host);
            step.status.Failure? ==> total == Issued(step.status, log + step.effects)
    ensures var step := Step(passes, actionType, paths[i], host);
            !step.status.Failure? ==>
              total.status == RunFrom(passes, actionType, paths, i + 1, host).status
              && total.effects == (log + step.effects) + RunFrom(passes, actionType, paths, i + 1, host).effects
  {
    var step := Step(passes, actionType, paths[i], host);
    var rest := RunFrom(passes, actionType, paths, i + 1, host);
    if !step.status.Failure? {
      assert log + (step.effects + rest.effects) == (log + step.effects) + rest.effects;
    }
  }

  /** The loop itself; the first error ends it. */
  method RunPaths(passes: CheckArgs -> bool, actionType: ActionType, paths: seq<Path>, host: Host)
    returns (status: Status, log: seq<Effect>)
    ensures Issued(status, log) == RunFrom(passes, actionType, paths, 0, host)
  {
    ghost var total := RunFrom(passes, actionType, paths, 0, host);
    log := [];
    var i := 0;
    while i < |paths|
      invariant 0 <= i <= |paths|
      invariant total.status == RunFrom(passes, actionType, paths, i, host).status
      invariant total.effects == log + RunFrom(passes, actionType, paths, i, host).effects
    {
      RunFromStep(passes, actionType, paths, i, host, total, log);
      var issued := StepPath(passes, actionType, paths[i], host);
      log := log + issued.effects;
      if issued.status.Failure? {
        return issued.status, log;
      }
      i := i + 1;
    }
    assert log + [] == log;
    status := Success;
  }

  // ---------------------------------------------------------------------
  // What the loop does, path by path
  // ---------------------------------------------------------------------

  /** The effect a path asks for: its action's, if it can be probed and passes the gate. */
  function PathPlan(passes: CheckArgs -> bool, actionType: ActionType, path: Path, host: Host): seq<Effect> {
    match Probe(path, host)
    case Err(_) => []
    case Ok(args) => if passes(args) then Planned(actionType, path) else []
  }

  /** Whether a path stops the loop: probing fails, or its effect is rejected. */
  predicate PathFails(passes: CheckArgs -> bool, actionType: ActionType, path: Path, host: Host) {
    Probe(path, host).Err?
    || (var plan := PathPlan(passes, actionType, path, host); plan != [] && host.perform(plan[0]).Err?)
  }

  /** The error a failing path reports. */
  function PathError(passes: CheckArgs -> bool, actionType: ActionType, path: Path, host: Host): IoError
    requires PathFails(passes, actionType, path, host)
  {
    if Probe(path, host).Err? then Probe(path, host).error
    else host.perform(PathPlan(passes, actionType, path, host)[0]).error
  }

  /** The plans of paths `i` up to (excluding) `j`, in order. */
  function PlanRange(passes: CheckArgs -> bool, actionType: ActionType, paths: seq<Path>, i: nat, j: nat, host: Host): seq<Effect>
    requires i <= j <= |paths|
    decreases j - i
  {
    if i == j then []
    else PathPlan(passes, actionType, paths[i], host) + PlanRange(passes, actionType, paths, i + 1, j, host)
  }

  lemma StepIsPlan(passes: CheckArgs -> bool, actionType: ActionType, path: Path, host: Host)
    ensures Step(passes, actionType, path, host).effects == PathPlan(passes, actionType, path, host)
    ensures Step(passes, actionType, path, host).status.Failure? <==> PathFails(passes, actionType, path, host)
    ensures PathFails(passes, actionType, path, host) ==>
              Step(passes, actionType, path, host).status.error == PathError(passes, actionType, path, host)
  {
    DispatchIssuesPlan(actionType, path, host);
  }

  /** One unfolding of the loop, in terms of the path's plan and failure. */
  lemma RunFromAt(passes: CheckArgs -> bool, actionType: ActionType, paths: seq<Path>, i: nat, host: Host)
    requires i < |paths|
    ensures PathFails(passes, actionType, paths[i], host) ==>
              RunFrom(passes, actionType, paths, i, host)
              == Issued(Failure(PathError(passes, actionType, paths[i], host)), PathPlan(passes, actionType, paths[i], host))
    ensures !PathFails(passes, actionType, paths[i], host) ==>
              RunFrom(passes, actionType, paths, i, host)
              == Issued(RunFrom(passes, actionType, paths, i + 1, host).status,
                        PathPlan(passes, actionType, paths[i], host) + RunFrom(passes, actionType, paths, i + 1, host).effects)
  {
    StepIsPlan(passes, actionType, paths[i], host);
  }

  /**
   * The loop succeeds exactly when no path fails, and then it has issued
   * every path's plan in path order.
   */
  lemma {:induction false} RunSucceeds(passes: CheckArgs -> bool, actionType: ActionType, paths: seq<Path>, i: nat, host: Host)
    requires i <= |paths|
    ensures RunFrom(passes, actionType, paths, i, host).status.Success?
            <==> forall j :: i <= j < |paths| ==> !PathFails(passes, actionType, paths[j], host)
    ensures RunFrom(passes, actionType, paths, i, host).status.Success? ==>
              RunFrom(passes, actionType, paths, i, host).effects == PlanRange(passes, actionType, paths, i, |paths|, host)
    decreases |paths| - i
  {
    if i < |paths| {
      RunFromAt(passes, actionType, paths, i, host);
      RunSucceeds(passes, actionType, paths, i + 1, host);
      if PathFails(passes, actionType, paths[i], host) {
        assert !RunFrom(passes, actionType, paths, i, host).status.Success?;
      } else {
        assert (forall j :: i <= j < |paths| ==> !PathFails(passes, actionType, paths[j], host))
            <==> (forall j :: i + 1 <= j < |paths| ==> !PathFails(passes, actionType, paths[j], host));
      }
    }
  }

  /**
   * A failing loop stopped at its first failing path: it reports that
   * path's error and has issued the plans of the paths before it and that
   * path's own (failed) effect, and nothing for any later path.
   */
  lemma {:induction false} RunStopsAtFirstFailure(passes: CheckArgs -> bool, actionType: ActionType, paths: seq<Path>, i: nat, host: Host)
    requires i <= |paths|
    requires RunFrom(passes, actionType, paths, i, host).status.Failure?
    ensures exists j :: i <= j < |paths|
              && PathFails(passes, actionType, paths[j], host)
              && (forall k :: i <= k < j ==> !PathFails(passes, actionType, paths[k], host))
              && RunFrom(passes, actionType, paths, i, host).status.error == PathError(passes, actionType, paths[j], host)
              && RunFrom(passes, actionType, paths, i, host).effects == PlanRange(passes, actionType, paths, i, j + 1, host)
    decreases |paths| - i
  {
    var path := paths[i];
    RunFromAt(passes, actionType, paths, i, host);
    var run := RunFrom(passes, actionType, paths, i, host);
    if PathFails(passes, actionType, path, host) {
      assert PlanRange(passes, actionType, paths, i + 1, i + 1, host) == [];
      assert PlanRange(passes, actionType, paths, i, i + 1, host) == PathPlan(passes, actionType, path, host);
      assert run.effects == PlanRange(passes, actionType, paths, i, i + 1, host);
      assert run.status.error == PathError(passes, actionType, paths[i], host);
    } else {
      RunStopsAtFirstFailure(passes, actionType, paths, i + 1, host);
      var rest := RunFrom(passes, actionType, paths, i + 1, host);
      var j :| i + 1 <= j < |paths|
              && PathFails(passes, actionType, paths[j], host)
              && (forall k :: i + 1 <= k < j ==> !PathFails(passes, actionType, paths[k], host))
              && rest.status.error == PathError(passes, actionType, paths[j], host)
              && rest.effects == PlanRange(passes, actionType, paths, i + 1, j + 1, host);
      assert forall k :: i <= k < j ==> !PathFails(passes, actionType, paths[k], host);
      assert run.status.error == PathError(passes, actionType, paths[j], host);
      assert run.effects == PlanRange(passes, actionType, paths, i, j + 1, host);
    }
  }

  /**
   * A path's plan is one effect exactly when the path is probed, passes the
   * gate, and its action has something to do with it; otherwise it is none.
   */
  lemma PathPlanShape(passes: CheckArgs -> bool, actionType: ActionType, path: Path, host: Host)
    ensures |PathPlan(passes, actionType, path, host)| <= 1
    ensures PathPlan(passes, actionType, path, host) != [] <==>
              Probe(path, host).Ok? && passes(Probe(path, host).value) && Planned(actionType, path) != []
  {
    PlannedIsOneEffect(actionType, path);
  }

  /** Two gates that agree on every input drive the loop identically. */
  lemma {:induction false} RunFromRespectsGate(p: CheckArgs -> bool, q: CheckArgs -> bool, actionType: ActionType, paths: seq<Path>, i: nat, host: Host)
    requires i <= |paths|
    requires forall args :: p(args) == q(args)
    ensures RunFrom(p, actionType, paths, i, host) == RunFrom(q, actionType, paths, i, host)
    decreases |paths| - i
  {
    if i < |paths| {
      RunFromRespectsGate(p, q, actionType, paths, i + 1, host);
    }
  }
}
