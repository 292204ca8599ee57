/**
 * The side-effecting actions of the file-system library (`move_file`,
 * `remove_file`, `create_symlink`, `CustomAction::execute_command`), which
 * both versions of `Action::execute` share word for word.
 *
 * The operating system is an oracle (`Host`): the model records which
 * effect each action issues, and the host says how it went. An action
 * yields its status and the list of effects it issued (at most one).
 */
module Effects {
  import opened Wrappers
  import opened Paths
  import opened CheckInputs

  /** An `std::io::Error`, identified by its OS error code. */
  datatype IoError = IoError(code: int)

  /** One request to the operating system. `Symlink` creates `link` pointing at `original`. */
  datatype Effect =
    | Rename(source: Path, target: Path)
    | RemoveFile(path: Path)
    | Symlink(original: Path, link: Path)
    | Spawn(shellCommand: string)

  datatype Status = Success | Failure(error: IoError)

  /**
   * The environment: metadata lookup, opening and reading a file, content
   * sniffing (`infer::get`), and performing an effect; for `Spawn` the
   * successful result is the command's exit status.
   */
  datatype Host = Host(
    metadata: Path -> Result<Metadata, IoError>,
    open: Path -> Option<IoError>,
    read: Path -> Result<seq<bv8>, IoError>,
    sniff: seq<bv8> -> Option<MatcherType>,
    perform: Effect -> Result<int, IoError>)

  /** What a step did: how it ended and the effects it issued, in order. */
  datatype Issued = Issued(status: Status, effects: seq<Effect>)

  datatype ActionType =
    | MoveFile(destination: Path)
    | DeleteFile(force: bool)
    | CreateSymlink(to: Path)
    | Custom(command: string)

  /** Issue one effect; an OS error becomes the step's error, any exit status is a success. */
  function Issue(e: Effect, host: Host): (r: Issued)
    ensures r.effects == [e]
    ensures r.status.Failure? <==> host.perform(e).Err?
    ensures r.status.Failure? ==> r.status.error == host.perform(e).error
  {
    match host.perform(e)
    case Ok(_) => Issued(Success, [e])
    case Err(err) => Issued(Failure(err), [e])
  }

  /** `move_file`: rename `src` into the directory `dst` under its own file name; nothing without a file name. */
  function MoveFile(src: Path, dst: Path, host: Host): (r: Issued)
    ensures FileName(src).None? ==> r == Issued(Success, [])
    ensures FileName(src).Some? ==>
              |r.effects| == 1 && r.effects[0].Rename? && r.effects[0].source == src
              && FileName(r.effects[0].target) == FileName(src)
              && |r.effects[0].target.comps| > 0 && Dir(r.effects[0].target) == dst
              && (r.status.Failure? <==> host.perform(r.effects[0]).Err?)
  {
    match FileName(src)
    case None => Issued(Success, [])
    case Some(fileName) =>
      var dest := Join(dst, Leaf(fileName));
      assert dest.comps == dst.comps + [Normal(fileName)];
      Issue(Rename(src, dest), host)
  }

  /** `remove_file`. */
  function RemoveFilePath(path: Path, host: Host): (r: Issued)
    ensures r.effects == [RemoveFile(path)]
    ensures r.status.Failure? <==> host.perform(RemoveFile(path)).Err?
  {
    Issue(RemoveFile(path), host)
  }

  /** `create_symlink`: a link at `dst` pointing at `src`; nothing when `src` has no file name. */
  function CreateSymlinkAt(src: Path, dst: Path, host: Host): (r: Issued)
    ensures FileName(src).None? ==> r == Issued(Success, [])
    ensures FileName(src).Some? ==>
              r.effects == [Symlink(src, dst)]
              && (r.status.Failure? <==> host.perform(Symlink(src, dst)).Err?)
  {
    match FileName(src)
    case None => Issued(Success, [])
    case Some(_) => Issue(Symlink(src, dst), host)
  }

  /** `str::replace(template, "{}", text)`: every `{}`, scanned left to right, becomes `text`. */
  function ReplaceBraces(template: string, text: string): string {
    if |template| < 2 then template
    else if template[0] == '{' && template[1] == '}' then text + ReplaceBraces(template[2..], text)
    else [template[0]] + ReplaceBraces(template[1..], text)
  }

  /** `CustomAction::execute_command`: run the template with the path substituted; only a spawn failure is an error. */
  function ExecuteCommand(command: string, path: Path, host: Host): (r: Issued)
    ensures r.effects == [Spawn(ReplaceBraces(command, Display(path)))]
    ensures r.status.Failure? <==> host.perform(Spawn(ReplaceBraces(command, Display(path)))).Err?
  {
    Issue(Spawn(ReplaceBraces(command, Display(path))), host)
  }

  /** The `match` on the action type: exactly one of the four actions. */
  function Dispatch(actionType: ActionType, path: Path, host: Host): Issued {
    match actionType
    case MoveFile(destination) => MoveFile(path, destination, host)
    case DeleteFile(_) => RemoveFilePath(path, host)
    case CreateSymlink(to) => CreateSymlinkAt(path, to, host)
    case Custom(command) => ExecuteCommand(command, path, host)
  }

  /** The effect an action asks for on a path, whatever the host answers. */
  function Planned(actionType: ActionType, path: Path): seq<Effect> {
    match actionType
    case MoveFile(destination) =>
      if FileName(path).Some? then [Rename(path, Join(destination, Leaf(FileName(path).value)))] else []
    case DeleteFile(_) => [RemoveFile(path)]
    case CreateSymlink(to) => if FileName(path).Some? then [Symlink(path, to)] else []
    case Custom(command) => [Spawn(ReplaceBraces(command, Display(path)))]
  }

  /**
   * An action issues exactly its planned effect, and fails exactly when the
   * host rejects that effect; with nothing planned it succeeds.
   */
  lemma DispatchIssuesPlan(actionType: ActionType, path: Path, host: Host)
    ensures Dispatch(actionType, path, host).effects == Planned(actionType, path)
    ensures Planned(actionType, path) == [] ==> Dispatch(actionType, path, host).status == Success
    ensures Planned(actionType, path) != [] ==>
              (Dispatch(actionType, path, host).status.Failure? <==> host.perform(Planned(actionType, path)[0]).Err?)
  {
  }

  /**
   * Every action plans at most one effect, of its own kind; it plans none
   * only when a move or a symlink meets a path without a file name. The
   * `force` flag of a deletion makes no difference.
   */
  lemma PlannedIsOneEffect(actionType: ActionType, path: Path)
    ensures |Planned(actionType, path)| <= 1
    ensures Planned(actionType, path) == [] <==>
              (actionType.MoveFile? || actionType.CreateSymlink?) && FileName(path).None?
    ensures Planned(actionType, path) != [] ==>
              (actionType.MoveFile? <==> Planned(actionType, path)[0].Rename?)
              && (actionType.DeleteFile? <==> Planned(actionType, path)[0].RemoveFile?)
              && (actionType.CreateSymlink? <==> Planned(actionType, path)[0].Symlink?)
              && (actionType.Custom? <==> Planned(actionType, path)[0].Spawn?)
    ensures Planned(DeleteFile(true), path) == Planned(DeleteFile(false), path)
  {
  }

  /** A command's exit status never turns into an error. */
  lemma ExitStatusIgnored(command: string, path: Path, host: Host, status: int)
    requires host.perform(Spawn(ReplaceBraces(command, Display(path)))).Ok?
    ensures ExecuteCommand(command, path, host).status == Success
    ensures var other := host.(perform := (e: Effect) => if e.Spawn? then Ok(status) else host.perform(e));
            ExecuteCommand(command, path, other) == ExecuteCommand(command, path, host)
  {
  }

  // ---------------------------------------------------------------------
  // Substitution
  // ---------------------------------------------------------------------

  /** `s` has no `{}` in it. */
  predicate NoPlaceholder(s: string) {
    forall i :: 0 <= i < |s| - 1 ==> !(s[i] == '{' && s[i + 1] == '}')
  }

  /** `parts` joined with `sep` between neighbours. */
  function Intercalate(parts: seq<string>, sep: string): string
    requires |parts| > 0
  {
    if |parts| == 1 then parts[0] else parts[0] + sep + Intercalate(parts[1..], sep)
  }

  /** Text without a placeholder passes through, as long as it does not end in `{` before a `}`. */
  lemma {:induction false} ReplaceSkipsPlain(p: string, t: string, text: string)
    requires NoPlaceholder(p)
    requires |p| > 0 && p[|p| - 1] == '{' ==> !(|t| > 0 && t[0] == '}')
    ensures ReplaceBraces(p + t, text) == p + ReplaceBraces(t, text)
  {
    if |p| > 0 {
      var q := p[1..];
      assert p + t == [p[0]] + (q + t);
      assert NoPlaceholder(q) by {
        forall i | 0 <= i < |q| - 1 ensures !(q[i] == '{' && q[i + 1] == '}') {
          assert q[i] == p[i + 1] && q[i + 1] == p[i + 2];
        }
      }
      if |p + t| >= 2 {
        assert !((p + t)[0] == '{' && (p + t)[1] == '}') by {
          if |p| >= 2 {
            assert (p + t)[1] == p[1];
          } else {
            assert (p + t)[1] == t[0];
          }
        }
        assert (p + t)[1..] == q + t;
      }
      if |q| > 0 {
        assert q[|q| - 1] == p[|p| - 1];
      }
      ReplaceSkipsPlain(q, t, text);
      if |p + t| >= 2 {
        assert ReplaceBraces(p + t, text) == [p[0]] + ReplaceBraces(q + t, text);
      } else {
        assert t == [] && ReplaceBraces(t, text) == [];
      }
      assert p == [p[0]] + q;
    } else {
      assert p + t == t;
    }
  }

  /**
   * Replacement is complete: a template made of placeholder-free parts
   * separated by `{}` becomes those parts separated by the text, so every
   * placeholder is replaced and nothing else changes.
   */
  lemma {:induction false} ReplaceEveryPlaceholder(parts: seq<string>, text: string)
    requires |parts| > 0
    requires forall i :: 0 <= i < |parts| ==> NoPlaceholder(parts[i])
    ensures ReplaceBraces(Intercalate(parts, "{}"), text) == Intercalate(parts, text)
  {
    if |parts| == 1 {
      ReplaceSkipsPlain(parts[0], "", text);
      assert parts[0] + "" == parts[0];
    } else {
      var rest := Intercalate(parts[1..], "{}");
      assert Intercalate(parts, "{}") == parts[0] + ("{}" + rest);
      ReplaceSkipsPlain(parts[0], "{}" + rest, text);
      assert ("{}" + rest)[2..] == rest;
      ReplaceEveryPlaceholder(parts[1..], text);
    }
  }
}
