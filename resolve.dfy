/**
 * `resolve_path` of the file-system library: expands a leading `~`
 * component to the home directory, keeps absolute paths, and anchors
 * everything else at the current working directory. The two lookups the
 * function makes (`dirs::home_dir` and `env::current_dir`) are parameters;
 * the panics it raises when either is unavailable are error results.
 */
module Resolve {
  import opened Wrappers
  import opened Paths

  datatype ResolveError = NoHomeDir | NoCurrentDir

  /** `resolve_path`, with the home directory and the working directory as inputs. */
  function ResolvePath(s: string, home: Option<Path>, cwd: Option<Path>): Result<Path, ResolveError> {
    var path := Parse(s);
    if StartsWithTilde(path) then
      if home.Some? then Ok(Join(home.value, StripTilde(path))) else Err(NoHomeDir)
    else if path.absolute then Ok(path)
    else if cwd.Some? then Ok(Join(cwd.value, path)) else Err(NoCurrentDir)
  }

  /** `~` and `~/rest` are expanded under the home directory: its components, then the rest. */
  lemma TildeExpandsUnderHome(s: string, home: Path, cwd: Option<Path>)
    requires s == "~" || (|s| >= 2 && s[0] == '~' && s[1] == '/')
    requires home.absolute
    ensures ResolvePath(s, Some(home), cwd).Ok?
    ensures var r := ResolvePath(s, Some(home), cwd).value;
            r.absolute && r.comps == home.comps + Parse(s).comps[1..]
  {
    ParseStartsWithTilde(s);
    ParseWellFormed(s);
  }

  /** A `~` path with no home directory is the one failure of the expansion branch. */
  lemma TildeWithoutHomeFails(s: string, cwd: Option<Path>)
    requires s == "~" || (|s| >= 2 && s[0] == '~' && s[1] == '/')
    ensures ResolvePath(s, None, cwd) == Err(NoHomeDir)
  {
    ParseStartsWithTilde(s);
  }

  /** Any other path, the empty one included, is joined onto the working directory, and fails without one. */
  lemma RelativeJoinsWorkingDir(s: string, home: Option<Path>, cwd: Option<Path>)
    requires !(s == "~" || (|s| >= 2 && s[0] == '~' && s[1] == '/'))
    requires !(|s| > 0 && s[0] == '/')
    ensures cwd.Some? ==> ResolvePath(s, home, cwd) == Ok(Join(cwd.value, Parse(s)))
    ensures cwd.None? ==> ResolvePath(s, home, cwd) == Err(NoCurrentDir)
  {
    ParseStartsWithTilde(s);
  }

  /** `~user/...` is not home-expanded: it is a relative path resolved against the working directory. */
  lemma TildeUserIsRelative(s: string, home: Option<Path>, cwd: Path)
    requires |s| >= 2 && s[0] == '~' && s[1] != '/'
    ensures ResolvePath(s, home, Some(cwd)) == Ok(Join(cwd, Parse(s)))
  {
    ParseStartsWithTilde(s);
  }

  /** An absolute path is returned unchanged and needs neither lookup. */
  lemma AbsoluteUnchanged(s: string, home: Option<Path>, cwd: Option<Path>)
    requires |s| > 0 && s[0] == '/'
    ensures ResolvePath(s, home, cwd) == Ok(Parse(s))
  {
    ParseStartsWithTilde(s);
  }

  /**
   * With an absolute home and working directory (as the OS provides them),
   * every successful resolution is absolute and in the normal form of
   * `components()`.
   */
  lemma ResolvedIsAbsolute(s: string, home: Option<Path>, cwd: Option<Path>)
    requires home.Some? ==> home.value.absolute && WellFormed(home.value)
    requires cwd.Some? ==> cwd.value.absolute && WellFormed(cwd.value)
    requires ResolvePath(s, home, cwd).Ok?
    ensures ResolvePath(s, home, cwd).value.absolute
    ensures WellFormed(ResolvePath(s, home, cwd).value)
  {
    var p := Parse(s);
    ParseWellFormed(s);
  }
}
