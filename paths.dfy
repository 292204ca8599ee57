/**
 * A model of Rust's `std::path::Path` on Unix, as far as the file-system
 * library uses it: parsing a `&str` into components, `file_name`, `join`,
 * component-wise `starts_with`, `strip_prefix` and `to_string_lossy`.
 *
 * A path is kept in the normal form that `Path::components` yields: a root
 * flag and the sequence of components, where `.` survives only as the first
 * component of a relative path and empty components do not exist.
 */
module Paths {
  import opened Wrappers

  /** An OS string: its lossy text and whether it is valid UTF-8 (`to_str` succeeds). */
  datatype Name = Name(text: string, utf8: bool)

  datatype Component = Normal(name: Name) | CurDir | ParentDir

  datatype Path = Path(absolute: bool, comps: seq<Component>)

  /** The normal form produced by `Path::components`. */
  predicate WellFormed(p: Path) {
    forall i :: 0 <= i < |p.comps| && p.comps[i] == CurDir ==> i == 0 && !p.absolute
  }

  /** A single relative component, as `Path::new(name)` for a plain file name. */
  function Leaf(n: Name): Path {
    Path(false, [Normal(n)])
  }

  /** `Path::file_name`: the last component when it is a normal one. */
  function FileName(p: Path): (r: Option<Name>)
    ensures r.Some? <==> |p.comps| > 0 && p.comps[|p.comps| - 1].Normal?
    ensures r.Some? ==> p.comps[|p.comps| - 1] == Normal(r.value)
  {
    if |p.comps| > 0 && p.comps[|p.comps| - 1].Normal? then Some(p.comps[|p.comps| - 1].name) else None
  }

  /** Everything but the last component (used to state where `join` puts a name). */
  function Dir(p: Path): Path
    requires |p.comps| > 0
  {
    Path(p.absolute, p.comps[..|p.comps| - 1])
  }

  /** `Path::join`: an absolute argument replaces the base; otherwise its components follow the base's. */
  function Join(base: Path, p: Path): (r: Path)
    ensures p.absolute ==> r == p
    ensures !p.absolute ==> r.absolute == base.absolute
    ensures !p.absolute ==> |r.comps| >= |base.comps| && r.comps[..|base.comps|] == base.comps
    ensures !p.absolute && (base.absolute || base.comps != []) ==> r.comps[|base.comps|..] == DropCurDir(p.comps)
    ensures !p.absolute && !base.absolute && base.comps == [] ==> r == p
    ensures WellFormed(base) && WellFormed(p) ==> WellFormed(r)
  {
    if p.absolute then p
    else if base.absolute || base.comps != [] then Path(base.absolute, base.comps + DropCurDir(p.comps))
    else Path(false, p.comps)
  }

  /** Interior `.` components disappear when a relative path is appended to a non-empty one. */
  function DropCurDir(cs: seq<Component>): seq<Component> {
    if |cs| > 0 && cs[0] == CurDir then cs[1..] else cs
  }

  /** The path `~` is made of one normal component; `Path::starts_with` compares components. */
  const Tilde: Component := Normal(Name("~", true))

  /** `path.starts_with("~")`. */
  predicate StartsWithTilde(p: Path) {
    !p.absolute && |p.comps| > 0 && p.comps[0] == Tilde
  }

  /** `path.strip_prefix("~").unwrap()`, defined where the prefix is present. */
  function StripTilde(p: Path): (r: Path)
    requires StartsWithTilde(p)
    ensures !r.absolute && [Tilde] + r.comps == p.comps
    ensures WellFormed(p) ==> WellFormed(r) && DropCurDir(r.comps) == r.comps
  {
    Path(false, p.comps[1..])
  }

  // ---------------------------------------------------------------------
  // Parsing a string (`Path::new`)
  // ---------------------------------------------------------------------

  /** The pieces of `s` between the separators `/`, empty pieces included. */
  function Split(s: string): (r: seq<string>)
    ensures |r| > 0
  {
    if |s| == 0 then [""]
    else
      var rest := Split(s[1..]);
      if s[0] == '/' then [""] + rest else [[s[0]] + rest[0]] + rest[1..]
  }

  /** The components one piece contributes: none when empty, `.` only in leading position. */
  function PieceComponents(piece: string, leading: bool): seq<Component> {
    if piece == "" then []
    else if piece == "." then (if leading then [CurDir] else [])
    else if piece == ".." then [ParentDir]
    else [Normal(Name(piece, true))]
  }

  /** Pieces to components; only empty pieces keep the leading position. */
  function ToComponents(pieces: seq<string>, leading: bool): seq<Component> {
    if pieces == [] then []
    else PieceComponents(pieces[0], leading) + ToComponents(pieces[1..], leading && pieces[0] == "")
  }

  /** `Path::new(s)` viewed through `components()`. */
  function Parse(s: string): Path {
    var absolute := |s| > 0 && s[0] == '/';
    Path(absolute, ToComponents(Split(s), !absolute))
  }

  /** The text of `s` up to (excluding) its first separator. */
  function FirstPiece(s: string): string {
    if |s| == 0 || s[0] == '/' then "" else [s[0]] + FirstPiece(s[1..])
  }

  lemma {:induction false} SplitHead(s: string)
    ensures Split(s)[0] == FirstPiece(s)
  {
    if |s| > 0 {
      SplitHead(s[1..]);
    }
  }

  lemma {:induction false} ToComponentsWellFormed(pieces: seq<string>, leading: bool)
    ensures forall i :: 0 <= i < |ToComponents(pieces, leading)| && ToComponents(pieces, leading)[i] == CurDir ==>
              i == 0 && leading
    decreases |pieces|
  {
    if pieces != [] {
      ToComponentsWellFormed(pieces[1..], leading);
      ToComponentsWellFormed(pieces[1..], false);
    }
  }

  /** Every parsed path is in the normal form of `components()`. */
  lemma ParseWellFormed(s: string)
    ensures WellFormed(Parse(s))
  {
    var absolute := |s| > 0 && s[0] == '/';
    ToComponentsWellFormed(Split(s), !absolute);
  }

  lemma FirstPieceTilde(s: string)
    ensures FirstPiece(s) == "~" <==> s == "~" || (|s| >= 2 && s[0] == '~' && s[1] == '/')
  {
    if |s| > 0 && s[0] != '/' {
      assert FirstPiece(s) == [s[0]] + FirstPiece(s[1..]);
      if |s| > 1 && s[1] != '/' {
        assert FirstPiece(s[1..]) == [s[1]] + FirstPiece(s[2..]);
        assert |FirstPiece(s)| >= 2;
      }
    }
  }

  /**
   * `Path::new(s).starts_with("~")` holds exactly when `s` is `~` or begins
   * with `~/`: the test is per component, so `~user/x` does not qualify.
   */
  lemma ParseStartsWithTilde(s: string)
    ensures StartsWithTilde(Parse(s)) <==> s == "~" || (|s| >= 2 && s[0] == '~' && s[1] == '/')
  {
    FirstPieceTilde(s);
    SplitHead(s);
    var pieces := Split(s);
    var absolute := |s| > 0 && s[0] == '/';
    if |s| > 0 && !absolute {
      assert pieces[0] == FirstPiece(s) && FirstPiece(s) != "" by {
        assert FirstPiece(s) == [s[0]] + FirstPiece(s[1..]);
      }
      var first := pieces[0];
      assert Parse(s).comps == ToComponents(pieces, true);
      if first == "." {
        assert Parse(s).comps[0] == CurDir;
      } else if first == ".." {
        assert Parse(s).comps[0] == ParentDir;
      } else {
        assert Parse(s).comps[0] == Normal(Name(first, true));
      }
    } else if |s| == 0 {
      assert Split(s) == [""];
      assert Parse(s).comps == [];
    }
  }

  // ---------------------------------------------------------------------
  // Rendering (`to_string_lossy`)
  // ---------------------------------------------------------------------

  function ComponentText(c: Component): string {
    match c
    case Normal(n) => n.text
    case CurDir => "."
    case ParentDir => ".."
  }

  function JoinComponents(cs: seq<Component>): string {
    if cs == [] then ""
    else if |cs| == 1 then ComponentText(cs[0])
    else ComponentText(cs[0]) + "/" + JoinComponents(cs[1..])
  }

  /** `path.to_string_lossy()` of a path in normal form. */
  function Display(p: Path): string {
    (if p.absolute then "/" else "") + JoinComponents(p.comps)
  }

  /** A component that renders and parses back as itself: a valid UTF-8, non-empty name that is not `.` or `..` and has no separator. */
  predicate Plain(c: Component) {
    c.Normal? ==> c.name.utf8 && c.name.text != "" && c.name.text != "." && c.name.text != ".." && '/' !in c.name.text
  }

  /** The rendered text of each component, in order. */
  function Texts(cs: seq<Component>): (r: seq<string>)
    ensures |r| == |cs|
    ensures forall i :: 0 <= i < |cs| ==> r[i] == ComponentText(cs[i])
  {
    if cs == [] then [] else [ComponentText(cs[0])] + Texts(cs[1..])
  }

  lemma {:induction false} SplitBeforeSeparator(t: string, rest: string)
    requires '/' !in t
    ensures Split(t + "/" + rest) == [t] + Split(rest)
    decreases |t|
  {
    var s := t + "/" + rest;
    if t == [] {
      assert s == "/" + rest;
      assert s[1..] == rest;
    } else {
      assert s[0] == t[0] && s[1..] == t[1..] + "/" + rest;
      SplitBeforeSeparator(t[1..], rest);
      assert [t[0]] + t[1..] == t;
    }
  }

  lemma {:induction false} SplitWithoutSeparator(t: string)
    requires '/' !in t
    ensures Split(t) == [t]
    decreases |t|
  {
    if t != [] {
      SplitWithoutSeparator(t[1..]);
      assert [t[0]] + t[1..] == t;
    }
  }

  lemma {:induction false} SplitJoinComponents(cs: seq<Component>)
    requires cs != []
    requires forall i :: 0 <= i < |cs| ==> Plain(cs[i])
    ensures Split(JoinComponents(cs)) == Texts(cs)
    decreases |cs|
  {
    var t := ComponentText(cs[0]);
    assert Plain(cs[0]);
    if |cs| == 1 {
      SplitWithoutSeparator(t);
    } else {
      SplitJoinComponents(cs[1..]);
      SplitBeforeSeparator(t, JoinComponents(cs[1..]));
    }
  }

  lemma {:induction false} ToComponentsOfTexts(cs: seq<Component>, leading: bool)
    requires forall i :: 0 <= i < |cs| ==> Plain(cs[i])
    requires forall i :: 0 <= i < |cs| && cs[i] == CurDir ==> i == 0 && leading
    ensures ToComponents(Texts(cs), leading) == cs
    decreases |cs|
  {
    if cs != [] {
      var texts := Texts(cs);
      assert texts[1..] == Texts(cs[1..]);
      assert Plain(cs[0]);
      ToComponentsOfTexts(cs[1..], false);
      match cs[0] {
        case Normal(n) => assert texts[0] == n.text;
        case CurDir =>
        case ParentDir =>
      }
    }
  }

  lemma DisplayParsesEmpty(absolute: bool)
    ensures Parse(Display(Path(absolute, []))) == Path(absolute, [])
  {
    var s := Display(Path(absolute, []));
    if absolute {
      assert s == "/" && s[1..] == "";
      assert Split(s) == ["", ""];
      assert ToComponents(["", ""], false) == ToComponents([""], false) == ToComponents([], false);
    } else {
      assert s == "" && Split(s) == [""];
      assert ToComponents([""], true) == ToComponents([], true);
    }
  }

  /** The rendering of a non-empty list starts with its first component's text, never with a separator. */
  lemma JoinComponentsHead(cs: seq<Component>)
    requires cs != [] && Plain(cs[0])
    ensures |JoinComponents(cs)| > 0 && JoinComponents(cs)[0] != '/'
  {
    var t := ComponentText(cs[0]);
    assert |t| > 0 && t[0] != '/' by {
      assert t[0] in t;
    }
    if |cs| == 1 {
      assert JoinComponents(cs) == t;
    } else {
      assert JoinComponents(cs) == t + ("/" + JoinComponents(cs[1..]));
    }
  }

  /** Splitting the rendering of a non-empty path gives its texts, after an empty piece when it is rooted. */
  lemma SplitDisplay(p: Path)
    requires p.comps != []
    requires forall i :: 0 <= i < |p.comps| ==> Plain(p.comps[i])
    ensures Split(Display(p)) == (if p.absolute then [""] else []) + Texts(p.comps)
    ensures (|Display(p)| > 0 && Display(p)[0] == '/') == p.absolute
  {
    var body := JoinComponents(p.comps);
    var s := Display(p);
    SplitJoinComponents(p.comps);
    JoinComponentsHead(p.comps);
    if p.absolute {
      assert s == "/" + body && s[1..] == body;
    } else {
      assert s == body;
    }
  }

  /** Rendering a path and parsing the text back gives the same path, when every name is plain. */
  lemma DisplayParses(p: Path)
    requires WellFormed(p)
    requires forall i :: 0 <= i < |p.comps| ==> Plain(p.comps[i])
    ensures Parse(Display(p)) == p
  {
    if p.comps == [] {
      DisplayParsesEmpty(p.absolute);
    } else {
      SplitDisplay(p);
      var texts := Texts(p.comps);
      ToComponentsOfTexts(p.comps, !p.absolute);
      if p.absolute {
        assert ([""] + texts)[0] == "" && ([""] + texts)[1..] == texts;
        assert ToComponents([""] + texts, false) == ToComponents(texts, false);
      } else {
        assert [] + texts == texts;
      }
      assert Parse(Display(p)).absolute == p.absolute;
    }
  }

  // ---------------------------------------------------------------------
  // `join` is textual concatenation with a separator
  // ---------------------------------------------------------------------

  /** `Split` of a text with one more character in front. */
  lemma SplitCons(c: char, t: string)
    ensures Split([c] + t) == if c == '/' then [""] + Split(t) else [[c] + Split(t)[0]] + Split(t)[1..]
  {
    assert ([c] + t)[0] == c && ([c] + t)[1..] == t;
  }

  lemma AppendAssociative(x: seq<string>, y: seq<string>, z: seq<string>)
    ensures x + (y + z) == (x + y) + z
  {
  }

  lemma {:induction false} SplitConcat(a: string, b: string)
    ensures Split(a + "/" + b) == Split(a) + Split(b)
    decreases |a|
  {
    if a == [] {
      assert a + "/" + b == ['/'] + b;
      SplitCons('/', b);
    } else {
      var c, t := a[0], a[1..];
      assert a == [c] + t;
      assert a + "/" + b == [c] + (t + "/" + b);
      SplitCons(c, t + "/" + b);
      SplitCons(c, t);
      SplitConcat(t, b);
      var r, q := Split(t), Split(b);
      if c == '/' {
        AppendAssociative([""], r, q);
      } else {
        var first := [[c] + r[0]];
        assert (r + q)[0] == r[0] && (r + q)[1..] == r[1..] + q;
        AppendAssociative(first, r[1..], q);
      }
    }
  }

  /** Once the leading position is past, pieces translate independently of what precedes them. */
  lemma {:induction false} ToComponentsAppend(xs: seq<string>, ys: seq<string>, leading: bool)
    requires !leading || ToComponents(xs, leading) != []
    ensures ToComponents(xs + ys, leading) == ToComponents(xs, leading) + ToComponents(ys, false)
    decreases |xs|
  {
    if xs != [] {
      var head, next := PieceComponents(xs[0], leading), leading && xs[0] == "";
      var zs := xs + ys;
      assert zs[0] == xs[0] && zs[1..] == xs[1..] + ys;
      assert ToComponents(zs, leading) == head + ToComponents(xs[1..] + ys, next);
      assert ToComponents(xs, leading) == head + ToComponents(xs[1..], next);
      assert next ==> head == [];
      ToComponentsAppend(xs[1..], ys, next);
      assert head + (ToComponents(xs[1..], next) + ToComponents(ys, false))
          == (head + ToComponents(xs[1..], next)) + ToComponents(ys, false);
    } else {
      assert xs + ys == ys;
    }
  }

  /** Past the leading position, a leading `.` is dropped. */
  lemma {:induction false} ToComponentsNotLeading(xs: seq<string>)
    ensures ToComponents(xs, false) == DropCurDir(ToComponents(xs, true))
    decreases |xs|
  {
    if xs != [] && xs[0] == "" {
      ToComponentsNotLeading(xs[1..]);
    }
  }

  /**
   * Joining a relative path onto a non-empty one is the same as writing the
   * two out, separated by `/`, and parsing the text.
   */
  lemma JoinIsTextual(base: Path, p: Path)
    requires WellFormed(base) && WellFormed(p) && !p.absolute && base.comps != []
    requires forall i :: 0 <= i < |base.comps| ==> Plain(base.comps[i])
    requires forall i :: 0 <= i < |p.comps| ==> Plain(p.comps[i])
    ensures Join(base, p) == Parse(Display(base) + "/" + Display(p))
  {
    var a, b := Display(base), Display(p);
    var s := a + "/" + b;
    DisplayParses(base);
    DisplayParses(p);
    SplitConcat(a, b);
    assert a != "";
    assert s[0] == a[0];
    assert ToComponents(Split(a), !base.absolute) == base.comps;
    assert ToComponents(Split(b), true) == p.comps;
    ToComponentsAppend(Split(a), Split(b), !base.absolute);
    ToComponentsNotLeading(Split(b));
  }
}
