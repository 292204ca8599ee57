/**
 * The trigger-kind matcher of the file-system library: does a configured
 * trigger kind accept an observed event kind? Each function mirrors one
 * `match_*` function of the source, configured kind first.
 *
 * Beside it stands an independent reference semantics: every kind is
 * encoded as the path of labels from the root of the taxonomy down to it,
 * with `Wild` for an `Any`; a configured path accepts an observed one when
 * they are equal, or when it ends in `Wild` and the rest is a prefix of the
 * observed path. The two are proved to coincide, and the listed properties
 * of the matcher (reflexive, transitive, categories never cross, wildcards
 * count only on the configured side) follow.
 */
module Matcher {
  import opened EventKinds

  function MatchEventKind(conf: EventKind, given: EventKind): bool {
    match conf
    case Any => true
    case Access(accessKind) => MatchAccessKind(accessKind, given)
    case Create(createKind) => MatchCreateKind(createKind, given)
    case Modify(modifyKind) => MatchModifyKind(modifyKind, given)
    case Remove(removeKind) => MatchRemoveKind(removeKind, given)
    case Other => conf == given
  }

  function MatchAccessKind(conf: AccessKind, given: EventKind): bool {
    if given.Access? then
      match conf
      case Any => true
      case Read => given.access.Read?
      case Open(mode) => MatchAccessMode(mode, given.access)
      case Close(mode) => MatchAccessMode(mode, given.access)
      case Other => conf == given.access
    else false
  }

  /** An `Open` or `Close` configuration looks at the mode only, of an observed `Open` or `Close` alike. */
  function MatchAccessMode(conf: AccessMode, given: AccessKind): bool {
    match given
    case Open(mode) => conf == AccessMode.Any || mode == conf
    case Close(mode) => conf == AccessMode.Any || mode == conf
    case _ => false
  }

  function MatchCreateKind(conf: CreateKind, given: EventKind): bool {
    if given.Create? then
      match conf
      case Any => true
      case _ => conf == given.cre
    else false
  }

  function MatchModifyKind(conf: ModifyKind, given: EventKind): bool {
    if given.Modify? then
      match conf
      case Any => true
      case Data(change) => MatchDataChange(change, given.mod)
      case Metadata(kind) => MatchMetadataKind(kind, given.mod)
      case Name(mode) => MatchRenameMode(mode, given.mod)
      case Other => conf == given.mod
    else false
  }

  function MatchDataChange(conf: DataChange, given: ModifyKind): bool {
    if given.Data? then
      match conf
      case Any => true
      case _ => conf == given.change
    else false
  }

  function MatchMetadataKind(conf: MetadataKind, given: ModifyKind): bool {
    if given.Metadata? then
      match conf
      case Any => true
      case _ => conf == given.kind
    else false
  }

  function MatchRenameMode(conf: RenameMode, given: ModifyKind): bool {
    if given.Name? then
      match conf
      case Any => true
      case _ => conf == given.mode
    else false
  }

  function MatchRemoveKind(conf: RemoveKind, given: EventKind): bool {
    if given.Remove? then
      match conf
      case Any => true
      case _ => conf == given.rem
    else false
  }

  // ---------------------------------------------------------------------
  // Reference semantics: label paths with a trailing wildcard
  // ---------------------------------------------------------------------

  datatype Token = Wild | Label(name: string)

  function EncodeMode(m: AccessMode): seq<Token> {
    match m
    case Any => [Wild]
    case Execute => [Label("execute")]
    case Read => [Label("read")]
    case Write => [Label("write")]
    case Other => [Label("other")]
  }

  /** `Open` and `Close` share one label: the matcher treats them alike. */
  function EncodeAccess(a: AccessKind): seq<Token> {
    match a
    case Any => [Wild]
    case Read => [Label("read")]
    case Open(m) => [Label("open-close")] + EncodeMode(m)
    case Close(m) => [Label("open-close")] + EncodeMode(m)
    case Other => [Label("other")]
  }

  function EncodeCreate(c: CreateKind): seq<Token> {
    match c
    case Any => [Wild]
    case File => [Label("file")]
    case Folder => [Label("folder")]
    case Other => [Label("other")]
  }

  function EncodeData(d: DataChange): seq<Token> {
    match d
    case Any => [Wild]
    case Size => [Label("size")]
    case Content => [Label("content")]
    case Other => [Label("other")]
  }

  function EncodeMetadata(m: MetadataKind): seq<Token> {
    match m
    case Any => [Wild]
    case AccessTime => [Label("access-time")]
    case WriteTime => [Label("write-time")]
    case Permissions => [Label("permissions")]
    case Ownership => [Label("ownership")]
    case Extended => [Label("extended")]
    case Other => [Label("other")]
  }

  function EncodeRename(r: RenameMode): seq<Token> {
    match r
    case Any => [Wild]
    case To => [Label("to")]
    case From => [Label("from")]
    case Both => [Label("both")]
    case Other => [Label("other")]
  }

  function EncodeModify(m: ModifyKind): seq<Token> {
    match m
    case Any => [Wild]
    case Data(d) => [Label("data")] + EncodeData(d)
    case Metadata(k) => [Label("metadata")] + EncodeMetadata(k)
    case Name(r) => [Label("name")] + EncodeRename(r)
    case Other => [Label("other")]
  }

  function EncodeRemove(r: RemoveKind): seq<Token> {
    match r
    case Any => [Wild]
    case File => [Label("file")]
    case Folder => [Label("folder")]
    case Other => [Label("other")]
  }

  /** The path of labels from the root of the taxonomy to `k`. */
  function Encode(k: EventKind): (p: seq<Token>)
    ensures 1 <= |p| <= 4
  {
    match k
    case Any => [Wild]
    case Access(a) => [Label("access")] + EncodeAccess(a)
    case Create(c) => [Label("create")] + EncodeCreate(c)
    case Modify(m) => [Label("modify")] + EncodeModify(m)
    case Remove(r) => [Label("remove")] + EncodeRemove(r)
    case Other => [Label("other")]
  }

  /** A wildcard may stand only at the end of a path. */
  predicate WildOnlyLast(p: seq<Token>) {
    forall i :: 0 <= i < |p| - 1 ==> p[i] != Wild
  }

  /** The reference acceptance: equal paths, or a configured wildcard over a prefix. */
  predicate Accepts(conf: seq<Token>, given: seq<Token>) {
    conf == given || (|conf| > 0 && conf[|conf| - 1] == Wild && conf[..|conf| - 1] <= given)
  }

  lemma EncodeWildOnlyLast(k: EventKind)
    ensures WildOnlyLast(Encode(k))
  {
  }

  /** The matcher agrees with the reference semantics on every pair of kinds. */
  lemma MatchIsAccepts(conf: EventKind, given: EventKind)
    ensures MatchEventKind(conf, given) <==> Accepts(Encode(conf), Encode(given))
  {
    match conf
    case Any =>
    case Other =>
      var q := Encode(given);
      assert q[0] == Label("other") <==> given.Other?;
    case Access(a) => AccessCategoryAgrees(a, given);
    case Create(c) => CreateCategoryAgrees(c, given);
    case Modify(m) => ModifyCategoryAgrees(m, given);
    case Remove(r) => RemoveCategoryAgrees(r, given);
  }

  lemma AccessCategoryAgrees(a: AccessKind, given: EventKind)
    ensures MatchEventKind(EventKind.Access(a), given) <==> Accepts(Encode(EventKind.Access(a)), Encode(given))
  {
    if given.Access? {
      AccessAgrees(a, given.access);
      AcceptsUnderLabel(Label("access"), EncodeAccess(a), EncodeAccess(given.access));
    } else {
      HeadMismatch(Label("access"), EncodeAccess(a), Encode(given));
    }
  }

  lemma CreateCategoryAgrees(c: CreateKind, given: EventKind)
    ensures MatchEventKind(EventKind.Create(c), given) <==> Accepts(Encode(EventKind.Create(c)), Encode(given))
  {
    if given.Create? {
      AcceptsUnderLabel(Label("create"), EncodeCreate(c), EncodeCreate(given.cre));
      assert |EncodeCreate(c)| == 1 && |EncodeCreate(given.cre)| == 1;
    } else {
      HeadMismatch(Label("create"), EncodeCreate(c), Encode(given));
    }
  }

  lemma ModifyCategoryAgrees(m: ModifyKind, given: EventKind)
    ensures MatchEventKind(EventKind.Modify(m), given) <==> Accepts(Encode(EventKind.Modify(m)), Encode(given))
  {
    if given.Modify? {
      ModifyAgrees(m, given.mod);
      AcceptsUnderLabel(Label("modify"), EncodeModify(m), EncodeModify(given.mod));
    } else {
      HeadMismatch(Label("modify"), EncodeModify(m), Encode(given));
    }
  }

  lemma RemoveCategoryAgrees(r: RemoveKind, given: EventKind)
    ensures MatchEventKind(EventKind.Remove(r), given) <==> Accepts(Encode(EventKind.Remove(r)), Encode(given))
  {
    if given.Remove? {
      AcceptsUnderLabel(Label("remove"), EncodeRemove(r), EncodeRemove(given.rem));
      assert |EncodeRemove(r)| == 1 && |EncodeRemove(given.rem)| == 1;
    } else {
      HeadMismatch(Label("remove"), EncodeRemove(r), Encode(given));
    }
  }

  /** Accepts under a common head label reduces to acceptance of the tails. */
  lemma AcceptsUnderLabel(l: Token, e: seq<Token>, f: seq<Token>)
    requires l != Wild && |e| > 0
    ensures Accepts([l] + e, [l] + f) <==> Accepts(e, f)
  {
    var p, q := [l] + e, [l] + f;
    var e' := e[..|e| - 1];
    assert p[1..] == e && q[1..] == f;
    assert p[|p| - 1] == e[|e| - 1];
    assert p[..|p| - 1] == [l] + e';
    if e' <= f {
      assert |[l] + e'| <= |q|;
      assert forall i :: 0 <= i < |[l] + e'| ==> ([l] + e')[i] == q[i];
    }
    if p[..|p| - 1] <= q {
      assert |e'| <= |f|;
      assert forall i :: 0 <= i < |e'| ==> e'[i] == p[i + 1] == q[i + 1] == f[i];
    }
  }

  lemma AccessAgrees(a: AccessKind, g: AccessKind)
    ensures MatchAccessKind(a, EventKind.Access(g)) <==> Accepts(EncodeAccess(a), EncodeAccess(g))
  {
    match a
    case Open(m) => ModeAgrees(m, g);
    case Close(m) => ModeAgrees(m, g);
    case _ =>
  }

  lemma ModeAgrees(m: AccessMode, g: AccessKind)
    ensures MatchAccessMode(m, g) <==> Accepts([Label("open-close")] + EncodeMode(m), EncodeAccess(g))
  {
    if g.Open? || g.Close? {
      assert EncodeAccess(g) == [Label("open-close")] + EncodeMode(g.mode);
      AcceptsUnderLabel(Label("open-close"), EncodeMode(m), EncodeMode(g.mode));
    }
  }

  /** A labelled configuration never accepts a path with a different head. */
  lemma HeadMismatch(l: Token, e: seq<Token>, q: seq<Token>)
    requires l != Wild && |e| > 0 && |q| > 0 && q[0] != l
    ensures !Accepts([l] + e, q)
  {
    var p := [l] + e;
    assert p[0] == l && p[..|p| - 1][0] == l;
  }

  lemma DataAgrees(d: DataChange, g: ModifyKind)
    ensures MatchModifyKind(ModifyKind.Data(d), EventKind.Modify(g))
            <==> Accepts(EncodeModify(ModifyKind.Data(d)), EncodeModify(g))
  {
    if g.Data? {
      AcceptsUnderLabel(Label("data"), EncodeData(d), EncodeData(g.change));
    } else {
      HeadMismatch(Label("data"), EncodeData(d), EncodeModify(g));
    }
  }

  lemma MetadataAgrees(k: MetadataKind, g: ModifyKind)
    ensures MatchModifyKind(ModifyKind.Metadata(k), EventKind.Modify(g))
            <==> Accepts(EncodeModify(ModifyKind.Metadata(k)), EncodeModify(g))
  {
    if g.Metadata? {
      AcceptsUnderLabel(Label("metadata"), EncodeMetadata(k), EncodeMetadata(g.kind));
    } else {
      HeadMismatch(Label("metadata"), EncodeMetadata(k), EncodeModify(g));
    }
  }

  lemma RenameAgrees(r: RenameMode, g: ModifyKind)
    ensures MatchModifyKind(ModifyKind.Name(r), EventKind.Modify(g))
            <==> Accepts(EncodeModify(ModifyKind.Name(r)), EncodeModify(g))
  {
    if g.Name? {
      AcceptsUnderLabel(Label("name"), EncodeRename(r), EncodeRename(g.mode));
    } else {
      HeadMismatch(Label("name"), EncodeRename(r), EncodeModify(g));
    }
  }

  lemma ModifyAgrees(m: ModifyKind, g: ModifyKind)
    ensures MatchModifyKind(m, EventKind.Modify(g)) <==> Accepts(EncodeModify(m), EncodeModify(g))
  {
    match m
    case Data(d) => DataAgrees(d, g);
    case Metadata(k) => MetadataAgrees(k, g);
    case Name(r) => RenameAgrees(r, g);
    case _ =>
  }

  // ---------------------------------------------------------------------
  // Properties of the reference semantics
  // ---------------------------------------------------------------------

  lemma AcceptsTransitive(p: seq<Token>, q: seq<Token>, r: seq<Token>)
    requires WildOnlyLast(p)
    requires Accepts(p, q) && Accepts(q, r)
    ensures Accepts(p, r)
  {
    if p != q && q != r && |p| <= |q| {
      var n, m := |p| - 1, |q| - 1;
      assert p[..n] == q[..n] && q[..m] == r[..m];
      assert p[..n] == r[..n];
    }
  }

  lemma AcceptsAntisymmetric(p: seq<Token>, q: seq<Token>)
    requires WildOnlyLast(p) && WildOnlyLast(q)
    requires Accepts(p, q) && Accepts(q, p)
    ensures p == q
  {
  }

  /** Paths of kinds are equal exactly when the kinds are, up to `Open`/`Close`. */
  lemma EncodeAccessInjective(x: AccessKind, y: AccessKind)
    requires EncodeAccess(x) == EncodeAccess(y)
    ensures OpenCloseBlind(EventKind.Access(x)) == OpenCloseBlind(EventKind.Access(y))
  {
    var e, f := EncodeAccess(x), EncodeAccess(y);
    assert e[0] == f[0];
    if x.Open? || x.Close? {
      assert e[1..] == EncodeMode(x.mode) && f[1..] == EncodeMode(y.mode);
    }
  }

  lemma EncodeModifyInjective(x: ModifyKind, y: ModifyKind)
    requires EncodeModify(x) == EncodeModify(y)
    ensures x == y
  {
    var e, f := EncodeModify(x), EncodeModify(y);
    assert e[0] == f[0];
    match x {
      case Data(d) => assert e[1..] == EncodeData(d) && f[1..] == EncodeData(y.change);
      case Metadata(k) => assert e[1..] == EncodeMetadata(k) && f[1..] == EncodeMetadata(y.kind);
      case Name(r) => assert e[1..] == EncodeRename(r) && f[1..] == EncodeRename(y.mode);
      case _ =>
    }
  }

  lemma EncodeInjective(a: EventKind, b: EventKind)
    ensures Encode(a) == Encode(b) <==> OpenCloseBlind(a) == OpenCloseBlind(b)
  {
    var p, q := Encode(a), Encode(b);
    if p == q {
      assert p[0] == q[0];
      match a
      case Access(x) =>
        assert b.Access? && p[1..] == EncodeAccess(x) && q[1..] == EncodeAccess(b.access);
        EncodeAccessInjective(x, b.access);
      case Create(x) =>
        assert b.Create? && p[1..] == EncodeCreate(x) && q[1..] == EncodeCreate(b.cre);
      case Modify(x) =>
        assert b.Modify? && p[1..] == EncodeModify(x) && q[1..] == EncodeModify(b.mod);
        EncodeModifyInjective(x, b.mod);
      case Remove(x) =>
        assert b.Remove? && p[1..] == EncodeRemove(x) && q[1..] == EncodeRemove(b.rem);
      case _ =>
    }
  }

  lemma SpecificHasNoWild(k: EventKind)
    requires Specific(k)
    ensures Wild !in Encode(k)
  {
  }

  // ---------------------------------------------------------------------
  // Properties of the matcher
  // ---------------------------------------------------------------------

  /** Every kind matches itself. */
  lemma MatchReflexive(k: EventKind)
    ensures MatchEventKind(k, k)
  {
    MatchIsAccepts(k, k);
  }

  /** A configuration accepts everything that a kind it accepts accepts. */
  lemma MatchTransitive(a: EventKind, b: EventKind, c: EventKind)
    requires MatchEventKind(a, b) && MatchEventKind(b, c)
    ensures MatchEventKind(a, c)
  {
    MatchIsAccepts(a, b);
    MatchIsAccepts(b, c);
    MatchIsAccepts(a, c);
    EncodeWildOnlyLast(a);
    AcceptsTransitive(Encode(a), Encode(b), Encode(c));
  }

  /** Two kinds that accept each other are the same kind, up to `Open`/`Close`. */
  lemma MatchAntisymmetric(a: EventKind, b: EventKind)
    requires MatchEventKind(a, b) && MatchEventKind(b, a)
    ensures OpenCloseBlind(a) == OpenCloseBlind(b)
  {
    MatchIsAccepts(a, b);
    MatchIsAccepts(b, a);
    EncodeWildOnlyLast(a);
    EncodeWildOnlyLast(b);
    AcceptsAntisymmetric(Encode(a), Encode(b));
    EncodeInjective(a, b);
  }

  /** A configured top-level `Any` accepts every observed kind, `Other` and `Any` included. */
  lemma AnyAcceptsEverything(given: EventKind)
    ensures MatchEventKind(EventKind.Any, given)
  {
  }

  /** A configuration in Access, Create, Modify or Remove never accepts a kind of another category. */
  lemma CategoriesNeverCross(conf: EventKind, given: EventKind)
    requires 1 <= Category(conf) <= 4
    ensures MatchEventKind(conf, given) ==> Category(conf) == Category(given)
  {
  }

  /** An `Any` below the top accepts exactly the observed kinds under the same parent. */
  lemma SubLevelAnyAcceptsItsParent(given: EventKind)
    ensures MatchEventKind(EventKind.Access(AccessKind.Any), given) <==> given.Access?
    ensures MatchEventKind(EventKind.Create(CreateKind.Any), given) <==> given.Create?
    ensures MatchEventKind(EventKind.Modify(ModifyKind.Any), given) <==> given.Modify?
    ensures MatchEventKind(EventKind.Remove(RemoveKind.Any), given) <==> given.Remove?
    ensures MatchEventKind(EventKind.Modify(ModifyKind.Data(DataChange.Any)), given)
            <==> given.Modify? && given.mod.Data?
    ensures MatchEventKind(EventKind.Modify(ModifyKind.Metadata(MetadataKind.Any)), given)
            <==> given.Modify? && given.mod.Metadata?
    ensures MatchEventKind(EventKind.Modify(ModifyKind.Name(RenameMode.Any)), given)
            <==> given.Modify? && given.mod.Name?
    ensures MatchEventKind(EventKind.Access(AccessKind.Open(AccessMode.Any)), given)
            <==> given.Access? && (given.access.Open? || given.access.Close?)
  {
  }

  /**
   * A configuration without any wildcard, `Read` and the `Other`s included,
   * accepts exactly the identical kind, where an observed `Close(m)` counts as
   * identical to a configured `Open(m)` and the other way round.
   */
  lemma SpecificMatchesOnlyIdentical(conf: EventKind, given: EventKind)
    requires Specific(conf)
    ensures MatchEventKind(conf, given) <==> OpenCloseBlind(conf) == OpenCloseBlind(given)
  {
    MatchIsAccepts(conf, given);
    SpecificHasNoWild(conf);
    var p := Encode(conf);
    assert p[|p| - 1] in p;
    EncodeInjective(conf, given);
  }

  /** An observed wildcard is only accepted by a configuration that is at least as wide. */
  lemma ObservedWildcardNeedsConfiguredWildcard(conf: EventKind, given: EventKind)
    requires !Specific(given) && MatchEventKind(conf, given)
    ensures !Specific(conf)
  {
    if Specific(conf) {
      SpecificMatchesOnlyIdentical(conf, given);
    }
  }

  /** The observed top-level `Any` is accepted by the configured `Any` alone; an observed `Create(Any)` likewise. */
  lemma ObservedAnyOnlyByAny(conf: EventKind)
    ensures MatchEventKind(conf, EventKind.Any) <==> conf == EventKind.Any
    ensures MatchEventKind(conf, EventKind.Create(CreateKind.Any))
            <==> conf == EventKind.Any || conf == EventKind.Create(CreateKind.Any)
  {
  }

  /** A configured `Open(m)` or `Close(m)` accepts an observed `Open(n)` or `Close(n)` iff `m` is `Any` or equals `n`. */
  lemma OpenCloseModes(m: AccessMode, n: AccessMode, confOpen: bool, givenOpen: bool)
    ensures var conf := EventKind.Access(if confOpen then AccessKind.Open(m) else AccessKind.Close(m));
            var given := EventKind.Access(if givenOpen then AccessKind.Open(n) else AccessKind.Close(n));
            MatchEventKind(conf, given) <==> m == AccessMode.Any || m == n
  {
  }
}
