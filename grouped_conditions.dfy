/**
 * The grouped condition evaluator of the file-system library: the same
 * leaf conditions as the leaf-only version, declared anew, plus one level
 * of `And`/`Or` groups. A rule carries one `ConditionOrConditionsGroup`.
 *
 * The leaf checks are proved to agree with the leaf-only version through a
 * one-to-one translation of the configurations.
 */
module GroupedConditions {
  import opened Wrappers
  import opened Paths
  import opened CheckInputs
  import Leaf = Conditions

  datatype ComparisonOperator = GreaterThan | GreaterThanOrEqual | LessThan | LessThanOrEqual | Equal | NotEqual

  datatype SizeUnit = Bytes | Kilobytes | Megabytes | Gigabytes

  datatype MatcherTypeInternal = App | Archive | Audio | Book | Doc | Font | Image | Text | Video | Custom

  datatype FileType = FileType(matcherType: MatcherTypeInternal, operator: ComparisonOperator)

  datatype FileSystemEntity = File(fileType: FileType) | Directory | Symlink

  datatype FileSizeCondition = FileSizeCondition(operator: ComparisonOperator, size: u64, unit: SizeUnit)

  datatype FileNamePatternCondition = FileNamePatternCondition(pattern: string)

  datatype Condition =
    | Entity(entity: FileSystemEntity)
    | FileSize(fileSize: FileSizeCondition)
    | NamePattern(namePattern: FileNamePatternCondition)

  datatype ConditionType = Or | And

  /** A group holds leaves only. */
  datatype ConditionsGroup = ConditionsGroup(condType: ConditionType, conditions: seq<Condition>)

  datatype ConditionOrConditionsGroup = Single(condition: Condition) | Group(group: ConditionsGroup)

  // ---------------------------------------------------------------------
  // Leaf checks (the same definitions as in the leaf-only version)
  // ---------------------------------------------------------------------

  /** `From<&MatcherTypeInernal> for MatcherType`. */
  function ToMatcherType(m: MatcherTypeInternal): MatcherType {
    match m
    case App => MatcherType.App
    case Archive => MatcherType.Archive
    case Audio => MatcherType.Audio
    case Book => MatcherType.Book
    case Doc => MatcherType.Doc
    case Font => MatcherType.Font
    case Image => MatcherType.Image
    case Text => MatcherType.Text
    case Video => MatcherType.Video
    case Custom => MatcherType.Custom
  }

  /** The conversion is one-to-one. */
  lemma MatcherTypeInjective(m: MatcherTypeInternal, n: MatcherTypeInternal)
    ensures ToMatcherType(m) == ToMatcherType(n) ==> m == n
  {
    Leaf.MatcherTypeInjective(ToLeafMatcherType(m), ToLeafMatcherType(n));
  }

  function Exponent(unit: SizeUnit): nat {
    match unit
    case Bytes => 0
    case Kilobytes => 1
    case Megabytes => 2
    case Gigabytes => 3
  }

  predicate NoOverflow(unit: SizeUnit, size: u64) {
    size as int * Leaf.Pow1024(Exponent(unit)) < 0x1_0000_0000_0000_0000
  }

  /** `SizeUnit::to_bytes`. */
  function ToBytes(unit: SizeUnit, size: u64): (r: u64)
    requires NoOverflow(unit, size)
    ensures r as int == size as int * Leaf.Pow1024(Exponent(unit))
  {
    match unit
    case Bytes => size
    case Kilobytes => (size as int * 1024) as u64
    case Megabytes =>
      assert Leaf.Pow1024(2) == 1024 * 1024;
      (size as int * 1024 * 1024) as u64
    case Gigabytes =>
      assert Leaf.Pow1024(3) == 1024 * 1024 * 1024;
      (size as int * 1024 * 1024 * 1024) as u64
  }

  function Threshold(c: FileSizeCondition): int {
    c.size as int * Leaf.Pow1024(Exponent(c.unit))
  }

  predicate SizeConditionValid(c: FileSizeCondition) {
    NoOverflow(c.unit, c.size)
  }

  /** `FileSizeCondition::is_satisfied`. */
  function IsSatisfied(c: FileSizeCondition, metadata: Metadata): (r: bool)
    requires SizeConditionValid(c)
    ensures c.operator == GreaterThan ==> (r <==> metadata.len as int > Threshold(c))
    ensures c.operator == GreaterThanOrEqual ==> (r <==> metadata.len as int >= Threshold(c))
    ensures c.operator == LessThan ==> (r <==> metadata.len as int < Threshold(c))
    ensures c.operator == LessThanOrEqual ==> (r <==> metadata.len as int <= Threshold(c))
    ensures c.operator == Equal ==> (r <==> metadata.len as int == Threshold(c))
    ensures c.operator == NotEqual ==> (r <==> metadata.len as int != Threshold(c))
  {
    var fileSize := metadata.len;
    var sizeInBytes := ToBytes(c.unit, c.size);
    match c.operator
    case GreaterThan => fileSize > sizeInBytes
    case GreaterThanOrEqual => fileSize >= sizeInBytes
    case LessThan => fileSize < sizeInBytes
    case LessThanOrEqual => fileSize <= sizeInBytes
    case Equal => fileSize == sizeInBytes
    case NotEqual => fileSize != sizeInBytes
  }

  /** `FileType::check`. */
  function CheckFileType(fileType: FileType, args: CheckArgs): (r: bool)
    ensures args.fileType.None? ==> !r
    ensures r ==> fileType.operator == Equal || fileType.operator == NotEqual
    ensures args.fileType.Some? && fileType.operator == Equal ==>
              (r <==> ToMatcherType(fileType.matcherType) == args.fileType.value)
    ensures args.fileType.Some? && fileType.operator == NotEqual ==>
              (r <==> ToMatcherType(fileType.matcherType) != args.fileType.value)
  {
    match args.fileType
    case None => false
    case Some(t) =>
      match fileType.operator
      case Equal => ToMatcherType(fileType.matcherType) == t
      case NotEqual => ToMatcherType(fileType.matcherType) != t
      case _ => false
  }

  /** `FileSystemEntity::check`. */
  function CheckEntity(entity: FileSystemEntity, args: CheckArgs): (r: bool)
    ensures entity.Directory? ==> r == args.fileMetadata.isDir
    ensures entity.Symlink? ==> r == args.fileMetadata.isSymlink
    ensures entity.File? ==> r == CheckFileType(entity.fileType, args)
  {
    match entity
    case File(fileType) => CheckFileType(fileType, args)
    case Directory => args.fileMetadata.isDir
    case Symlink => args.fileMetadata.isSymlink
  }

  /** `FileNamePatternCondition::check`. */
  function CheckNamePattern(c: FileNamePatternCondition, filePath: Path, re: Regex): (r: bool)
    ensures !re.compiles(c.pattern) ==> !r
    ensures re.compiles(c.pattern) ==> (r <==> re.isMatch(c.pattern, BaseNameText(filePath)))
  {
    if !re.compiles(c.pattern) then false
    else re.isMatch(c.pattern, BaseNameText(filePath))
  }

  predicate ConditionValid(c: Condition) {
    c.FileSize? ==> SizeConditionValid(c.fileSize)
  }

  /** `Condition::check`. */
  function CheckCondition(c: Condition, args: CheckArgs, re: Regex): (r: bool)
    requires ConditionValid(c)
    ensures c.Entity? ==> r == CheckEntity(c.entity, args)
    ensures c.FileSize? ==> r == IsSatisfied(c.fileSize, args.fileMetadata)
    ensures c.NamePattern? ==> r == CheckNamePattern(c.namePattern, args.filePath, re)
  {
    match c
    case Entity(entity) => CheckEntity(entity, args)
    case FileSize(fileSize) => IsSatisfied(fileSize, args.fileMetadata)
    case NamePattern(pattern) => CheckNamePattern(pattern, args.filePath, re)
  }

  // ---------------------------------------------------------------------
  // Groups
  // ---------------------------------------------------------------------

  predicate AllValid(cs: seq<Condition>) {
    forall i :: 0 <= i < |cs| ==> ConditionValid(cs[i])
  }

  predicate TreeValid(c: ConditionOrConditionsGroup) {
    match c
    case Single(condition) => ConditionValid(condition)
    case Group(group) => AllValid(group.conditions)
  }

  /** `iter().any(...)`: some member holds. */
  function AnyHolds(cs: seq<Condition>, args: CheckArgs, re: Regex): (r: bool)
    requires AllValid(cs)
    ensures r <==> exists i :: 0 <= i < |cs| && CheckCondition(cs[i], args, re)
  {
    if cs == [] then false
    else CheckCondition(cs[0], args, re) || AnyHolds(cs[1..], args, re)
  }

  /** `iter().all(...)`: every member holds. */
  function AllHold(cs: seq<Condition>, args: CheckArgs, re: Regex): (r: bool)
    requires AllValid(cs)
    ensures r <==> forall i :: 0 <= i < |cs| ==> CheckCondition(cs[i], args, re)
  {
    if cs == [] then true
    else CheckCondition(cs[0], args, re) && AllHold(cs[1..], args, re)
  }

  /** `ConditionsGroup::check`: an `Or` group needs one member (so an empty one fails), an `And` group all (so an empty one passes). */
  function CheckGroup(g: ConditionsGroup, args: CheckArgs, re: Regex): (r: bool)
    requires AllValid(g.conditions)
    ensures g.condType == Or ==> (r <==> exists i :: 0 <= i < |g.conditions| && CheckCondition(g.conditions[i], args, re))
    ensures g.condType == And ==> (r <==> forall i :: 0 <= i < |g.conditions| ==> CheckCondition(g.conditions[i], args, re))
    ensures g.conditions == [] ==> r == (g.condType == And)
  {
    match g.condType
    case Or => AnyHolds(g.conditions, args, re)
    case And => AllHold(g.conditions, args, re)
  }

  /** `ConditionOrConditionsGroup::check`: delegates to the leaf or to the group. */
  function CheckTree(c: ConditionOrConditionsGroup, args: CheckArgs, re: Regex): (r: bool)
    requires TreeValid(c)
    ensures c.Single? ==> r == CheckCondition(c.condition, args, re)
    ensures c.Group? ==> r == CheckGroup(c.group, args, re)
  {
    match c
    case Single(condition) => CheckCondition(condition, args, re)
    case Group(group) => CheckGroup(group, args, re)
  }

  /** A one-member group of either kind is the member itself. */
  lemma SingletonGroup(t: ConditionType, c: Condition, args: CheckArgs, re: Regex)
    requires ConditionValid(c)
    ensures CheckTree(Group(ConditionsGroup(t, [c])), args, re) == CheckTree(Single(c), args, re)
  {
  }

  /** Without a sniffed type a file-type leaf is false, so `Or`-ing it in changes nothing and `And`-ing it in fails the group. */
  lemma UnsniffedFileTypeInGroups(ft: FileType, cs: seq<Condition>, args: CheckArgs, re: Regex)
    requires AllValid(cs) && args.fileType.None?
    ensures var leaf := Entity(File(ft));
            CheckGroup(ConditionsGroup(Or, cs + [leaf]), args, re) == CheckGroup(ConditionsGroup(Or, cs), args, re)
            && !CheckGroup(ConditionsGroup(And, cs + [leaf]), args, re)
  {
    var leaf := Entity(File(ft));
    var ext := cs + [leaf];
    assert ext[|cs|] == leaf;
    assert AllValid(ext);
    if CheckGroup(ConditionsGroup(Or, ext), args, re) {
      var i :| 0 <= i < |ext| && CheckCondition(ext[i], args, re);
      assert i < |cs| && ext[i] == cs[i];
    }
    if CheckGroup(ConditionsGroup(Or, cs), args, re) {
      var i :| 0 <= i < |cs| && CheckCondition(cs[i], args, re);
      assert ext[i] == cs[i];
    }
  }

  // ---------------------------------------------------------------------
  // Agreement with the leaf-only version
  // ---------------------------------------------------------------------

  function ToLeafOperator(op: ComparisonOperator): Leaf.ComparisonOperator {
    match op
    case GreaterThan => Leaf.GreaterThan
    case GreaterThanOrEqual => Leaf.GreaterThanOrEqual
    case LessThan => Leaf.LessThan
    case LessThanOrEqual => Leaf.LessThanOrEqual
    case Equal => Leaf.Equal
    case NotEqual => Leaf.NotEqual
  }

  function ToLeafUnit(unit: SizeUnit): Leaf.SizeUnit {
    match unit
    case Bytes => Leaf.Bytes
    case Kilobytes => Leaf.Kilobytes
    case Megabytes => Leaf.Megabytes
    case Gigabytes => Leaf.Gigabytes
  }

  function ToLeafMatcherType(m: MatcherTypeInternal): Leaf.MatcherTypeInternal {
    match m
    case App => Leaf.MatcherTypeInternal.App
    case Archive => Leaf.MatcherTypeInternal.Archive
    case Audio => Leaf.MatcherTypeInternal.Audio
    case Book => Leaf.MatcherTypeInternal.Book
    case Doc => Leaf.MatcherTypeInternal.Doc
    case Font => Leaf.MatcherTypeInternal.Font
    case Image => Leaf.MatcherTypeInternal.Image
    case Text => Leaf.MatcherTypeInternal.Text
    case Video => Leaf.MatcherTypeInternal.Video
    case Custom => Leaf.MatcherTypeInternal.Custom
  }

  /** The same configuration, written with the leaf-only version's types. */
  function ToLeaf(c: Condition): Leaf.Condition {
    match c
    case Entity(e) =>
      Leaf.Entity(
        match e
        case File(ft) => Leaf.File(Leaf.FileType(ToLeafMatcherType(ft.matcherType), ToLeafOperator(ft.operator)))
        case Directory => Leaf.Directory
        case Symlink => Leaf.Symlink)
    case FileSize(s) => Leaf.FileSize(Leaf.FileSizeCondition(ToLeafOperator(s.operator), s.size, ToLeafUnit(s.unit)))
    case NamePattern(p) => Leaf.NamePattern(Leaf.FileNamePatternCondition(p.pattern))
  }

  function FromLeafOperator(op: Leaf.ComparisonOperator): ComparisonOperator {
    match op
    case GreaterThan => GreaterThan
    case GreaterThanOrEqual => GreaterThanOrEqual
    case LessThan => LessThan
    case LessThanOrEqual => LessThanOrEqual
    case Equal => Equal
    case NotEqual => NotEqual
  }

  function FromLeafUnit(unit: Leaf.SizeUnit): SizeUnit {
    match unit
    case Bytes => Bytes
    case Kilobytes => Kilobytes
    case Megabytes => Megabytes
    case Gigabytes => Gigabytes
  }

  function FromLeafMatcherType(m: Leaf.MatcherTypeInternal): MatcherTypeInternal {
    match m
    case App => MatcherTypeInternal.App
    case Archive => MatcherTypeInternal.Archive
    case Audio => MatcherTypeInternal.Audio
    case Book => MatcherTypeInternal.Book
    case Doc => MatcherTypeInternal.Doc
    case Font => MatcherTypeInternal.Font
    case Image => MatcherTypeInternal.Image
    case Text => MatcherTypeInternal.Text
    case Video => MatcherTypeInternal.Video
    case Custom => MatcherTypeInternal.Custom
  }

  /** A leaf-only configuration, written with this version's types. */
  function FromLeaf(c: Leaf.Condition): Condition {
    match c
    case Entity(e) =>
      Entity(
        match e
        case File(ft) => File(FileType(FromLeafMatcherType(ft.matcherType), FromLeafOperator(ft.operator)))
        case Directory => Directory
        case Symlink => Symlink)
    case FileSize(s) => FileSize(FileSizeCondition(FromLeafOperator(s.operator), s.size, FromLeafUnit(s.unit)))
    case NamePattern(p) => NamePattern(FileNamePatternCondition(p.pattern))
  }

  /** The translation is one-to-one and onto. */
  lemma TranslationRoundTrip(c: Condition, l: Leaf.Condition)
    ensures FromLeaf(ToLeaf(c)) == c
    ensures ToLeaf(FromLeaf(l)) == l
  {
    match c {
      case Entity(e) =>
        match e {
          case File(ft) =>
            assert FromLeafMatcherType(ToLeafMatcherType(ft.matcherType)) == ft.matcherType;
            assert FromLeafOperator(ToLeafOperator(ft.operator)) == ft.operator;
          case _ =>
        }
      case FileSize(s) =>
        assert FromLeafOperator(ToLeafOperator(s.operator)) == s.operator;
        assert FromLeafUnit(ToLeafUnit(s.unit)) == s.unit;
      case _ =>
    }
    match l {
      case Entity(e) =>
        match e {
          case File(ft) =>
            assert ToLeafMatcherType(FromLeafMatcherType(ft.matcherType)) == ft.matcherType;
            assert ToLeafOperator(FromLeafOperator(ft.operator)) == ft.operator;
          case _ =>
        }
      case FileSize(s) =>
        assert ToLeafOperator(FromLeafOperator(s.operator)) == s.operator;
        assert ToLeafUnit(FromLeafUnit(s.unit)) == s.unit;
      case _ =>
    }
  }

  /** Both versions evaluate a leaf identically. */
  lemma LeafChecksAgree(c: Condition, args: CheckArgs, re: Regex)
    requires ConditionValid(c)
    ensures Leaf.ConditionValid(ToLeaf(c))
    ensures Leaf.CheckCondition(ToLeaf(c), args, re) == CheckCondition(c, args, re)
  {
    match c {
      case Entity(e) =>
        if e.File? {
          var ft := e.fileType;
          assert Leaf.ToMatcherType(ToLeafMatcherType(ft.matcherType)) == ToMatcherType(ft.matcherType);
        }
      case FileSize(s) =>
        assert Exponent(s.unit) == Leaf.Exponent(ToLeafUnit(s.unit));
      case _ =>
    }
  }

  /** The converse direction: a leaf-only configuration evaluates the same once translated. */
  lemma FromLeafChecksAgree(l: Leaf.Condition, args: CheckArgs, re: Regex)
    requires Leaf.ConditionValid(l)
    ensures ConditionValid(FromLeaf(l))
    ensures CheckCondition(FromLeaf(l), args, re) == Leaf.CheckCondition(l, args, re)
  {
    TranslationRoundTrip(FromLeaf(l), l);
    if l.FileSize? {
      assert Exponent(FromLeafUnit(l.fileSize.unit)) == Leaf.Exponent(l.fileSize.unit);
    }
    LeafChecksAgree(FromLeaf(l), args, re);
  }
}
