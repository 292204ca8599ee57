/**
 * The leaf-only condition evaluator of the file-system library: each
 * condition is one test of a file's kind, content type, size or name.
 */
module Conditions {
  import opened Wrappers
  import opened Paths
  import opened CheckInputs

  datatype ComparisonOperator = GreaterThan | GreaterThanOrEqual | LessThan | LessThanOrEqual | Equal | NotEqual

  datatype SizeUnit = Bytes | Kilobytes | Megabytes | Gigabytes

  /** The configuration's own copy of the `infer` categories (`MatcherTypeInernal` in the source). */
  datatype MatcherTypeInternal = App | Archive | Audio | Book | Doc | Font | Image | Text | Video | Custom

  datatype FileType = FileType(matcherType: MatcherTypeInternal, operator: ComparisonOperator)

  datatype FileSystemEntity = File(fileType: FileType) | Directory | Symlink

  datatype FileSizeCondition = FileSizeCondition(operator: ComparisonOperator, size: u64, unit: SizeUnit)

  datatype FileNamePatternCondition = FileNamePatternCondition(pattern: string)

  datatype Condition =
    | Entity(entity: FileSystemEntity)
    | FileSize(fileSize: FileSizeCondition)
    | NamePattern(namePattern: FileNamePatternCondition)

  // ---------------------------------------------------------------------
  // Content categories
  // ---------------------------------------------------------------------

  /** `From<&MatcherTypeInernal> for MatcherType`. */
  function ToMatcherType(m: MatcherTypeInternal): MatcherType {
    match m
    case App => MatcherType.App
    case Archive => MatcherType.Archive
    case Audio => MatcherType.Audio
    case Book => MatcherType.Book
    case Doc => MatcherType.Doc
    case Font => MatcherType.Font
    case Image => MatcherType.Image
    case Text => MatcherType.Text
    case Video => MatcherType.Video
    case Custom => MatcherType.Custom
  }

  /** The inverse direction, used to state that the conversion is one-to-one and onto. */
  function FromMatcherType(t: MatcherType): MatcherTypeInternal {
    match t
    case App => MatcherTypeInternal.App
    case Archive => MatcherTypeInternal.Archive
    case Audio => MatcherTypeInternal.Audio
    case Book => MatcherTypeInternal.Book
    case Doc => MatcherTypeInternal.Doc
    case Font => MatcherTypeInternal.Font
    case Image => MatcherTypeInternal.Image
    case Text => MatcherTypeInternal.Text
    case Video => MatcherTypeInternal.Video
    case Custom => MatcherTypeInternal.Custom
  }

  /** The conversion is a bijection: it has a two-sided inverse. */
  lemma MatcherTypeRoundTrip(m: MatcherTypeInternal, t: MatcherType)
    ensures FromMatcherType(ToMatcherType(m)) == m
    ensures ToMatcherType(FromMatcherType(t)) == t
  {
  }

  lemma MatcherTypeInjective(m: MatcherTypeInternal, n: MatcherTypeInternal)
    ensures ToMatcherType(m) == ToMatcherType(n) ==> m == n
  {
    MatcherTypeRoundTrip(m, ToMatcherType(m));
    MatcherTypeRoundTrip(n, ToMatcherType(n));
  }

  // ---------------------------------------------------------------------
  // Sizes
  // ---------------------------------------------------------------------

  function Pow1024(e: nat): (r: nat)
    ensures r >= 1
  {
    if e == 0 then 1 else 1024 * Pow1024(e - 1)
  }

  /** The power of 1024 a unit stands for. */
  function Exponent(unit: SizeUnit): nat {
    match unit
    case Bytes => 0
    case Kilobytes => 1
    case Megabytes => 2
    case Gigabytes => 3
  }

  /** The u64 product in `to_bytes` does not overflow. */
  predicate NoOverflow(unit: SizeUnit, size: u64) {
    size as int * Pow1024(Exponent(unit)) < 0x1_0000_0000_0000_0000
  }

  /** `SizeUnit::to_bytes`. */
  function ToBytes(unit: SizeUnit, size: u64): (r: u64)
    requires NoOverflow(unit, size)
    ensures r as int == size as int * Pow1024(Exponent(unit))
  {
    match unit
    case Bytes => size
    case Kilobytes => (size as int * 1024) as u64
    case Megabytes =>
      assert Pow1024(2) == 1024 * 1024;
      (size as int * 1024 * 1024) as u64
    case Gigabytes =>
      assert Pow1024(3) == 1024 * 1024 * 1024;
      (size as int * 1024 * 1024 * 1024) as u64
  }

  /** The next larger unit. */
  function Larger(unit: SizeUnit): SizeUnit
    requires unit != Gigabytes
  {
    match unit
    case Bytes => Kilobytes
    case Kilobytes => Megabytes
    case Megabytes => Gigabytes
  }

  /** Converting is monotone in the size, as long as nothing overflows. */
  lemma ToBytesMonotone(unit: SizeUnit, a: u64, b: u64)
    requires a <= b && NoOverflow(unit, b)
    ensures NoOverflow(unit, a) && ToBytes(unit, a) <= ToBytes(unit, b)
  {
    var k := Pow1024(Exponent(unit));
    assert a as int * k <= b as int * k by {
      assert (b as int - a as int) * k >= 0;
    }
  }

  /** A size in one unit is 1024 times that size in the next smaller unit. */
  lemma ToBytesLargerUnit(unit: SizeUnit, size: u64)
    requires unit != Gigabytes && NoOverflow(Larger(unit), size)
    ensures size as int * 1024 < 0x1_0000_0000_0000_0000
    ensures NoOverflow(unit, (size as int * 1024) as u64)
    ensures ToBytes(Larger(unit), size) == ToBytes(unit, (size as int * 1024) as u64)
  {
    var k := Pow1024(Exponent(unit));
    assert Pow1024(Exponent(Larger(unit))) == 1024 * k;
    assert size as int * 1024 <= size as int * 1024 * k by {
      assert (size as int * 1024) * (k - 1) >= 0;
    }
  }

  /** The size threshold in bytes, computed exactly. */
  function Threshold(c: FileSizeCondition): int {
    c.size as int * Pow1024(Exponent(c.unit))
  }

  predicate SizeConditionValid(c: FileSizeCondition) {
    NoOverflow(c.unit, c.size)
  }

  /** `FileSizeCondition::is_satisfied`: the file length against the threshold in bytes. */
  function IsSatisfied(c: FileSizeCondition, metadata: Metadata): (r: bool)
    requires SizeConditionValid(c)
    ensures c.operator == GreaterThan ==> (r <==> metadata.len as int > Threshold(c))
    ensures c.operator == GreaterThanOrEqual ==> (r <==> metadata.len as int >= Threshold(c))
    ensures c.operator == LessThan ==> (r <==> metadata.len as int < Threshold(c))
    ensures c.operator == LessThanOrEqual ==> (r <==> metadata.len as int <= Threshold(c))
    ensures c.operator == Equal ==> (r <==> metadata.len as int == Threshold(c))
    ensures c.operator == NotEqual ==> (r <==> metadata.len as int != Threshold(c))
  {
    var fileSize := metadata.len;
    var sizeInBytes := ToBytes(c.unit, c.size);
    match c.operator
    case GreaterThan => fileSize > sizeInBytes
    case GreaterThanOrEqual => fileSize >= sizeInBytes
    case LessThan => fileSize < sizeInBytes
    case LessThanOrEqual => fileSize <= sizeInBytes
    case Equal => fileSize == sizeInBytes
    case NotEqual => fileSize != sizeInBytes
  }

  /** The operator that holds exactly when the given one fails. */
  function Negate(op: ComparisonOperator): ComparisonOperator {
    match op
    case GreaterThan => LessThanOrEqual
    case GreaterThanOrEqual => LessThan
    case LessThan => GreaterThanOrEqual
    case LessThanOrEqual => GreaterThan
    case Equal => NotEqual
    case NotEqual => Equal
  }

  /** The six operators come in complementary pairs: `>` / `<=`, `>=` / `<`, `==` / `!=`. */
  lemma SizeOperatorsComplementary(c: FileSizeCondition, metadata: Metadata)
    requires SizeConditionValid(c)
    ensures IsSatisfied(c.(operator := Negate(c.operator)), metadata) == !IsSatisfied(c, metadata)
    ensures Negate(Negate(c.operator)) == c.operator
  {
  }

  /** Stating a size in a larger unit is the same as stating 1024 times it in the smaller one. */
  lemma SizeUnitScaling(op: ComparisonOperator, size: u64, unit: SizeUnit, metadata: Metadata)
    requires unit != Gigabytes && NoOverflow(Larger(unit), size)
    ensures size as int * 1024 < 0x1_0000_0000_0000_0000
    ensures var smaller := FileSizeCondition(op, (size as int * 1024) as u64, unit);
            SizeConditionValid(smaller)
            && IsSatisfied(FileSizeCondition(op, size, Larger(unit)), metadata) == IsSatisfied(smaller, metadata)
  {
    ToBytesLargerUnit(unit, size);
  }

  // ---------------------------------------------------------------------
  // Leaf checks
  // ---------------------------------------------------------------------

  /** `FileType::check`: needs a sniffed type, and only `Equal` and `NotEqual` are meaningful. */
  function CheckFileType(fileType: FileType, args: CheckArgs): (r: bool)
    ensures args.fileType.None? ==> !r
    ensures r ==> fileType.operator == Equal || fileType.operator == NotEqual
    ensures args.fileType.Some? && fileType.operator == Equal ==>
              (r <==> ToMatcherType(fileType.matcherType) == args.fileType.value)
    ensures args.fileType.Some? && fileType.operator == NotEqual ==>
              (r <==> ToMatcherType(fileType.matcherType) != args.fileType.value)
  {
    match args.fileType
    case None => false
    case Some(t) =>
      match fileType.operator
      case Equal => ToMatcherType(fileType.matcherType) == t
      case NotEqual => ToMatcherType(fileType.matcherType) != t
      case _ => false
  }

  /** `FileSystemEntity::check`. */
  function CheckEntity(entity: FileSystemEntity, args: CheckArgs): (r: bool)
    ensures entity.Directory? ==> r == args.fileMetadata.isDir
    ensures entity.Symlink? ==> r == args.fileMetadata.isSymlink
    ensures entity.File? ==> r == CheckFileType(entity.fileType, args)
  {
    match entity
    case File(fileType) => CheckFileType(fileType, args)
    case Directory => args.fileMetadata.isDir
    case Symlink => args.fileMetadata.isSymlink
  }

  /** `FileNamePatternCondition::check`: an invalid pattern is false; a valid one is tried on the base name. */
  function CheckNamePattern(c: FileNamePatternCondition, filePath: Path, re: Regex): (r: bool)
    ensures !re.compiles(c.pattern) ==> !r
    ensures re.compiles(c.pattern) ==> (r <==> re.isMatch(c.pattern, BaseNameText(filePath)))
  {
    if !re.compiles(c.pattern) then false
    else re.isMatch(c.pattern, BaseNameText(filePath))
  }

  predicate ConditionValid(c: Condition) {
    c.FileSize? ==> SizeConditionValid(c.fileSize)
  }

  /** `Condition::check`: each variant goes to its own leaf check; the name pattern sees only the path. */
  function CheckCondition(c: Condition, args: CheckArgs, re: Regex): (r: bool)
    requires ConditionValid(c)
    ensures c.Entity? ==> r == CheckEntity(c.entity, args)
    ensures c.FileSize? ==> r == IsSatisfied(c.fileSize, args.fileMetadata)
    ensures c.NamePattern? ==> r == CheckNamePattern(c.namePattern, args.filePath, re)
  {
    match c
    case Entity(entity) => CheckEntity(entity, args)
    case FileSize(fileSize) => IsSatisfied(fileSize, args.fileMetadata)
    case NamePattern(pattern) => CheckNamePattern(pattern, args.filePath, re)
  }

  /** With a sniffed type, `Equal` and `NotEqual` are complements; without one, both are false. */
  lemma FileTypeOperators(m: MatcherTypeInternal, args: CheckArgs)
    ensures args.fileType.Some? ==>
              CheckFileType(FileType(m, NotEqual), args) == !CheckFileType(FileType(m, Equal), args)
    ensures args.fileType.None? ==>
              !CheckFileType(FileType(m, NotEqual), args) && !CheckFileType(FileType(m, Equal), args)
  {
  }

  /**
   * Each leaf reads only its own inputs: the name pattern only the base name,
   * the size test only the length, the entity test only the flags and the
   * sniffed type.
   */
  lemma LeafInputs(c: Condition, a: CheckArgs, b: CheckArgs, re: Regex)
    requires ConditionValid(c)
    requires c.NamePattern? ==> BaseNameText(a.filePath) == BaseNameText(b.filePath)
    requires c.FileSize? ==> a.fileMetadata.len == b.fileMetadata.len
    requires c.Entity? ==> a.fileMetadata.isDir == b.fileMetadata.isDir
                           && a.fileMetadata.isSymlink == b.fileMetadata.isSymlink
                           && a.fileType == b.fileType
    ensures CheckCondition(c, a, re) == CheckCondition(c, b, re)
  {
  }
}
