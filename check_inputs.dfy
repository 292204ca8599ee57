/**
 * What a condition is evaluated against (`CheckArgs`), and the foreign
 * pieces it needs: the metadata fields read from `std::fs::Metadata`, the
 * content categories of the `infer` crate, and the `regex` crate, which is
 * kept abstract as an oracle (whether a pattern compiles, and whether a
 * compiled pattern finds a match in a text).
 */
module CheckInputs {
  import opened Wrappers
  import opened Paths

  newtype u64 = x: int | 0 <= x < 0x1_0000_0000_0000_0000

  /** The parts of `std::fs::Metadata` the conditions read. */
  datatype Metadata = Metadata(len: u64, isDir: bool, isSymlink: bool)

  /** `infer::MatcherType`: the category a sniffed content type belongs to. */
  datatype MatcherType = App | Archive | Audio | Book | Doc | Font | Image | Text | Video | Custom

  datatype CheckArgs = CheckArgs(fileMetadata: Metadata, fileType: Option<MatcherType>, filePath: Path)

  /** The `regex` crate: `Regex::new(pattern).is_ok()` and `Regex::is_match`. */
  datatype Regex = Regex(compiles: string -> bool, isMatch: (string, string) -> bool)

  /** `path.file_name().unwrap_or_default().to_str().unwrap_or_default()`. */
  function BaseNameText(p: Path): (r: string)
    ensures FileName(p).Some? && FileName(p).value.utf8 ==> r == FileName(p).value.text
    ensures FileName(p).None? || !FileName(p).value.utf8 ==> r == ""
  {
    match FileName(p)
    case Some(n) => if n.utf8 then n.text else ""
    case None => ""
  }
}
