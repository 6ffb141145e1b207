/** The upload routes' check that a file name has a spreadsheet extension. */
module FileNames {
  import opened Types

  /** The extensions accepted, in lower case. */
  const AllowedExtensions: set<string> := {"xlsx", "xls"}

  /**
   * Lower-cases ASCII letters. For the comparison with the allowed extensions
   * this agrees with Unicode lower-casing: no other character lower-cases to
   * one of the letters of "xlsx" or "xls".
   */
  function LowerChar(c: char): char {
    if 'A' <= c <= 'Z' then (c as int - 'A' as int + 'a' as int) as char else c
  }

  function Lower(s: string): string {
    seq(|s|, i requires 0 <= i < |s| => LowerChar(s[i]))
  }

  /** The index of the last '.' in `s`, where a split from the right at '.' cuts it. */
  function LastDot(s: string): (r: Option<nat>)
    ensures r.Some? ==> r.value < |s| && s[r.value] == '.'
    ensures r.Some? ==> forall j :: r.value < j < |s| ==> s[j] != '.'
    ensures r.None? ==> forall j :: 0 <= j < |s| ==> s[j] != '.'
  {
    if s == [] then None
    else if s[|s| - 1] == '.' then Some(|s| - 1)
    else LastDot(s[..|s| - 1])
  }

  /**
   * A file name is accepted exactly when it contains a '.' and the text after
   * its last '.', lower-cased, is "xlsx" or "xls".
   */
  function AllowedFile(filename: string): (ok: bool)
    ensures ok <==> exists i :: 0 <= i < |filename| && filename[i] == '.'
                                && (forall j :: i < j < |filename| ==> filename[j] != '.')
                                && Lower(filename[i + 1..]) in AllowedExtensions
  {
    match LastDot(filename)
    case None => false
    case Some(i) => Lower(filename[i + 1..]) in AllowedExtensions
  }
}
