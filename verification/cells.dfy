/** Spreadsheet cells as the scripts see them through pandas. A name
    column may hold a missing value (NaN), a `str`, or some other value such
    as a number; a date column may hold a parsed timestamp, unparsed text,
    or some other value, and the scripts treat the four cases differently. */
module Cells {
  import opened Wrappers
  import opened Text

  datatype DateCell =
    | Missing                  // NaN / None
    | Timestamp(iso: string)   // a parsed date; `strftime('%Y-%m-%d')` gives `iso`
    | DateText(text: string)   // a `str` cell
    | OtherValue               // a number or anything else without `strftime`

  /** What `pd.to_datetime` makes of a text: it raises, it gives `NaT`
      (for an empty or `"NaT"` text, say), or it gives a timestamp whose
      `strftime('%Y-%m-%d')` is `iso`. */
  datatype Parsed =
    | Unparsable
    | NotATime
    | ParsedAs(iso: string)

  datatype TextCell =
    | Absent                   // NaN / None
    | Text(text: string)       // a `str` cell
    | NotText                  // a number or anything else without `strip`

  /** `pd.notna(x) and x.strip()` on a cell that does not raise: a `str`
      cell with some non-space text. */
  predicate HasText(cell: TextCell) {
    cell.Text? && Strip(cell.text) != ""
  }

  /** A cell holding only white space does not count as text. */
  lemma BlankIsNotText(s: string)
    requires forall i | 0 <= i < |s| :: IsSpace(s[i])
    ensures !HasText(Text(s))
  {
    StripEmptyIff(s);
  }
}
