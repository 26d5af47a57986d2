/** One line of output (`ResultRow`) and how it is displayed. */
module Rows {
  import opened Base

  /** The separator the merge iterator puts in every row. */
  const Tab: string := "\t"

  /**
   * `ResultRow`: the text of a line, its column tag (0 for lines only in the
   * first input, 1 for lines only in the second, 2 for lines in both) and the
   * separator used to indent it.
   */
  datatype ResultRow = ResultRow(text: string, column: u8, separator: string)

  /**
   * `str::repeat`: `n` copies of `s` back to back. The result is `n` times
   * as long as `s`, starts with `s` and repeats itself every `|s|`
   * characters, which together fix every character of it.
   */
  function Repeat(s: string, n: nat): (r: string)
    ensures |r| == |s| * n
    ensures n > 0 ==> r[..|s|] == s
    ensures forall i :: 0 <= i < |r| - |s| ==> r[i + |s|] == r[i]
  {
    if n == 0 then [] else s + Repeat(s, n - 1)
  }

  /** `n` tab characters. */
  function Tabs(n: nat): (r: string)
    ensures |r| == n && forall i :: 0 <= i < n ==> r[i] == '\t'
  {
    seq(n, _ => '\t')
  }

  /** `Display for ResultRow`: the separator repeated `column` times, then the text. */
  function Render(row: ResultRow): (r: string)
    ensures |r| == |row.separator| * row.column as int + |row.text|
    ensures r[|r| - |row.text|..] == row.text
    ensures r[..|r| - |row.text|] == Repeat(row.separator, row.column as nat)
  {
    Repeat(row.separator, row.column as nat) + row.text
  }

  /** The number of tab characters a rendered line starts with. */
  function LeadingTabs(s: string): (n: nat)
    ensures n <= |s|
    ensures forall i :: 0 <= i < n ==> s[i] == '\t'
    ensures n < |s| ==> s[n] != '\t'
  {
    if s != [] && s[0] == '\t' then 1 + LeadingTabs(s[1..]) else 0
  }

  lemma {:induction false} RepeatTab(n: nat)
    ensures Repeat(Tab, n) == Tabs(n)
  {
    if n > 0 {
      RepeatTab(n - 1);
      assert Tab + Tabs(n - 1) == Tabs(n);
    }
  }

  /** With the tab separator, a row displays as `column` tabs followed by its text. */
  lemma RenderTabs(row: ResultRow)
    requires row.separator == Tab
    ensures Render(row) == Tabs(row.column as nat) + row.text
  {
    RepeatTab(row.column as nat);
  }

  /**
   * A reader of the output recovers each row's column by counting leading
   * tabs, and the rest of the line is the row's text, whenever the text does
   * not itself start with a tab.
   */
  lemma RenderRoundTrip(row: ResultRow)
    requires row.separator == Tab
    requires row.text == [] || row.text[0] != '\t'
    ensures LeadingTabs(Render(row)) == row.column as nat
    ensures Render(row)[row.column..] == row.text
  {
    RenderTabs(row);
  }
}
