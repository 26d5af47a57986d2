/**
 * The two-cursor merge behind `comm`: the classifier
 * (`FilePair::should_advance_cursor`), one step of the merge iterator as a
 * pure function, and the whole merge as a reference definition.
 */
module Comm {
  import opened Base
  import opened Strings
  import opened Rows
  import opened LineSources

  /**
   * `should_advance_cursor`: given the buffered line of each side, which
   * sides move on and which column the step reports. Lines are compared on
   * `CompareKey`; the smaller one is reported and its side advances, and
   * lines with equal keys are common and both sides advance.
   */
  function ShouldAdvanceCursor(line1: Option<string>, line2: Option<string>, ignoreCase: bool)
    : (r: (bool, bool, u8))
    ensures r.2 <= 2
    ensures r.0 ==> line1.Some?
    ensures r.1 ==> line2.Some?
    ensures (r.0 || r.1) <==> line1.Some? || line2.Some?
    ensures line1.Some? || line2.Some? ==>
              (r.2 == 0 <==> r.0 && !r.1) && (r.2 == 1 <==> !r.0 && r.1) && (r.2 == 2 <==> r.0 && r.1)
    ensures line1.Some? && line2.Some? ==>
              var key1, key2 := CompareKey(line1.value, ignoreCase), CompareKey(line2.value, ignoreCase);
              && (r.2 == 0 <==> Less(key1, key2))
              && (r.2 == 1 <==> Less(key2, key1))
              && (r.2 == 2 <==> key1 == key2)
    ensures line1.Some? && line2.None? ==> r == (true, false, 0)
    ensures line1.None? && line2.Some? ==> r == (false, true, 1)
    ensures line1.None? && line2.None? ==> r == (false, false, 0)
  {
    match (line1, line2)
    case (Some(s1), Some(s2)) =>
      var key1, key2 := CompareKey(s1, ignoreCase), CompareKey(s2, ignoreCase);
      var advance1 := Less(key1, key2);
      var advance2 := Less(key2, key1);
      LessIrreflexive(key1);
      LessAsymmetric(key1, key2);
      LessConnected(key1, key2);
      if advance1 then (true, false, 0)
      else if advance2 then (false, true, 1)
      else (true, true, 2)
    case (Some(_), None) => (true, false, 0)
    case (None, Some(_)) => (false, true, 1)
    case (None, None) => (false, false, 0)
  }

  /** The buffered read of one side as the merge sees it: a failed read becomes `""`. */
  function BufferedText(current: Option<ReadResult>): (r: Option<string>)
    ensures r.Some? <==> current.Some?
    ensures current.Some? ==> r.value == LineText(current.value)
  {
    match current
    case Some(result) => Some(LineText(result))
    case None => None
  }

  /**
   * One step of the merge once both buffers are filled: nothing when both
   * sides are exhausted, otherwise the row to emit and the two advance flags.
   * The row of a common line carries the first side's text.
   */
  function Step(line1: Option<string>, line2: Option<string>, ignoreCase: bool)
    : (r: Option<(ResultRow, bool, bool)>)
    ensures r.None? <==> line1.None? && line2.None?
    ensures r.Some? ==> r.value.0.column <= 2 && r.value.0.separator == Tab
    ensures r.Some? && r.value.0.column == 0 ==>
              && line1.Some? && r.value.0.text == line1.value
              && r.value.1 && !r.value.2
              && (line2.Some? ==> Less(CompareKey(line1.value, ignoreCase), CompareKey(line2.value, ignoreCase)))
    ensures r.Some? && r.value.0.column == 1 ==>
              && line2.Some? && r.value.0.text == line2.value
              && !r.value.1 && r.value.2
              && (line1.Some? ==> Less(CompareKey(line2.value, ignoreCase), CompareKey(line1.value, ignoreCase)))
    ensures r.Some? && r.value.0.column == 2 ==>
              && line1.Some? && line2.Some? && r.value.0.text == line1.value
              && r.value.1 && r.value.2
              && CompareKey(line1.value, ignoreCase) == CompareKey(line2.value, ignoreCase)
  {
    if line1.None? && line2.None? then
      None
    else
      var cursors := ShouldAdvanceCursor(line1, line2, ignoreCase);
      if cursors.2 == 0 then Some((ResultRow(line1.value, 0, Tab), cursors.0, cursors.1))
      else if cursors.2 == 1 then Some((ResultRow(line2.value, 1, Tab), cursors.0, cursors.1))
      else Some((ResultRow(line1.value, 2, Tab), cursors.0, cursors.1))
  }

  /** The first pending line of a side, as the buffer presents it after a refetch. */
  function Head(s: seq<ReadResult>): Option<string>
  {
    if s == [] then None else Some(LineText(s[0]))
  }

  /**
   * The rows the merge iterator yields, from first to last, for the pending
   * reads `a` and `b` of the two sides: the reference the iterator is proved
   * against. Every row consumes at least one pending read.
   */
  function MergeRows(a: seq<ReadResult>, b: seq<ReadResult>, ignoreCase: bool): (rows: seq<ResultRow>)
    ensures rows == [] <==> a == [] && b == []
    ensures |rows| <= |a| + |b|
    decreases |a| + |b|
  {
    match Step(Head(a), Head(b), ignoreCase)
    case None => []
    case Some((row, advance1, advance2)) =>
      [row] + MergeRows(if advance1 then a[1..] else a, if advance2 then b[1..] else b, ignoreCase)
  }

  /** One unfolding of `MergeRows`: the first row is the step on the two heads. */
  lemma MergeRowsUnfold(a: seq<ReadResult>, b: seq<ReadResult>, ignoreCase: bool)
    requires a != [] || b != []
    ensures Step(Head(a), Head(b), ignoreCase).Some?
    ensures
      var (row, advance1, advance2) := Step(Head(a), Head(b), ignoreCase).value;
      MergeRows(a, b, ignoreCase)
      == [row] + MergeRows(if advance1 then a[1..] else a, if advance2 then b[1..] else b, ignoreCase)
  {
  }
}
