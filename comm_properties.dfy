/**
 * What the merge guarantees over a whole run, stated about the reference
 * definition `MergeRows` that the iterator is proved to follow.
 */
module CommProperties {
  import opened Base
  import opened Strings
  import opened Rows
  import opened LineSources
  import opened Comm

  /** The text of each read of an input, a failed read being the empty line. */
  function Texts(s: seq<ReadResult>): (t: seq<string>)
    ensures |t| == |s|
    ensures forall i :: 0 <= i < |s| ==> t[i] == LineText(s[i])
  {
    if s == [] then [] else [LineText(s[0])] + Texts(s[1..])
  }

  /** The text of each row, in order. */
  function RowTexts(rows: seq<ResultRow>): (t: seq<string>)
    ensures |t| == |rows|
    ensures forall i :: 0 <= i < |rows| ==> t[i] == rows[i].text
  {
    if rows == [] then [] else [rows[0].text] + RowTexts(rows[1..])
  }

  /** The texts of the rows that account for a line of the first input (tags 0 and 2). */
  function FirstSide(rows: seq<ResultRow>): seq<string>
  {
    if rows == [] then []
    else (if rows[0].column == 0 || rows[0].column == 2 then [rows[0].text] else []) + FirstSide(rows[1..])
  }

  /** The texts of the rows that account for a line of the second input (tags 1 and 2). */
  function SecondSide(rows: seq<ResultRow>): seq<string>
  {
    if rows == [] then []
    else (if rows[0].column == 1 || rows[0].column == 2 then [rows[0].text] else []) + SecondSide(rows[1..])
  }

  /** The comparison keys of a list of lines. */
  function Keys(lines: seq<string>, ignoreCase: bool): (k: seq<string>)
    ensures |k| == |lines|
  {
    if lines == [] then [] else [CompareKey(lines[0], ignoreCase)] + Keys(lines[1..], ignoreCase)
  }

  /** The pending reads of one side after a step that does or does not advance it. */
  function Rest(s: seq<ReadResult>, advance: bool): seq<ReadResult>
  {
    if advance && s != [] then s[1..] else s
  }

  /**
   * A first-side line whose key is below the second side's next line (or
   * with the second side exhausted) is yielded first, tagged 0, and only the
   * first side moves on.
   */
  lemma MergeFirstSmaller(x: ReadResult, a: seq<ReadResult>, b: seq<ReadResult>, ignoreCase: bool)
    requires b == [] || Less(CompareKey(LineText(x), ignoreCase), CompareKey(LineText(b[0]), ignoreCase))
    ensures MergeRows([x] + a, b, ignoreCase) == [ResultRow(LineText(x), 0, Tab)] + MergeRows(a, b, ignoreCase)
  {
    MergeRowsUnfold([x] + a, b, ignoreCase);
    assert ([x] + a)[1..] == a;
  }

  /**
   * A second-side line whose key is below the first side's next line (or
   * with the first side exhausted) is yielded first, tagged 1, and only the
   * second side moves on.
   */
  lemma MergeSecondSmaller(a: seq<ReadResult>, y: ReadResult, b: seq<ReadResult>, ignoreCase: bool)
    requires a == [] || Less(CompareKey(LineText(y), ignoreCase), CompareKey(LineText(a[0]), ignoreCase))
    ensures MergeRows(a, [y] + b, ignoreCase) == [ResultRow(LineText(y), 1, Tab)] + MergeRows(a, b, ignoreCase)
  {
    MergeRowsUnfold(a, [y] + b, ignoreCase);
    assert ([y] + b)[1..] == b;
  }

  /**
   * Two next lines with equal keys are yielded as one common row, tagged 2,
   * carrying the first side's text, and both sides move on.
   */
  lemma MergeEqualHeads(x: ReadResult, a: seq<ReadResult>, y: ReadResult, b: seq<ReadResult>, ignoreCase: bool)
    requires CompareKey(LineText(x), ignoreCase) == CompareKey(LineText(y), ignoreCase)
    ensures MergeRows([x] + a, [y] + b, ignoreCase) == [ResultRow(LineText(x), 2, Tab)] + MergeRows(a, b, ignoreCase)
  {
    LessIrreflexive(CompareKey(LineText(x), ignoreCase));
    MergeRowsUnfold([x] + a, [y] + b, ignoreCase);
    assert ([x] + a)[1..] == a && ([y] + b)[1..] == b;
  }

  /**
   * Taking the rows tagged 0 or 2, in the order they are yielded, gives back
   * the first input line for line: every line of it is accounted for exactly
   * once, in its place, whether or not the inputs are sorted.
   */
  lemma {:induction false} MergeReproducesFirst(a: seq<ReadResult>, b: seq<ReadResult>, ignoreCase: bool)
    ensures FirstSide(MergeRows(a, b, ignoreCase)) == Texts(a)
    decreases |a| + |b|
  {
    if a != [] || b != [] {
      MergeRowsUnfold(a, b, ignoreCase);
      var (row, advance1, advance2) := Step(Head(a), Head(b), ignoreCase).value;
      var a', b' := Rest(a, advance1), Rest(b, advance2);
      MergeReproducesFirst(a', b', ignoreCase);
      var rows := MergeRows(a, b, ignoreCase);
      assert rows[1..] == MergeRows(a', b', ignoreCase);
    }
  }

  /**
   * Taking the rows tagged 1 or 2 gives back the second input up to the
   * comparison key: a common row carries the first input's text, which has
   * the same key as the second input's line it stands for.
   */
  lemma {:induction false} MergeReproducesSecondKeys(a: seq<ReadResult>, b: seq<ReadResult>, ignoreCase: bool)
    ensures Keys(SecondSide(MergeRows(a, b, ignoreCase)), ignoreCase) == Keys(Texts(b), ignoreCase)
    decreases |a| + |b|
  {
    if a != [] || b != [] {
      MergeRowsUnfold(a, b, ignoreCase);
      var (row, advance1, advance2) := Step(Head(a), Head(b), ignoreCase).value;
      var a', b' := Rest(a, advance1), Rest(b, advance2);
      MergeReproducesSecondKeys(a', b', ignoreCase);
      var rows, rest := MergeRows(a, b, ignoreCase), MergeRows(a', b', ignoreCase);
      assert rows[1..] == rest;
      if row.column != 0 {
        var texts := Texts(b);
        assert texts == [texts[0]] + Texts(b[1..]);
        assert SecondSide(rows) == [row.text] + SecondSide(rest);
        assert Keys(SecondSide(rows), ignoreCase)
            == [CompareKey(row.text, ignoreCase)] + Keys(SecondSide(rest), ignoreCase);
        assert Keys(texts, ignoreCase) == [CompareKey(texts[0], ignoreCase)] + Keys(Texts(b[1..]), ignoreCase);
      } else {
        assert SecondSide(rows) == SecondSide(rest) && b' == b;
      }
    }
  }

  lemma {:induction false} KeysCaseSensitive(lines: seq<string>)
    ensures Keys(lines, false) == lines
  {
    if lines != [] {
      KeysCaseSensitive(lines[1..]);
    }
  }

  /** Without `ignore_case`, the rows tagged 1 or 2 give back the second input exactly. */
  lemma MergeReproducesSecond(a: seq<ReadResult>, b: seq<ReadResult>)
    ensures SecondSide(MergeRows(a, b, false)) == Texts(b)
  {
    MergeReproducesSecondKeys(a, b, false);
    KeysCaseSensitive(SecondSide(MergeRows(a, b, false)));
    KeysCaseSensitive(Texts(b));
  }

  /**
   * The iterator yields at least as many rows as either input has lines and
   * at most as many as both together.
   */
  lemma {:induction false} MergeLengthBounds(a: seq<ReadResult>, b: seq<ReadResult>, ignoreCase: bool)
    ensures |a| <= |MergeRows(a, b, ignoreCase)| <= |a| + |b|
    ensures |b| <= |MergeRows(a, b, ignoreCase)|
    decreases |a| + |b|
  {
    if a != [] || b != [] {
      MergeRowsUnfold(a, b, ignoreCase);
      var (row, advance1, advance2) := Step(Head(a), Head(b), ignoreCase).value;
      MergeLengthBounds(Rest(a, advance1), Rest(b, advance2), ignoreCase);
    }
  }

  /** With an empty first input, every line of the second is yielded as second-only, in order. */
  lemma {:induction false} MergeOnlySecond(b: seq<ReadResult>, ignoreCase: bool)
    ensures |MergeRows([], b, ignoreCase)| == |b|
    ensures forall i :: 0 <= i < |b| ==> MergeRows([], b, ignoreCase)[i] == ResultRow(LineText(b[i]), 1, Tab)
  {
    if b != [] {
      MergeRowsUnfold([], b, ignoreCase);
      MergeOnlySecond(b[1..], ignoreCase);
    }
  }

  /** With an empty second input, every line of the first is yielded as first-only, in order. */
  lemma {:induction false} MergeOnlyFirst(a: seq<ReadResult>, ignoreCase: bool)
    ensures |MergeRows(a, [], ignoreCase)| == |a|
    ensures forall i :: 0 <= i < |a| ==> MergeRows(a, [], ignoreCase)[i] == ResultRow(LineText(a[i]), 0, Tab)
  {
    if a != [] {
      MergeRowsUnfold(a, [], ignoreCase);
      MergeOnlyFirst(a[1..], ignoreCase);
    }
  }

  /** Every failed read replaced by an empty line. */
  function ErrorsAsEmpty(s: seq<ReadResult>): (t: seq<ReadResult>)
    ensures |t| == |s|
    ensures forall i :: 0 <= i < |s| ==> t[i].Ok? && t[i].text == LineText(s[i])
  {
    if s == [] then []
    else [if s[0].Err? then Ok("") else s[0]] + ErrorsAsEmpty(s[1..])
  }

  /**
   * A failed read is not reported: the merge yields exactly what it yields
   * when that read is an empty line instead.
   */
  lemma {:induction false} MergeReadErrorsAsEmptyLines(a: seq<ReadResult>, b: seq<ReadResult>, ignoreCase: bool)
    ensures MergeRows(a, b, ignoreCase) == MergeRows(ErrorsAsEmpty(a), ErrorsAsEmpty(b), ignoreCase)
    decreases |a| + |b|
  {
    if a != [] || b != [] {
      var a0, b0 := ErrorsAsEmpty(a), ErrorsAsEmpty(b);
      assert Head(a) == Head(a0) && Head(b) == Head(b0);
      MergeRowsUnfold(a, b, ignoreCase);
      MergeRowsUnfold(a0, b0, ignoreCase);
      var (row, advance1, advance2) := Step(Head(a), Head(b), ignoreCase).value;
      assert a0 != [] ==> a0[1..] == ErrorsAsEmpty(a[1..]);
      assert b0 != [] ==> b0[1..] == ErrorsAsEmpty(b[1..]);
      MergeReadErrorsAsEmptyLines(Rest(a, advance1), Rest(b, advance2), ignoreCase);
    }
  }

  /** Tags 0 and 1 exchanged; common rows keep tag 2. */
  function SwapColumn(row: ResultRow): ResultRow
  {
    if row.column == 0 then row.(column := 1)
    else if row.column == 1 then row.(column := 0)
    else row
  }

  function SwapColumns(rows: seq<ResultRow>): (swapped: seq<ResultRow>)
    ensures |swapped| == |rows|
  {
    if rows == [] then [] else [SwapColumn(rows[0])] + SwapColumns(rows[1..])
  }

  /** Case-sensitive steps on exchanged buffers exchange the tag and the advance flags. */
  lemma StepSymmetric(line1: Option<string>, line2: Option<string>)
    requires line1.Some? || line2.Some?
    ensures Step(line1, line2, false).Some? && Step(line2, line1, false).Some?
    ensures
      var (row, advance1, advance2) := Step(line1, line2, false).value;
      Step(line2, line1, false).value == (SwapColumn(row), advance2, advance1)
  {
    if line1.Some? && line2.Some? {
      LessAsymmetric(line1.value, line2.value);
      LessIrreflexive(line1.value);
      LessConnected(line1.value, line2.value);
    }
  }

  /**
   * Without `ignore_case`, exchanging the two inputs yields the same rows with
   * tags 0 and 1 exchanged.
   */
  lemma {:induction false} MergeSymmetric(a: seq<ReadResult>, b: seq<ReadResult>)
    ensures MergeRows(b, a, false) == SwapColumns(MergeRows(a, b, false))
    decreases |a| + |b|
  {
    if a != [] || b != [] {
      MergeRowsUnfold(a, b, false);
      MergeRowsUnfold(b, a, false);
      StepSymmetric(Head(a), Head(b));
      var (row, advance1, advance2) := Step(Head(a), Head(b), false).value;
      MergeSymmetric(Rest(a, advance1), Rest(b, advance2));
    }
  }

  /** Each line's key is not below the key of the line before it. */
  predicate Sorted(lines: seq<string>, ignoreCase: bool)
  {
    |lines| < 2
    || (!Less(CompareKey(lines[1], ignoreCase), CompareKey(lines[0], ignoreCase)) && Sorted(lines[1..], ignoreCase))
  }

  /** The first row yielded carries the first pending line of one of the two sides. */
  lemma MergeFirstText(a: seq<ReadResult>, b: seq<ReadResult>, ignoreCase: bool)
    requires a != [] || b != []
    ensures
      var first := MergeRows(a, b, ignoreCase)[0].text;
      (a != [] && first == LineText(a[0])) || (b != [] && first == LineText(b[0]))
  {
    MergeRowsUnfold(a, b, ignoreCase);
  }

  /**
   * When both inputs are sorted under the comparison in use, so is the output:
   * the rows come out in merged order.
   */
  lemma {:induction false} MergeSorted(a: seq<ReadResult>, b: seq<ReadResult>, ignoreCase: bool)
    requires Sorted(Texts(a), ignoreCase) && Sorted(Texts(b), ignoreCase)
    ensures Sorted(RowTexts(MergeRows(a, b, ignoreCase)), ignoreCase)
    decreases |a| + |b|
  {
    if a != [] || b != [] {
      MergeRowsUnfold(a, b, ignoreCase);
      var (row, advance1, advance2) := Step(Head(a), Head(b), ignoreCase).value;
      var a', b' := Rest(a, advance1), Rest(b, advance2);
      assert a != [] ==> Texts(a)[1..] == Texts(a[1..]);
      assert b != [] ==> Texts(b)[1..] == Texts(b[1..]);
      MergeSorted(a', b', ignoreCase);
      var rows, rest := MergeRows(a, b, ignoreCase), MergeRows(a', b', ignoreCase);
      assert rows == [row] + rest;
      assert RowTexts(rows)[1..] == RowTexts(rest);
      if rest != [] {
        MergeFirstText(a', b', ignoreCase);
        var key := CompareKey(row.text, ignoreCase);
        if a != [] && b != [] {
          LessAsymmetric(CompareKey(LineText(a[0]), ignoreCase), CompareKey(LineText(b[0]), ignoreCase));
        }
        assert !Less(CompareKey(rest[0].text, ignoreCase), key);
      }
    }
  }
}
