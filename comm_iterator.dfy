/**
 * `FilePairLinesIterator`: the merge as the library runs it, one row per call
 * of `Next`, over two line buffers it updates in place.
 */
module CommIterator {
  import opened Base
  import opened Rows
  import opened Settings
  import opened LineSources
  import opened Comm

  class FilePairLinesIterator {
    var file1Lines: FileLines
    var file2Lines: FileLines
    const config: Config

    // the whole of each input, every row the iteration yields, and the rows yielded so far
    ghost const input1: seq<ReadResult>
    ghost const input2: seq<ReadResult>
    ghost const total: seq<ResultRow>
    ghost var emitted: seq<ResultRow>

    /**
     * Both buffers are consistent, read from the two inputs, and the rows
     * yielded so far followed by the merge of what is still pending are the
     * merge of the two whole inputs.
     */
    ghost predicate Valid()
      reads this
    {
      && file1Lines.Valid() && file2Lines.Valid()
      && file1Lines.lines.items == input1 && file2Lines.lines.items == input2
      && total == MergeRows(input1, input2, config.ignoreCase)
      && emitted + MergeRows(file1Lines.Pending(), file2Lines.Pending(), config.ignoreCase) == total
    }

    /** `FilePair::into_lines`: a fresh buffer on each input, nothing yielded yet. */
    constructor (input1: seq<ReadResult>, input2: seq<ReadResult>, config: Config)
      ensures Valid()
      ensures this.input1 == input1 && this.input2 == input2 && this.config == config
      ensures file1Lines == FileLines.FromFile(input1) && file2Lines == FileLines.FromFile(input2)
      ensures emitted == []
    {
      file1Lines := FileLines.FromFile(input1);
      file2Lines := FileLines.FromFile(input2);
      this.config := config;
      this.input1 := input1;
      this.input2 := input2;
      total := MergeRows(input1, input2, config.ignoreCase);
      emitted := [];
    }

    /**
     * `Iterator::next`: refetch each side whose flag is set; stop when both
     * buffers are empty; otherwise yield the row `Step` gives and store its
     * advance flags for the following call.
     */
    method Next() returns (row: Option<ResultRow>)
      requires Valid()
      modifies this
      ensures Valid()
      ensures row.None? <==> old(file1Lines.Pending()) == [] && old(file2Lines.Pending()) == []
      ensures file1Lines == old(file1Lines).Refetch().(advance := file1Lines.advance)
      ensures file2Lines == old(file2Lines).Refetch().(advance := file2Lines.advance)
      ensures row.None? ==> file1Lines.advance == old(file1Lines.advance) && file2Lines.advance == old(file2Lines.advance)
      ensures row.Some? ==>
        Step(BufferedText(file1Lines.current), BufferedText(file2Lines.current), config.ignoreCase)
        == Some((row.value, file1Lines.advance, file2Lines.advance))
      ensures emitted == old(emitted) + if row.Some? then [row.value] else []
      ensures row.Some? ==>
        |file1Lines.Pending()| + |file2Lines.Pending()| < |old(file1Lines.Pending())| + |old(file2Lines.Pending())|
      ensures row.None? ==> file1Lines.Pending() == [] && file2Lines.Pending() == []
    {
      var buffer1, buffer2 := file1Lines.Refetch(), file2Lines.Refetch();
      var file1Next, file2Next := buffer1.current, buffer2.current;
      if file1Next.None? && file2Next.None? {
        row := None;
        ExhaustedStep(file1Lines, file2Lines);
        file1Lines, file2Lines := buffer1, buffer2;
      } else {
        var file1Line := BufferedText(file1Next);
        var file2Line := BufferedText(file2Next);
        var cursors := ShouldAdvanceCursor(file1Line, file2Line, config.ignoreCase);
        row := match cursors.2
          case 0 => Some(ResultRow(file1Line.value, 0, Tab))
          case 1 => Some(ResultRow(file2Line.value, 1, Tab))
          case 2 => Some(ResultRow(file1Line.value, 2, Tab))
          case _ => None;
        assert row.Some? && Step(file1Line, file2Line, config.ignoreCase) == Some((row.value, cursors.0, cursors.1));
        ghost var before1, before2, emittedBefore := file1Lines, file2Lines, emitted;
        file1Lines, file2Lines := buffer1.(advance := cursors.0), buffer2.(advance := cursors.1);
        emitted := emitted + [row.value];
        StepAccounting(before1, before2, config.ignoreCase, emittedBefore, total, row.value, file1Lines, file2Lines);
      }
    }
  }

  /** A step on two exhausted buffers changes nothing that is pending. */
  lemma ExhaustedStep(buffer1: FileLines, buffer2: FileLines)
    requires buffer1.Valid() && buffer2.Valid()
    requires buffer1.Refetch().current.None? && buffer2.Refetch().current.None?
    ensures buffer1.Pending() == [] && buffer2.Pending() == []
    ensures buffer1.Refetch().Valid() && buffer1.Refetch().Pending() == []
    ensures buffer2.Refetch().Valid() && buffer2.Refetch().Pending() == []
  {
    var r1, r2 := buffer1.Refetch(), buffer2.Refetch();
    assert r1 == r1.(advance := buffer1.advance) && r2 == r2.(advance := buffer2.advance);
  }

  /**
   * One step of the iterator on two buffers with something pending: the row
   * it yields is the first row of the merge of what is pending, and the rest
   * of that merge is the merge of what is pending afterwards, which is shorter;
   * so rows yielded so far plus rows still to come stay the same total.
   */
  lemma StepAccounting(buffer1: FileLines, buffer2: FileLines, ignoreCase: bool,
                       emitted: seq<ResultRow>, total: seq<ResultRow>,
                       row: ResultRow, after1: FileLines, after2: FileLines)
    requires buffer1.Valid() && buffer2.Valid()
    requires emitted + MergeRows(buffer1.Pending(), buffer2.Pending(), ignoreCase) == total
    requires Step(BufferedText(buffer1.Refetch().current), BufferedText(buffer2.Refetch().current), ignoreCase)
             == Some((row, after1.advance, after2.advance))
    requires after1 == buffer1.Refetch().(advance := after1.advance)
    requires after2 == buffer2.Refetch().(advance := after2.advance)
    ensures after1.Valid() && after2.Valid()
    ensures after1.lines.items == buffer1.lines.items && after2.lines.items == buffer2.lines.items
    ensures MergeRows(buffer1.Pending(), buffer2.Pending(), ignoreCase)
            == [row] + MergeRows(after1.Pending(), after2.Pending(), ignoreCase)
    ensures |after1.Pending()| + |after2.Pending()| < |buffer1.Pending()| + |buffer2.Pending()|
    ensures (emitted + [row]) + MergeRows(after1.Pending(), after2.Pending(), ignoreCase) == total
  {
    var p1, p2 := buffer1.Pending(), buffer2.Pending();
    assert BufferedText(buffer1.Refetch().current) == Head(p1);
    assert BufferedText(buffer2.Refetch().current) == Head(p2);
    MergeRowsUnfold(p1, p2, ignoreCase);
    AppendAssociative(emitted, [row], MergeRows(after1.Pending(), after2.Pending(), ignoreCase));
  }

  /** Regrouping rows; stated apart so that `StepAccounting` needs only this instance. */
  lemma AppendAssociative(x: seq<ResultRow>, y: seq<ResultRow>, z: seq<ResultRow>)
    ensures (x + y) + z == x + (y + z)
  {
  }

  /**
   * Drives a fresh iterator to exhaustion, as the front ends' `for` loop
   * does, and gathers what it yields: the rows are exactly the reference
   * merge of the two inputs.
   */
  method Collect(input1: seq<ReadResult>, input2: seq<ReadResult>, config: Config)
    returns (rows: seq<ResultRow>)
    ensures rows == MergeRows(input1, input2, config.ignoreCase)
  {
    var iter := new FilePairLinesIterator(input1, input2, config);
    rows := [];
    while true
      invariant iter.Valid()
      invariant iter.config == config && iter.input1 == input1 && iter.input2 == input2
      invariant rows == iter.emitted
      decreases |iter.file1Lines.Pending()| + |iter.file2Lines.Pending()|
    {
      var row := iter.Next();
      if row.None? {
        break;
      }
      rows := rows + [row.value];
    }
  }
}
