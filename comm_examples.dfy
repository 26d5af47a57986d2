/** Concrete runs of the merge, worked out by the verifier. */
module CommExamples {
  import opened Strings
  import opened Rows
  import opened LineSources
  import opened Comm
  import opened CommProperties

  /**
   * Two sorted inputs sharing two lines: the common lines are tagged 2 and
   * the second-only line is tagged 1.
   */
  lemma FruitExample()
    ensures
      var rows := MergeRows([Ok("apple"), Ok("banana"), Ok("cherry")], [Ok("banana"), Ok("cherry"), Ok("date")], false);
      rows == [ResultRow("apple", 0, Tab), ResultRow("banana", 2, Tab), ResultRow("cherry", 2, Tab), ResultRow("date", 1, Tab)]
  {
    var first := [Ok("apple"), Ok("banana"), Ok("cherry")];
    var date := [Ok("date")];
    var cherry := [Ok("cherry")] + date;
    var banana := [Ok("banana")] + cherry;
    assert banana == [Ok("banana"), Ok("cherry"), Ok("date")];
    assert first == [Ok("apple")] + ([Ok("banana")] + ([Ok("cherry")] + []));
    calc {
      MergeRows(first, banana, false);
      { assert Less("apple", "banana"); MergeFirstSmaller(Ok("apple"), [Ok("banana")] + ([Ok("cherry")] + []), banana, false); }
      [ResultRow("apple", 0, Tab)] + MergeRows([Ok("banana")] + ([Ok("cherry")] + []), banana, false);
      { MergeEqualHeads(Ok("banana"), [Ok("cherry")] + [], Ok("banana"), cherry, false); }
      [ResultRow("apple", 0, Tab)] + ([ResultRow("banana", 2, Tab)] + MergeRows([Ok("cherry")] + [], cherry, false));
      { MergeEqualHeads(Ok("cherry"), [], Ok("cherry"), date, false); }
      [ResultRow("apple", 0, Tab)] + ([ResultRow("banana", 2, Tab)] + ([ResultRow("cherry", 2, Tab)] + MergeRows([], date, false)));
      { MergeSecondSmaller([], Ok("date"), [], false); assert date == [Ok("date")] + []; }
      [ResultRow("apple", 0, Tab)] + ([ResultRow("banana", 2, Tab)] + ([ResultRow("cherry", 2, Tab)] + ([ResultRow("date", 1, Tab)] + MergeRows([], [], false))));
      [ResultRow("apple", 0, Tab), ResultRow("banana", 2, Tab), ResultRow("cherry", 2, Tab), ResultRow("date", 1, Tab)];
    }
  }

  /** How the rows of `FruitExample` are displayed. */
  lemma FruitRendering()
    ensures Render(ResultRow("apple", 0, Tab)) == "apple"
    ensures Render(ResultRow("banana", 2, Tab)) == "\t\tbanana"
    ensures Render(ResultRow("date", 1, Tab)) == "\tdate"
  {
    RenderTabs(ResultRow("banana", 2, Tab));
    RenderTabs(ResultRow("date", 1, Tab));
  }

  /**
   * Under `ignore_case` two lines differing only in case are common, and the
   * row shows the first input's spelling.
   */
  lemma IgnoreCaseExample()
    ensures MergeRows([Ok("Apple")], [Ok("apple")], true) == [ResultRow("Apple", 2, Tab)]
  {
    assert Lower("Apple") == "apple";
    MergeEqualHeads(Ok("Apple"), [], Ok("apple"), [], true);
    assert [Ok("Apple")] + [] == [Ok("Apple")] && [Ok("apple")] + [] == [Ok("apple")];
  }

  /** Without `ignore_case` the same two lines are two rows, the upper-case one first. */
  lemma CaseSensitiveExample()
    ensures MergeRows([Ok("Apple")], [Ok("apple")], false) == [ResultRow("Apple", 0, Tab), ResultRow("apple", 1, Tab)]
  {
    assert Less("Apple", "apple");
    MergeFirstSmaller(Ok("Apple"), [], [Ok("apple")], false);
    MergeSecondSmaller([], Ok("apple"), [], false);
    assert [Ok("Apple")] + [] == [Ok("Apple")] && [Ok("apple")] + [] == [Ok("apple")];
  }

  /** A failed read on the first input matches an empty line of the second as a common line. */
  lemma ReadErrorExample()
    ensures MergeRows([Err], [Ok("")], false) == [ResultRow("", 2, Tab)]
  {
    MergeEqualHeads(Err, [], Ok(""), [], false);
    assert [Err] + [] == [Err] && [Ok("")] + [] == [Ok("")];
  }
}
