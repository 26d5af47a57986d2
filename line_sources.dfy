/**
 * One input side: the lazy line sequence (`Lines<BufReader<File>>`) and the
 * buffer the merge keeps for it (`FileLines`).
 */
module LineSources {
  import opened Base

  /** What one pull of the line sequence yields: a line, or a failed read. */
  datatype ReadResult = Ok(text: string) | Err

  /** The text the merge uses for a buffered read: a failed read counts as the empty line. */
  function LineText(r: ReadResult): (t: string)
    ensures r.Ok? ==> t == r.text
    ensures r.Err? ==> t == ""
  {
    match r
    case Ok(text) => text
    case Err => ""
  }

  /**
   * The lazy, forward-only line sequence of one input: every read the input
   * will yield, in order, and how many of them have been pulled.
   */
  datatype LineSource = LineSource(items: seq<ReadResult>, pos: nat)
  {
    /** The reads not yet pulled. */
    function Remaining(): seq<ReadResult>
    {
      if pos <= |items| then items[pos..] else []
    }

    /**
     * `Iterator::next`: the next read and the advanced sequence; at the end
     * it yields nothing and stays where it is.
     */
    function Next(): (r: (Option<ReadResult>, LineSource))
      ensures r.1.items == items
      ensures r.0.None? <==> Remaining() == []
      ensures r.0.Some? ==> Remaining() == [r.0.value] + r.1.Remaining()
      ensures r.0.None? ==> r.1 == this
    {
      if pos < |items| then (Some(items[pos]), this.(pos := pos + 1)) else (None, this)
    }
  }

  /**
   * `FileLines`: the line sequence, the buffered current read (absent before
   * the first pull and after the end) and whether the next step pulls again.
   */
  datatype FileLines = FileLines(lines: LineSource, current: Option<ReadResult>, advance: bool)
  {
    /** A buffer that will not be refilled has an absent line only once its input is exhausted. */
    predicate Valid()
    {
      !advance && current.None? ==> lines.Remaining() == []
    }

    /**
     * The reads of this side the merge has not consumed yet: the buffered
     * read when the next step keeps it, then everything not yet pulled.
     */
    function Pending(): seq<ReadResult>
    {
      if advance || current.None? then lines.Remaining() else [current.value] + lines.Remaining()
    }

    /**
     * The conditional refetch at the start of each step: a side whose flag is
     * set pulls its next read into the buffer. Afterwards the buffer holds the
     * first pending read, and no pending read is lost or reordered.
     */
    function Refetch(): (r: FileLines)
      requires Valid()
      ensures r.lines.items == lines.items && r.advance == advance
      ensures r.current == if Pending() == [] then None else Some(Pending()[0])
      ensures r.(advance := false).Valid() && r.(advance := true).Valid()
      ensures r.(advance := false).Pending() == Pending()
      ensures r.(advance := true).Pending() == if Pending() == [] then [] else Pending()[1..]
    {
      if advance then
        var (next, rest) := lines.Next();
        FileLines(rest, next, advance)
      else
        this
    }

    /** `FileLines::from_file`: nothing buffered yet, and the first step pulls. */
    static function FromFile(input: seq<ReadResult>): (f: FileLines)
      ensures f.Valid() && f.lines.items == input
      ensures f.Pending() == input
    {
      FileLines(LineSource(input, 0), None, true)
    }
  }
}
