/**
 * The merge configuration and its builder (`Config` and `CreateConfig`).
 * Both are plain records; the builder's methods take the record by value
 * and return an updated copy.
 */
module Settings {
  import opened Base

  /** The flag of the three numbered `column`: flags exist for columns 1, 2 and 3 only. */
  predicate ColumnFlag(column: u8, flag1: bool, flag2: bool, flag3: bool)
  {
    if column == 1 then flag1
    else if column == 2 then flag2
    else if column == 3 then flag3
    else false
  }

  /** The configuration handed to the merge iterator. */
  datatype Config = Config(
    ignoreCase: bool,
    suppressColumn1: bool,
    suppressColumn2: bool,
    suppressColumn3: bool)
  {
    /** The suppression flag numbered `column`; no flag exists for other numbers. */
    predicate Suppressed(column: u8)
    {
      ColumnFlag(column, suppressColumn1, suppressColumn2, suppressColumn3)
    }
  }

  /** The builder; its default value has every flag off. */
  datatype CreateConfig = CreateConfig(
    ignoreCase: bool,
    suppressColumn1: bool,
    suppressColumn2: bool,
    suppressColumn3: bool)
  {
    predicate Suppressed(column: u8)
    {
      ColumnFlag(column, suppressColumn1, suppressColumn2, suppressColumn3)
    }

    /** `CreateConfig::new`: the default builder. */
    static function New(): (b: CreateConfig)
      ensures !b.ignoreCase
      ensures forall column: u8 :: !b.Suppressed(column)
    {
      CreateConfig(false, false, false, false)
    }

    /** `ignore_case(value)`: sets the case flag and nothing else. */
    function IgnoreCase(value: bool): (b: CreateConfig)
      ensures b.ignoreCase == value
      ensures forall column: u8 :: b.Suppressed(column) == Suppressed(column)
    {
      this.(ignoreCase := value)
    }

    /**
     * `suppress_column(column, value)`: sets the flag numbered `column` when
     * it is 1, 2 or 3, and returns the builder unchanged for any other number.
     */
    function SuppressColumn(column: u8, value: bool): (b: CreateConfig)
      ensures b.ignoreCase == ignoreCase
      ensures 1 <= column <= 3 ==> b.Suppressed(column) == value
      ensures forall other: u8 :: other != column ==> b.Suppressed(other) == Suppressed(other)
      ensures !(1 <= column <= 3) ==> b == this
    {
      match column
      case 1 => this.(suppressColumn1 := value)
      case 2 => this.(suppressColumn2 := value)
      case 3 => this.(suppressColumn3 := value)
      case _ => this
    }

    /** `create`: a `Config` carrying the builder's four flags. */
    function Create(): (c: Config)
      ensures c.ignoreCase == ignoreCase
      ensures forall column: u8 :: c.Suppressed(column) == Suppressed(column)
    {
      Config(ignoreCase, suppressColumn1, suppressColumn2, suppressColumn3)
    }
  }

  /**
   * The builder chain the command-line front ends run, and the same calls
   * in reverse order, give exactly the requested flags. The two commutation
   * lemmas below carry this over to any order of the four calls.
   */
  lemma BuilderChain(ignoreCase: bool, column1: bool, column2: bool, column3: bool)
    ensures CreateConfig.New().IgnoreCase(ignoreCase)
              .SuppressColumn(1, column1).SuppressColumn(2, column2).SuppressColumn(3, column3)
              .Create()
            == Config(ignoreCase, column1, column2, column3)
    ensures CreateConfig.New()
              .SuppressColumn(3, column3).SuppressColumn(2, column2).SuppressColumn(1, column1)
              .IgnoreCase(ignoreCase).Create()
            == Config(ignoreCase, column1, column2, column3)
  {
  }

  /** Setting the case flag and setting a column's flag commute. */
  lemma IgnoreCaseCommutes(builder: CreateConfig, value: bool, column: u8, suppress: bool)
    ensures builder.IgnoreCase(value).SuppressColumn(column, suppress)
            == builder.SuppressColumn(column, suppress).IgnoreCase(value)
  {
  }

  /**
   * Setting two different columns' flags commutes, and of two settings of
   * the same column the later one wins.
   */
  lemma SuppressColumnsCommute(builder: CreateConfig, column: u8, value: bool, other: u8, otherValue: bool)
    ensures column != other ==>
              builder.SuppressColumn(column, value).SuppressColumn(other, otherValue)
              == builder.SuppressColumn(other, otherValue).SuppressColumn(column, value)
    ensures builder.SuppressColumn(column, value).SuppressColumn(column, otherValue)
            == builder.SuppressColumn(column, otherValue)
  {
  }
}
