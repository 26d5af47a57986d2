# rcomm merge core, modelled in Dafny

`rcomm` reimplements the Unix `comm` utility as a Rust library, `src/lib.rs`.
Two line-sorted inputs are walked with one cursor each. Every line is reported
exactly once, in one of three columns:

- column 0: lines only in the first input;
- column 1: lines only in the second input;
- column 2: lines in both. Such a row carries the first input's text.

The library exposes this as an iterator, `FilePairLinesIterator`. Each call of
`next` does three things:

1. It refills the buffered line of every side whose advance flag is set.
2. It stops when both buffers are empty.
3. Otherwise it classifies the two buffered lines with
   `FilePair::should_advance_cursor`, emits one `ResultRow` and stores the two
   advance flags for the next call.

Lines are compared with Rust's `<` on strings. Under `ignore_case` the
comparison is made on their lower-cased forms. A row is displayed as its
separator (a tab) repeated `column` times, followed by its text. A builder,
`CreateConfig`, assembles the `Config` flags.

The model is split into these modules:

| module | file | what it holds |
|---|---|---|
| `Base` | `base.dfy` | `Option` and the `u8` newtype (0..255) |
| `Strings` | `strings.dfy` | string order `Less`, ASCII lower-casing, the comparison key |
| `Settings` | `settings.dfy` | `Config` and the `CreateConfig` builder, as values |
| `Rows` | `rows.dfy` | `ResultRow` and its display |
| `LineSources` | `line_sources.dfy` | an input's line sequence and its buffer (`FileLines`) |
| `Comm` | `comm.dfy` | the classifier, one merge step as a function, and the reference merge `MergeRows` |
| `CommIterator` | `comm_iterator.dfy` | the iterator as a class whose `Next` updates its two buffers in place |
| `CommProperties` | `comm_properties.dfy` | whole-run guarantees, proved about `MergeRows` |
| `CommExamples` | `comm_examples.dfy` | concrete runs |

The iterator keeps two ghost values:

- `emitted`: the rows it has yielded so far;
- `total`: the reference merge of the two whole inputs.

Its invariant `Valid` says that the rows yielded so far, followed by the merge
of the reads still pending, equal `total`. `Next` preserves this invariant, and
`Collect` drives the iterator to exhaustion. Together they prove that the
iterator yields exactly `MergeRows(input1, input2, ignoreCase)`. Every
whole-run property in `CommProperties` therefore holds for the iterator too.

Each input is modelled as the finite sequence of reads its line iterator will
yield. A read is either `Ok(text)` or `Err`.

### Behaviour worth noting

The model follows the code in each case.

- **A failed line read is not fatal.** A buffered `Err` is treated as the
  empty line `""` (`src/lib.rs:145-166`). The merge goes on as if that line
  were empty.
- **Column tags and indentation.** Lines found in both inputs are tagged 2 and
  displayed after two tabs. Lines found only in the second input are tagged 1
  and displayed after one tab (`src/lib.rs:174-176`, `222`).
- **The suppression flags are stored but never applied.** `next` does not
  read `suppress_column_*`. The merge's output depends on `ignore_case` alone.
  `Collect`'s contract states this: its result is a function of the inputs and
  `config.ignoreCase` only.

## Model

| member | source | states |
|---|---|---|
| `Settings.CreateConfig.New` | src/lib.rs:23-25 | The default builder has `ignore_case` off and no column suppressed. |
| `Settings.CreateConfig.IgnoreCase` | src/lib.rs:27-30 | Sets the case flag to `value` and leaves every suppression flag as it was. |
| `Settings.CreateConfig.SuppressColumn` | src/lib.rs:32-48 | For column 1, 2 or 3, sets that flag to `value`. Every other flag and the case flag are untouched. Any other column number returns the builder unchanged. |
| `Settings.CreateConfig.Create` | src/lib.rs:50-57 | The `Config` carries the builder's case flag and the same suppression flag for every column number. |
| `Settings.BuilderChain` | src/lib.rs:22-58 | The chain new, ignore_case, then columns 1, 2 and 3, and the same calls in reverse order, both yield exactly the requested four flags. |
| `Settings.IgnoreCaseCommutes` | src/lib.rs:27-48 | Setting the case flag and setting a column's flag give the same builder in either order. |
| `Settings.SuppressColumnsCommute` | src/lib.rs:32-48 | Setting two different columns' flags gives the same builder in either order, and of two settings of one column the later wins. With the previous row, any order of the builder calls gives the same `Config`. |
| `Strings.LessIrreflexive` | src/lib.rs:94-100 | No string is below itself under the string order used for comparison. |
| `Strings.LessAsymmetric` | src/lib.rs:94-100 | If `a < b` then not `b < a`. This is why `advance1` and `advance2` are never both set. |
| `Strings.LessConnected` | src/lib.rs:94-100 | Two strings are equal or ordered one way or the other. This is why neither side being smaller means the lines are equal. |
| `Strings.LessFirstDifference` | src/lib.rs:94-100 | `Less`, the model of Rust's `<` on strings, holds exactly when the two strings share a prefix of some length `k` and then either the first string ends while the second goes on, or the first string's next character is below the second's. |
| `Strings.LessTransitive` | src/lib.rs:94-100 | The string order is transitive. Together with the three rows above, it is a strict total order. |
| `Strings.CompareKey` | src/lib.rs:93-101 | The key a line is compared on has the line's length. It is the line itself without `ignore_case`, and its character-by-character lower-cased form with it. |
| `Strings.LowerChar` | src/lib.rs:94 | Lower-casing leaves no ASCII capital and keeps every other character. A capital becomes the lower-case letter at the same position in the alphabet. |
| `Strings.Lower` | src/lib.rs:94 | Lower-casing keeps the length and lower-cases each character in place. |
| `Comm.ShouldAdvanceCursor` | src/lib.rs:86-115 | With both lines present: tag 0 iff the first key is smaller, tag 1 iff the second key is smaller, tag 2 iff the keys are equal, with flags (true,false), (false,true) and (true,true) respectively. With one side only: (true,false,0) or (false,true,1). With none: (false,false,0). Some side advances iff some line is present, and only a present side advances. |
| `LineSources.LineText` | src/lib.rs:147-150 | A successful read gives its line and a failed read gives the empty line. `CommProperties.MergeReadErrorsAsEmptyLines` proves that a whole run treats a failed read exactly like an empty line. |
| `Comm.BufferedText` | src/lib.rs:145-166 | A buffered side has a line exactly when it holds a read, and that line is the read's `LineText`. `CommProperties.MergeReadErrorsAsEmptyLines` is the run-level property of this conversion. |
| `Comm.Step` | src/lib.rs:140-178 | No row iff both buffered lines are absent. Otherwise the row has column at most 2 and a tab separator. A tag-0 row carries line 1, a tag-1 row carries line 2, and a tag-2 row carries line 1 while both keys are equal. Each tag comes with the flags the code stores and the key order that selects it. |
| `Comm.MergeRows` | src/lib.rs:127-180 | The reference run of the iterator. It yields no rows iff both inputs are empty, and at most one row per input line in total. |
| `LineSources.LineSource.Next` | src/lib.rs:130 | Pulling a line yields nothing iff no reads remain, and then changes nothing. Otherwise it yields the first remaining read and leaves the others. |
| `LineSources.FileLines.Refetch` | src/lib.rs:129-135 | After the conditional refetch, the buffer holds the first pending read (absent iff nothing is pending). Keeping it loses nothing, and advancing past it drops exactly that read. The flag and the underlying input are unchanged. |
| `LineSources.FileLines.FromFile` | src/lib.rs:190-196 | A fresh buffer is consistent and has the whole input pending. |
| `CommIterator.FilePairLinesIterator.constructor` | src/lib.rs:77-83 | A fresh iterator has both inputs pending in full, nothing yielded, and its invariant established. |
| `CommIterator.FilePairLinesIterator.Next` | src/lib.rs:127-180 | Returns `None` iff nothing is pending on either side. Each buffer becomes its refetched form, with the flag `Step` gives when a row is yielded and the old flag otherwise. A yielded row is the row of `Step` on the refetched buffers, and it is appended to the rows yielded so far. Each row strictly shrinks what is pending. The invariant (rows so far plus the merge of what is pending equal the whole merge) is kept. |
| `CommIterator.StepAccounting` | src/lib.rs:129-178 | One step on buffers with something pending yields the first row of the merge of what is pending. What is pending afterwards is strictly shorter and merges to the rest. |
| `CommIterator.ExhaustedStep` | src/lib.rs:140-142 | When both refetched buffers are empty, nothing was pending and nothing is pending afterwards. |
| `CommIterator.Collect` | src/lib.rs:124-181 | Driving a fresh iterator until it yields `None` gives exactly `MergeRows` of the two inputs under the configured case mode, independent of the suppression flags. |
| `CommProperties.MergeFirstSmaller` | src/lib.rs:103-104 | A first-side line whose key is below the second side's next line (or with the second side empty) is yielded first, tagged 0. Only the first side moves on. |
| `CommProperties.MergeSecondSmaller` | src/lib.rs:105-106 | A second-side line whose key is below the first side's next line (or with the first side empty) is yielded first, tagged 1. Only the second side moves on. |
| `CommProperties.MergeEqualHeads` | src/lib.rs:107-108 | Next lines with equal keys give one common row, tagged 2, with the first side's text, and both sides move on. |
| `CommProperties.MergeReproducesFirst` | src/lib.rs:168-178 | The texts of the rows tagged 0 or 2, in order, are exactly the first input's lines. |
| `CommProperties.MergeReproducesSecondKeys` | src/lib.rs:168-178 | The rows tagged 1 or 2, in order, match the second input line for line under the comparison key. |
| `CommProperties.KeysCaseSensitive` | src/lib.rs:95 | Without `ignore_case` a line's comparison key is the line itself. |
| `CommProperties.MergeReproducesSecond` | src/lib.rs:168-178 | Without `ignore_case`, the texts of the rows tagged 1 or 2, in order, are exactly the second input's lines. |
| `CommProperties.MergeLengthBounds` | src/lib.rs:127-180 | A run yields at least as many rows as each input has lines and at most as many as both together, so the iterator stops after at most as many rows as both inputs have lines. |
| `CommProperties.MergeOnlySecond` | src/lib.rs:112 | With an empty first input, every line of the second is yielded in order, tagged 1. |
| `CommProperties.MergeOnlyFirst` | src/lib.rs:111 | With an empty second input, every line of the first is yielded in order, tagged 0. |
| `CommProperties.MergeReadErrorsAsEmptyLines` | src/lib.rs:145-166 | A failed read is not reported. The run is identical to the run in which every failed read is an empty line. |
| `CommProperties.StepSymmetric` | src/lib.rs:91-113 | A case-sensitive step on exchanged lines yields the same row text with tags 0 and 1 exchanged, and the two flags exchanged. |
| `CommProperties.MergeSymmetric` | src/lib.rs:127-180 | Without `ignore_case`, exchanging the inputs yields the same rows with tags 0 and 1 exchanged. |
| `CommProperties.MergeFirstText` | src/lib.rs:174-176 | The first row yielded carries the first pending line of one of the two sides. |
| `CommProperties.MergeSorted` | src/lib.rs:91-113 | If both inputs are sorted under the comparison in use, the rows' texts come out sorted. |
| `CommProperties.Texts` | src/lib.rs:145-166 | The text of each read, with a failed read as the empty line, position by position. |
| `CommProperties.ErrorsAsEmpty` | src/lib.rs:147-150 | Each read replaced by a successful read of the text the merge uses for it. |
| `Rows.Repeat` | src/lib.rs:222 | `separator.repeat(n)` is n times as long as the separator, starts with the separator when n > 0, and repeats itself every separator length. Together these make it exactly n copies of the separator. |
| `Rows.Render` | src/lib.rs:217-226 | For any separator, a displayed row is `Repeat(separator, column)`, that is `column` copies of the separator, followed by the row's text, which ends the line. |
| `Rows.RenderTabs` | src/lib.rs:219-224 | With the tab separator, a row displays as `column` tabs, then its text. |
| `Rows.RenderRoundTrip` | src/lib.rs:217-226 | Counting a displayed line's leading tabs gives back the row's column, and the rest is its text, whenever the text does not start with a tab. |
| `CommExamples.FruitExample` | src/lib.rs:127-180 | apple/banana/cherry against banana/cherry/date gives apple (0), banana (2), cherry (2), date (1). |
| `CommExamples.FruitRendering` | src/lib.rs:217-226 | Those rows display as `apple`, two tabs then `banana`, and one tab then `date`. |
| `CommExamples.IgnoreCaseExample` | src/lib.rs:93-94 | Under `ignore_case`, `Apple` against `apple` is one common row showing `Apple`. |
| `CommExamples.CaseSensitiveExample` | src/lib.rs:95-100 | Without `ignore_case`, `Apple` against `apple` is `Apple` (0) then `apple` (1). |
| `CommExamples.ReadErrorExample` | src/lib.rs:145-166 | A failed read against an empty line is one common row with empty text. |

## Left out

- The command-line front ends (`src/main.rs`, `src/bin/rcomm_so.rs`) are not part of this model. They parse arguments, open files and write rows to standard output.
- File reading is not modelled: `File`, `BufReader` and `Lines`, including line-terminator stripping. Each input is the finite sequence of reads its line iterator yields, already split into lines.
- A reader that keeps failing forever is not modelled. Inputs are finite sequences, so every run in the model ends. The library itself does not end on such a reader. A directory opened as a file on Linux is one: every read fails. `next` pulls the failed read (`src/lib.rs:129-131`), treats it as an empty line (`src/lib.rs:145-150`) and yields a row (`src/lib.rs:168-174`). It does this on every call, so iteration never stops, as far as the code shows.
- `Strings.Lower`, `Strings.LowerChar`: only ASCII letters are lower-cased. Other capitals, such as 'É', are kept as they are. Rust's `to_lowercase` follows Unicode case mapping, which can also change the length of a string.
- Column suppression is not applied, because the library never applies it. The flags are only stored in `Config`.
- The `u8` column tag is never computed with arithmetic, so no overflow case exists. The display converts it to a count with `as usize`, which `Render` models as a `nat`.
- The last arm of the tag match in `next` (`_ => None`, `src/lib.rs:177`) cannot be reached, because the classifier only returns tags 0, 1 and 2. `Next` proves the arm unreachable and yields no row for it.
- `Display` writes through a `fmt::Formatter` and can fail with a formatter error. `Render` models only the string it writes.
