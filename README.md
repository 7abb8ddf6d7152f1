# nodify: restructuring a flat schema listing, in Dafny

This project models the `Restruct` class of `modules/nodify.py` and proves
properties of the model. `Restruct` reads a delimiter-separated description of
databases, tables and columns, one record per line. It works in four steps:

1. It settles the delimiter on the first line. The configured delimiter is
   kept when it splits that line into at least three pieces. Otherwise the
   first of `","`, `"|"`, `".\t"` and `"_"` that does is used, and when none
   does the run fails.
2. It reads every following line until the input ends. Each line is split by
   the delimiter and each piece is stripped. A non-empty first slot makes a
   database, else a non-empty second slot a table, else a column with an
   integer or string type.
3. It keeps, for each of the five display slots, the widest value seen.
4. It writes one row per record: five cells, each centered to its slot's
   width, separated by the delimiter, ending with a line break.

The project has six files.

- `results.dfy` holds `Option` and `Result`, which stand in for Python's
  exceptions.
- `text.dfy` holds the pieces of Python's `str` the class relies on:
  - `split` with an explicit separator, with its join round trip and its
    leftmost-match characterisation;
  - `strip()` over the full `str.isspace` set;
  - ASCII `casefold()`;
  - the `"{:^w}"` centering format.
- `nodes.dfy` holds the record datatype, which replaces the `Node`,
  `Database`, `Table`, `Column`, `DataType`, `Integer` and `String` classes.
  It also holds the classification of a stripped line, which replaces the
  `multipledispatch` `load` overloads, and the display row of a record.
- `nodify.dfy` has two parts:
  - the pure specification of a whole pass (`Resolve`, `LoadAll`,
    `WidthsFrom`, `Restructure`, `Render`);
  - the class `Restruct`, whose fields `delimiter`, `colLen` (a five-slot
    array) and `objList` are updated in place by methods proved against that
    specification.
- `props.dfy` holds properties of whole passes.
- `scenarios.dfy` holds small concrete passes.

Three points of the code behave differently from what a reader might
expect, and the model follows the code in each:

- **The header is always skipped.** The test at `modules/nodify.py:173`
  compares the bool returned by `all(...)` with `""`. That comparison is
  always true, so the first line is always consumed as the header, even when
  it is itself a record. `Scenarios.FirstLineIsHeader` shows this on the
  three-line example `db1||||Main DB`, `|tbl1|||Users table`,
  `||col1|integer|ID column`. With delimiter `|`, only the table and the
  column are loaded: the database line is the header. The widths are
  therefore `[0, 4, 4, 7, 11]`, not `[3, 4, 4, 7, 11]`.
- **Candidate list.** The list at `modules/nodify.py:151` writes `"." "\t"`,
  which Python concatenates into the single candidate `".\t"`. The model's
  candidate list has four entries, exactly as written.
- **Unknown column type.** A column whose type token is neither `integer`
  nor `string` never gets a `dtype`. Reading `obj.dtype.name` at line 139
  then fails, after line 138 has already widened the column-name slot. The
  model reports `UnknownDataType` and reproduces that partial widening.

The input is the sequence of lines `readline()` would return, each with its
line break. Reading past the end gives `""`. The output is the sequence of
rows `table_output_cl` would write.

## Model

| member | source | states |
|---|---|---|
| Nodify.FirstFit | modules/nodify.py:150-157 | the result is the first candidate that splits the header into at least three pieces, or None exactly when no candidate does |
| Nodify.Restruct.DetermineDelimiter | modules/nodify.py:150-157 | the first-match loop over the four candidates returns exactly `FirstFit` over them |
| Nodify.Resolve | modules/nodify.py:168-171 | an empty configured delimiter fails; a fitting one is kept; otherwise the first fitting candidate is used, and resolution fails exactly when none fits; a resolved delimiter always fits the header, and one that changed is a candidate |
| Nodify.Restruct.ResolveDelimiter | modules/nodify.py:168-171 | the `delimiter` field ends as `Resolve` decides and is untouched when resolution fails |
| Properties.ResolvedDiffers | modules/nodify.py:170-171 | whenever resolution runs and succeeds, the delimiter it picks differs from the configured one and is a candidate |
| Properties.EmptyHeaderFails | modules/nodify.py:168-171 | an input whose first line is empty (in particular an empty input) fails, with the empty-separator error or with no delimiter found |
| Nodify.ContentFromSpec | modules/nodify.py:173-179 | the lines read from index i are the longest run of non-empty lines starting there, in order |
| Properties.ContentIsBody | modules/nodify.py:173-190 | when no later line is empty, every line after the first is read as content |
| Properties.HeaderOnlyChoosesDelimiter | modules/nodify.py:168-176 | two inputs that differ only in the first line, and resolve to the same delimiter, give the same pass |
| Properties.RecordsFollowLines | modules/nodify.py:173-190 | a completed pass holds one record per line from the second on, in input order, each that line's own parse |
| Nodes.ClassifyCases | modules/nodify.py:111-140 | both directions of each outcome: database iff slot 0 is non-empty; table iff slot 0 is empty and slot 1 is not; column iff both are empty, there are four pieces and the type token case-folds to integer or string; unknown type and index errors exactly in the remaining cases; the title is the last piece; the name is the kind's own slot; the type keeps its token |
| Nodes.KindOf | modules/nodify.py:182-187 | the kind of a line: a non-empty slot 0 is a database, else a non-empty slot 1 a table, else a column; a missing slot is an index error |
| Nodes.DataTypeOf | modules/nodify.py:131-136 | the data type a token names when compared case-insensitively with `integer` then `string`, keeping the token as its name; no type otherwise |
| Nodes.LoadNode | modules/nodify.py:111-140 | the three `load` overloads: the name from the kind's own slot, the title from the last piece, a column's type from slot 3; an index error or an unknown type otherwise |
| Nodes.Classify | modules/nodify.py:180-187 | the kind choice followed by its `load` overload; characterised case by case by `ClassifyCases` |
| Nodes.ClassifyDisplayRow | modules/nodify.py:196-206 | a record's display row classifies back to the record exactly when the record is consistent |
| Nodes.ClassifiedConsistent | modules/nodify.py:128-136 | every classified record is consistent: a database or table is named, and a column's type matches its case-folded token |
| Nodes.ClassifiedClean | modules/nodify.py:180 | records classified from stripped, separator-free pieces show only stripped, separator-free values |
| Nodes.DisplayRow | modules/nodify.py:196-206 | every record shows exactly five values |
| Nodify.Restruct.Load | modules/nodify.py:111-140 | the record loaded is the one classification gives; on success each slot the record fills is raised to its value's length; an index error changes nothing; an unknown type has raised only the column-name slot |
| Nodify.ParseLine | modules/nodify.py:180-187 | one content line split by the active delimiter, each piece stripped, then classified |
| Nodify.LineWidths | modules/nodify.py:111-140 | the widths after loading one line, whether it loads or fails, as `Load` leaves them |
| Nodify.LineWidthsSpec | modules/nodify.py:111-140 | a line that loads widens the widths as `WidthsFrom` does for its record; a line that fails changes no slot but the column-name slot, and that one only to the line's name value; an index error changes nothing |
| Nodify.LoadAll | modules/nodify.py:179-190 | the records of the content lines in order, or the error of the first line that fails; characterised by `LoadAllOk` and `LoadAllErr` |
| Nodify.StoppedAt | modules/nodify.py:179-190 | the state a load leaves when line k is its first failure: the records before it appended, and their widths widened as the failing line did |
| Nodify.Restruct.LoadLine | modules/nodify.py:180-187 | one line, split, stripped and loaded, gives the record `ParseLine` gives, and leaves exactly the widths `LineWidths` gives, on success and on both failures |
| Nodify.LoadAllOk | modules/nodify.py:179-190 | a successful load has one record per content line, each the line's own parse |
| Nodify.LoadAllErr | modules/nodify.py:179-190 | a failed load reports the error of the first line that does not parse, every earlier line having parsed |
| Nodify.Restruct.LoadNext | modules/nodify.py:179-190 | one pass of the loop: on success the record is appended, the records are those of the lines read so far and the widths are `WidthsFrom` over them; on failure the whole load fails with that line's error, that line is the first failure, the records are unchanged, and the widths are those of the earlier records widened as the failing line widened them |
| Nodify.Restruct.LoadContent | modules/nodify.py:173-190 | on success the loop appends exactly the records of the content lines and leaves the widths `WidthsFrom` the old widths over them; on failure it reports the first failing line's error and leaves the old records plus those of the lines before it, with the widths those records give widened as the failing line widened them; the old records stay a prefix and no width decreases |
| Nodify.Restruct.RestructDataArr | modules/nodify.py:160-193 | the new delimiter, records and widths are those `Restructure` computes from the old state; when resolution fails nothing changes; when a line fails, the delimiter is the resolved one and the records and widths are those the loop had reached at the first failing line; the records only grow and no width decreases |
| Nodify.Restructure | modules/nodify.py:160-193 | a whole pass: the delimiter resolved on the first line, the records of the following lines, and their widths from zero; or the resolution error, or the first failing line's error |
| Nodify.Restruct.constructor | modules/nodify.py:101-108 | the configured delimiter, five zero widths, no records |
| Nodify.WidthsFrom | modules/nodify.py:116-117 | there are five widths and none is below its starting value |
| Properties.WidthsAreMaxima | modules/nodify.py:107-140 | each width is the maximum of its start and of the lengths of every record's value in that slot, and is attained by its start or by some record |
| Properties.WidthsCompose | modules/nodify.py:107-140 | loading records in two runs leaves the same widths as loading them in one |
| Properties.CellLayout | modules/nodify.py:216-223 | in the table a pass writes, every cell is exactly its slot's width and strips back to the record's value in that slot |
| Nodify.Row | modules/nodify.py:217-223 | the row written for a record: its five cells centered to the slot widths, separated by the delimiter, then a line break |
| Nodify.Render | modules/nodify.py:216-223 | one row per record, in order |
| Nodify.Restruct.FormatRow | modules/nodify.py:217-223 | the row written for a record is its five centered cells joined by the delimiter, then a line break |
| Nodify.Restruct.TableOutput | modules/nodify.py:216-223 | the rows written are one `Row` per record, in order |
| Properties.ParsedClean | modules/nodify.py:180-187 | a loaded record is consistent and shows only stripped values free of the delimiter |
| Properties.SplitRow | modules/nodify.py:219-223 | with a one-character, non-whitespace delimiter, a clean record's row splits back into its cells, the line break on the last one |
| Properties.ParseRow | modules/nodify.py:180-187 | with such a delimiter, a consistent, clean record's row parses back into the record, whatever the widths |
| Properties.LoadRendered | modules/nodify.py:179-190 | the rows written for consistent, clean records load back into the same records |
| Properties.RenderRoundTrip | modules/nodify.py:160-223 | the table written for a completed pass, read again behind the same header with the delimiter the pass chose (one character, not whitespace), gives back the same delimiter, records and widths |
| Text.Split | modules/nodify.py:170 | a split always has at least one piece |
| Text.SplitJoin | modules/nodify.py:180 | joining the pieces of a split with the separator gives back the line |
| Text.SplitLeftmost | modules/nodify.py:180 | the pieces are the leftmost-match split: no occurrence starts inside a non-last piece, and the last piece has none |
| Text.SplitOfJoin | modules/nodify.py:180 | leftmost pieces joined by the separator split back into the same pieces |
| Text.SplitOfFree | modules/nodify.py:153 | a line without the separator splits into itself |
| Text.StripSpec | modules/nodify.py:180 | the stripped piece has no whitespace at either end and is the piece with whitespace-only ends removed |
| Text.Strip | modules/nodify.py:180 | Python's `strip()`: leading, then trailing whitespace removed; characterised by `StripSpec` |
| Text.StripOfPadded | modules/nodify.py:180 | stripping a stripped text with whitespace padding on both sides gives the text |
| Text.StripFree | modules/nodify.py:180 | stripping never introduces the separator |
| Nodes.TypeTokens | modules/nodify.py:131-134 | a type token folds to `integer` (or `string`) exactly when it is that word with each letter in either case |
| Text.CenterSpec | modules/nodify.py:220 | the cell is as wide as the width or the value, whichever is larger; the value sits at offset floor of (padding/2) and everything else is spaces |
| Text.Center | modules/nodify.py:220 | Python's `"{:^w}"`: the value unchanged when at least `w` wide, else padded with floor of half the padding on the left and the rest on the right; characterised by `CenterSpec` |
| Text.StripCenter | modules/nodify.py:220 | stripping a centered stripped value, with or without a trailing line break, gives the value |
| Scenarios.CommaHeaderResolves | modules/nodify.py:150-171 | the header `a,b,c` with configured `\|` resolves to `,` |
| Scenarios.FirstLineIsHeader | modules/nodify.py:173-176 | the three-line example loads only its second and third lines, with widths `[0, 4, 4, 7, 11]` |

## Left out

- Command-line parsing (`argument_input`, `modules/nodify.py:10-60`): argparse, path existence checks and their messages are outside the class.
- File and stdin reading, output file or stdout writing, `open`, `close` and `input_method` (`modules/nodify.py:143-147,162-165,192-193,210-214,224-225`): the input is a sequence of lines and the output a sequence of rows.
- The `print` notices of `determine_delimiter` (`modules/nodify.py:154,156`): `SystemExit` is the `NoDelimiter` error value and the message text is not modelled.
- The `multipledispatch` dispatch: it is a foreign library, replaced by a `match` on the record kind.
- Nodify.Restruct.constructor: only the delimiter argument is modelled; `filepath`, `output_file` and `flow` only choose the I/O left out above.
- Text.CaseFold: case folding covers ASCII letters only, not Unicode's full `casefold` table.
- Properties.RenderRoundTrip: proved only for one-character delimiters that are not whitespace; a two-character delimiter such as `.\t`, or one a cell's padding could complete, is not covered.
- test_restructure.py is not part of this model: it relies on data files that are not available. Its claims appear only as the properties above (the delimiter change, the missing delimiter, record kinds).
