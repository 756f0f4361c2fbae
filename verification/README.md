# hpycc spraying core, modelled in Dafny

hpycc sends ("sprays") a pandas table to an HPCC cluster. It does this by
generating ECL source text. This project models that text generation and the
decisions around it. The modelled parts are:

- **The record set.** This is the ECL schema `STRING <col>;STRING <col>…`. The
  older `spray.py` variant copies column labels unchanged. The
  `filerunning/sendfiles.py` variant sanitises each label to `[A-Za-z0-9]`,
  names anonymous columns `unnamed<N>`, prefixes a leading digit with `num`,
  and appends the first free numeric suffix.
- **Cell escaping and row serialisation.** Each cell is quote-escaped and
  wrapped in single quotes. The rows become the `{c,…},{c,…}` body of an inline
  `DATASET`. Rows `a` to `b` are taken by position, both ends included and
  clipped to the table. This is what pandas' `.loc[a:b]` does on the default
  integer index that every `read_csv` frame has.
- **Chunk planning and temporary names.** A chunk is named
  `TEMPHPYCC::<target>from<s>to<e>`. The submit, concatenate and delete
  scripts are byte-exact, and the order of the steps is modelled too.
- **Output file names in `save_outputs`.** These are the `zip_longest` choice,
  the prefix, and truncation to the parsed outputs.
- **The `eclcc -syntax` check.** This covers the command line and how the
  compiler's standard error is classified.

Files:

- `wrappers.dfy`: Option and Result.
- `strings.dfy`: Python string helpers, namely `str(n)`, `sep.join`, ASCII
  `.lower()` and substring `in`.
- `table.dfy`: cells, tables, `.loc` and `.iloc` slices, and the rows literal.
- `ecl.dfy`: ECL string literals and temporary names.
- `spray.dfy`: `hpycc/spray.py`.
- `sendfiles.dfy`: `hpycc/filerunning/sendfiles.py`.
- `save.dfy`: `hpycc/save.py`.
- `syntaxcheck.dfy`: `hpycc/utils/syntaxcheck.py`.

A cell is `Missing` (pandas NaN) or `Text(s)`. `astype(str)` renders `Missing`
as `"nan"`.

Where the code and its documentation disagree, the model follows the code:

- `save_outputs` documents `filenames=None` as "use the output names", but the
  code raises.
- `_send_file_in_chunks` is meant to write temporary files, but it writes every
  chunk to the target.

Both behaviours are modelled as written, with a corrected version beside each
(see Findings).

`_stringify_rows` and `make_recordset` overwrite their slice or frame column by
column in place. Their models do the same:

- `Spray.StringifyRows` is a loop over the columns. Each pass rewrites one
  column of a `seq` of rows.
- `SendFiles.MakeRecordSet` is a method that changes a `Frame` object, with a
  `while` loop for the suffix search.

## Model

| member | source | states |
|---|---|---|
| Spray.GetType | hpycc/spray.py:43-71 | the ECL type is `STRING` for every dtype |
| Spray.DictKeys | hpycc/spray.py:188-189 | `dtypes.to_dict()` keys: exactly the labels of the frame, each once |
| Spray.DictKeysPrefix | hpycc/spray.py:188-189 | the keys keep the order of first appearance: the keys of any leading part of the labels are a prefix of all the keys |
| Spray.DictKeysOfDistinct | hpycc/spray.py:188-189 | with distinct labels the dictionary keeps the column order |
| Spray.MakeRecordSet | hpycc/spray.py:188-190 | the record set is `STRING <key>` for every dictionary key, in key order, joined by `;`: the dtype never changes the type |
| Spray.RecordSetOnePerColumn | hpycc/spray.py:188-190 | the record set is one `STRING <label>` entry per column, in column order, labels unmodified, joined by `;` |
| Spray.StringifyCell | hpycc/spray.py:98-101 | a stringified cell is a single-quoted literal in which every inner `'` has a backslash in front, and whose body, with `\'` read as `'`, is the cell text, or empty for a missing value |
| Spray.StringifyCellReadsBack | hpycc/spray.py:98-101 | an ECL reader gets back exactly the cell text (empty for a missing value) from a stringified cell without backslashes, and stops at its closing quote |
| Spray.StringifiedRows | hpycc/spray.py:93-108 | the rows literal of a slice is empty exactly when the inclusive slice holds no row, and otherwise opens with `{` and closes with `}` |
| Spray.QuoteColumn | hpycc/spray.py:99-101 | assigning to `sliced_df[col]` replaces column col of every row by its quoted literal and keeps every other cell |
| Spray.LabelFoundAgain | hpycc/spray.py:99 | a label found again before or after its own column is a repeated label |
| Spray.LabelNotFoundAgain | hpycc/spray.py:99 | a label found nowhere else extends the prefix of labels that name one column only |
| Spray.StringifyRows | hpycc/spray.py:93-108 | fails with `RepeatedLabel` exactly when some label names two columns (then `sliced_df[col]` is a frame and `.str` raises); otherwise the column-by-column rewrite of the slice gives the rows literal of the quoted cells of rows start..start+num, both ends included |
| Spray.SubmitScript | hpycc/spray.py:34-39 | the script starts `a := DATASET([<data>], {<rs>});\nOUTPUT(a, ,'<file>' , EXPIRE(1)`, ends `);`, ends `, OVERWRITE);` exactly when overwrite is set, and has no other text |
| Spray.ReadFile | hpycc/spray.py:217-218 | the read of one file starts `DATASET('<name>'` and ends `}, THOR)` |
| Spray.ReadFileFields | hpycc/spray.py:217-218 | between the name and the closing `}, THOR)` of a read stands exactly `, {<record set>`, and nothing else is in it |
| Spray.ReadList | hpycc/spray.py:217-219 | no files give empty text, and one file gives just its read |
| Spray.ReadListSnoc | hpycc/spray.py:217-219 | one more file adds one more `DATASET('<name>', {<rs>}, THOR)` after `+\n`, so files are read in the given order |
| Spray.ConcatScript | hpycc/spray.py:221-225 | the script is `a := <reads>;\nOUTPUT(a, ,'<target>' `, then `, OVERWRITE` exactly when overwrite is set, then `);` |
| Spray.SubmitSteps | hpycc/spray.py:152-165 | one submission per chunk, in chunk order, writing the chunk's rows to that chunk's temp name |
| Spray.TempNames | hpycc/spray.py:155-157 | one name per chunk, each `TEMPHPYCC::<target>from` followed by exactly `<start>to<start+num>` |
| Spray.SprayPlan | hpycc/spray.py:149-171 | 2k+1 steps for k chunks |
| Spray.SprayFile | hpycc/spray.py:140-171 | a source that is neither a frame nor a path raises `TypeError`; a repeated label raises as soon as the first chunk's rows are produced, that is exactly when there is at least one chunk; otherwise the result is the spray plan, with 2k+1 steps for k chunks |
| Spray.SprayPlanSubmits | hpycc/spray.py:152-165 | step i, for i < k, submits chunk i's stringified rows under the record set, writing them to chunk i's temp name |
| Spray.SprayPlanConcat | hpycc/spray.py:155-168 | step k concatenates into the target exactly the k files the submissions wrote, in the same order, under the same record set |
| Spray.SprayPlanDeletes | hpycc/spray.py:170-171 | steps k+1..2k delete each file a submission wrote, in the same order |
| Spray.ChunkPlanStarts | hpycc/spray.py:149-153 | under the assumed chunk shape every chunk lies inside the table and chunk starts strictly increase |
| Spray.TempNamesDistinct | hpycc/spray.py:155-157 | temp names of the chunks of one plan are pairwise distinct |
| Spray.ChunkRowsRepeatBoundaries | hpycc/spray.py:93 | inclusive `.loc` slices of k contiguous (start, count) chunks hold k-1 rows more than the table |
| Spray.SprayedRowsDiffer | hpycc/spray.py:93 | with two or more chunks the sprayed rows are not the table's rows |
| Spray.CorrectedChunksCoverRows | hpycc/spray.py:93 | end-exclusive slices of the same chunks concatenate back to exactly the table's rows |
| Table.Loc | hpycc/filerunning/sendfiles.py:107 | `.loc[lo:hi]` on the default integer index: rows lo..hi by position, both ends included, clipped to the table, empty when lo > hi |
| Table.ILoc | hpycc/spray.py:93 | the corrected, end-exclusive slice, clipped to the table; `spray.py:93` itself uses the inclusive `.loc` (see Findings) |
| Table.LocSplit | hpycc/filerunning/sendfiles.py:107 | two adjacent inclusive slices concatenate to the slice spanning both |
| Table.RowsLiteralAppend | hpycc/filerunning/sendfiles.py:107-108 | the rows literal of two blocks is the two literals joined by a comma |
| Table.RowsLiteralShape | hpycc/spray.py:105-108 | the rows literal is empty exactly when there are no rows, and otherwise opens with `{` and closes with `}` |
| Table.LocAllFlatten | hpycc/filerunning/sendfiles.py:58-61 | contiguous inclusive ranges, sliced and concatenated, are the one slice from the first start to the last end |
| Strings.NatToString | hpycc/filerunning/sendfiles.py:128 | `str(n)` is a non-empty run of decimal digits with no leading zero: `0` is `"0"` and any other number starts with a non-zero digit |
| Strings.NatToStringRoundTrip | hpycc/filerunning/sendfiles.py:67 | the decimal digits of `str(n)` read back as n |
| Strings.NatToStringInjective | hpycc/filerunning/sendfiles.py:136-138 | different numbers have different decimal strings |
| Strings.JoinAppend | hpycc/filerunning/sendfiles.py:149 | joining a concatenation is joining the parts with one separator between them |
| Strings.JoinEnds | hpycc/spray.py:105-108 | a join of non-empty parts starts with the first part's first character and ends with the last part's last character |
| Ecl.UnescapeEscapeQuotes | hpycc/spray.py:99-100 | reading `\'` back as `'` undoes the escaping |
| Ecl.EscapeQuotes | hpycc/spray.py:100 | escaping is empty only for empty text, never starts with a quote, and puts a backslash before every quote |
| Ecl.QuoteLiteral | hpycc/spray.py:99-101 | the literal is wrapped in single quotes, every inner `'` has a backslash in front, and its body, with `\'` read as `'`, reads back to the text |
| Ecl.ReadQuoteLiteral | hpycc/spray.py:99-101 | for text without backslashes, an ECL reader gets exactly the text back from the literal and leaves whatever follows the closing quote |
| Ecl.EscapeQuotesIsEscapeLiteral | hpycc/spray.py:99-100 | on text without backslashes, escaping only `'` is the same as escaping both `'` and `\` |
| Ecl.TrailingBackslashBreaksLiteral | hpycc/filerunning/sendfiles.py:146 | an ECL reader does not get `x\` back from its literal as written |
| Ecl.ReadEscapedBody | hpycc/spray.py:99-101 | with backslashes escaped too, an ECL reader recovers the text and the rest of the input |
| Ecl.ReadQuoteLiteralEscaped | hpycc/spray.py:99-101 | the corrected literal reads back to exactly the text, whatever follows it |
| Ecl.DigitsBeforeTo | hpycc/spray.py:155-156 | a digit run followed by `to` splits `<a>to<b>` uniquely |
| Ecl.TempName | hpycc/spray.py:155-156 | the name is `TEMPHPYCC::<target>from` followed by exactly `<start>to<end>`, so it ends `to<end>` and is longer than the target |
| Ecl.TempNameInjective | hpycc/filerunning/sendfiles.py:67 | equal temp names for one target mean equal start and end |
| SendFiles.Sanitize | hpycc/filerunning/sendfiles.py:126 | the result has only `[A-Za-z0-9]` and is no longer than the label |
| SendFiles.SanitizeKeepsSafeNames | hpycc/filerunning/sendfiles.py:126 | a label already in `[A-Za-z0-9]` is kept unchanged |
| SendFiles.SanitizeIdempotent | hpycc/filerunning/sendfiles.py:126 | sanitising twice is sanitising once |
| SendFiles.SafeName | hpycc/filerunning/sendfiles.py:126-131 | the safe name is an ECL identifier, whether it is the plain sanitised label, `num` + label when the label starts with a digit, or `unnamed<N>` when the label is empty |
| SendFiles.SafeNameIgnoresSeparators | hpycc/filerunning/sendfiles.py:126-131 | separators in a label do not change its safe name, and a leading digit earns it `num`: `2 Cost!` and `2Cost` both give `num2Cost` |
| SendFiles.UnnamedCount | hpycc/filerunning/sendfiles.py:121-129 | the anonymous-column counter never exceeds the number of columns seen |
| SendFiles.UnnamedCountSnoc | hpycc/filerunning/sendfiles.py:127-129 | the counter advances exactly on a column whose sanitised label is empty |
| SendFiles.SuffixInjective | hpycc/filerunning/sendfiles.py:135-137 | suffixes `''`, `1`, `2`, … are pairwise different |
| SendFiles.CandidatesBound | hpycc/filerunning/sendfiles.py:136-137 | while entries with suffixes below k are taken there are at least k entries, so the suffix loop ends |
| SendFiles.FirstFree | hpycc/filerunning/sendfiles.py:135-138 | the chosen suffix is the least one whose entry is not yet in the record set |
| SendFiles.Schema | hpycc/filerunning/sendfiles.py:122-138 | one entry per column |
| SendFiles.SchemaPrefix | hpycc/filerunning/sendfiles.py:122-138 | the entries of the first m columns do not depend on the later ones |
| SendFiles.SchemaDistinct | hpycc/filerunning/sendfiles.py:135-138 | record-set entries are pairwise distinct |
| SendFiles.SchemaEntry | hpycc/filerunning/sendfiles.py:132-138 | entry i is `STRING ` followed by an identifier. That identifier is column i's safe name, counting only the anonymous columns before it, plus the least suffix not already taken by entries 0..i-1 |
| SendFiles.SanitizeAppend | hpycc/filerunning/sendfiles.py:126 | `re.sub` works character by character: the sanitised concatenation is the concatenation of the sanitised parts |
| SendFiles.SanitizeChar | hpycc/filerunning/sendfiles.py:126 | one character is kept exactly when it is an ASCII letter or digit, and dropped otherwise |
| SendFiles.SanitizeDropsSeparators | hpycc/filerunning/sendfiles.py:126 | letters and digits around two other characters: only the letters and digits are left, in order |
| SendFiles.SecondSuffix | hpycc/filerunning/sendfiles.py:135-137 | when the plain entry is already taken, and only it, the loop settles on suffix 1 |
| SendFiles.SchemaPair | hpycc/filerunning/sendfiles.py:122-138 | for two columns the first gets its safe name with no suffix, and the second gets its own safe name plus the least suffix the first leaves free |
| SendFiles.CollidingNamesGetSuffix | hpycc/filerunning/sendfiles.py:126-138 | two labels whose sanitised name is the same non-empty name starting with a digit give `STRING num<name>` and `STRING num<name>1`; with `SafeNameIgnoresSeparators` this is `2 Cost!` and `2Cost` giving `num2Cost` and `num2Cost1` |
| SendFiles.NormalizeCell | hpycc/filerunning/sendfiles.py:141-146 | every cell becomes a quoted literal in which every inner `'` has a backslash in front, whose body reads back to empty for a missing value or a `nan`/`na`/`null` text in any letter case, and to the cell text otherwise |
| SendFiles.NormalizeCellReadsBack | hpycc/filerunning/sendfiles.py:141-146 | an ECL reader gets back exactly the text of a normalised cell without backslashes (empty for a missing value or a null marker), and stops at its closing quote |
| SendFiles.Frame.constructor | hpycc/filerunning/sendfiles.py:42 | the frame read from the csv, with every row as wide as the header |
| SendFiles.UniqueSuffix | hpycc/filerunning/sendfiles.py:135-137 | the `while` loop stops at the least suffix whose entry is free |
| SendFiles.ColumnEntry | hpycc/filerunning/sendfiles.py:123-138 | one loop iteration appends the schema entry of the next column and advances the anonymous counter |
| SendFiles.NormalizeColumn | hpycc/filerunning/sendfiles.py:141-146 | column `col` is normalised in every row; all other cells are unchanged |
| SendFiles.NormalizeColumnInPlace | hpycc/filerunning/sendfiles.py:141-146 | the frame's column `col` is rewritten in place, its labels are kept, and the columns before it stay normalised |
| SendFiles.MakeRecordSet | hpycc/filerunning/sendfiles.py:113-151 | the labels are unchanged, every cell is normalised in place, and the result is the distinct schema entries joined by `;` |
| SendFiles.InteriorBreaks | hpycc/filerunning/sendfiles.py:59-61 | `break_positions[1:-1]`: all positions but the first and last, empty for fewer than three |
| SendFiles.ChunkBounds | hpycc/filerunning/sendfiles.py:58-61 | starts and ends pair up; the first start is 0, the last end is the row count, and each later start is the previous end + 1 |
| SendFiles.ChunkBoundsContiguous | hpycc/filerunning/sendfiles.py:58-61 | with sorted breaks inside the table each chunk starts one row after the previous one ends |
| SendFiles.ChunkBoundsRanges | hpycc/filerunning/sendfiles.py:58-61 | with strictly increasing breaks before the last row every chunk is a non-empty range of existing rows |
| Table.ContiguousSpan | hpycc/filerunning/sendfiles.py:58-61 | in contiguous ranges the last range ends no earlier than the first, and the span from first start to last end is not inverted |
| SendFiles.MakeRowsSplit | hpycc/filerunning/sendfiles.py:107-108 | the rows text of a..c is the rows text of a..b, a comma, then the rows text of b+1..c |
| SendFiles.MakeRows | hpycc/filerunning/sendfiles.py:106-110 | the comma-join of `{c1,…,ck}` over rows start..end, both ends included and clipped to the table; its shape is stated by `MakeRowsShape` and its split at a comma by `MakeRowsSplit` |
| SendFiles.MakeRowsShape | hpycc/filerunning/sendfiles.py:106-110 | the rows text is empty exactly when the inclusive range selects no row, and otherwise opens with `{` and closes with `}` |
| SendFiles.ChunksCoverRows | hpycc/filerunning/sendfiles.py:58-71 | with sorted breaks inside the table the chunk slices concatenate to exactly the table's rows |
| SendFiles.ChunkLiteralsJoin | hpycc/filerunning/sendfiles.py:71 | the comma-join of the chunk literals of contiguous ranges is the literal of the whole span |
| SendFiles.ChunkLiterals | hpycc/filerunning/sendfiles.py:66-71 | one rows literal per chunk |
| SendFiles.ChunkLiteralsNonEmpty | hpycc/filerunning/sendfiles.py:66-71 | when every chunk starts inside the table, no chunk literal is empty |
| SendFiles.ChunkedRowsMatchDirect | hpycc/filerunning/sendfiles.py:45-71 | chunked rows, joined by commas, carry the same text as `make_rows(df, 0, len(df))` |
| SendFiles.SendDataScript | hpycc/filerunning/sendfiles.py:154-158 | `send_data`'s script; `SendDataScriptMatchesSpray` states that it is byte for byte `Spray.SubmitScript` of the same rows, record set, target and flag |
| SendFiles.SendDataScriptMatchesSpray | hpycc/filerunning/sendfiles.py:154-158 | `send_data`'s script is byte for byte the submit script of `spray.py`, so it has the prefix, flag and length stated for `Spray.SubmitScript` |
| SendFiles.DeleteListSnoc | hpycc/filerunning/sendfiles.py:90-93 | one more name adds one more `STD.File.DeleteLogicalFile('<name>')` after `;`, in order |
| SendFiles.DeleteList | hpycc/filerunning/sendfiles.py:90-93 | no names give empty text, and one name gives just its `STD.File.DeleteLogicalFile('<name>')` call |
| SendFiles.ConcatFilesScript | hpycc/filerunning/sendfiles.py:79-94 | `concat_files`' script; what it is, byte for byte, is stated by `ConcatFilesScriptMatchesSpray` |
| SendFiles.ConcatFilesScriptMatchesSpray | hpycc/filerunning/sendfiles.py:79-94 | without delete the script is the concatenation script of `spray.py`; with delete it is followed by `\n\nIMPORT std;\n`, the delete calls and a final `;` |
| SendFiles.ChunkNames | hpycc/filerunning/sendfiles.py:65-70 | one temp name per chunk |
| SendFiles.ChunkSends | hpycc/filerunning/sendfiles.py:71-72 | one `send_data` per chunk, each to the destination given for that chunk; its script is stated by `ChunkSendsScripts` |
| SendFiles.ChunkSendsScripts | hpycc/filerunning/sendfiles.py:71-72 | chunk i's send writes `make_rows` of chunk i's range under the record set to its destination |
| SendFiles.ChunkedSubmissions | hpycc/filerunning/sendfiles.py:54-76 | one submission per chunk, then the concatenation |
| SendFiles.SendFileInChunks | hpycc/filerunning/sendfiles.py:54-76 | the loop over zipped starts and ends gives, in order, one `send_data` per chunk and then one `concat_files` of the collected names |
| SendFiles.SendPlan | hpycc/filerunning/sendfiles.py:45-49 | up to `chunk_size` rows: exactly one submission of all rows to the target; above it: one per chunk and a final concatenation into the target |
| SendFiles.SendFileInternal | hpycc/filerunning/sendfiles.py:34-51 | the frame's cells are normalised in place, the labels are kept, and the submissions are the plan for the record set of the labels |
| SendFiles.ChunkedSubmissionsParts | hpycc/filerunning/sendfiles.py:66-74 | as written, every step before the last is a `send_data` to the target itself, and the last one concatenates the chunk temp names |
| SendFiles.ChunkedSubmissionsReadUnwrittenFiles | hpycc/filerunning/sendfiles.py:72-74 | as written, no chunk is written to any file the concatenation reads |
| SendFiles.CorrectedChunkedSubmissions | hpycc/filerunning/sendfiles.py:67-74 | one submission per chunk, then the concatenation; which rows each one carries is stated by `CorrectedChunksCarryRows` |
| SendFiles.CorrectedChunkScripts | hpycc/filerunning/sendfiles.py:67-72 | in the corrected plan chunk i's send writes chunk i's `make_rows` under the record set, one send per chunk literal |
| SendFiles.CorrectedChunksCarryRows | hpycc/filerunning/sendfiles.py:45-72 | in the corrected plan chunk i's send writes chunk i's `make_rows`, and these literals joined by commas are exactly `make_rows(df, 0, len(df))`, the rows the unchunked branch sends |
| SendFiles.CorrectedChunkedSubmissionsParts | hpycc/filerunning/sendfiles.py:67-74 | corrected, chunk i is sent to temp name i, and the last step concatenates exactly those names into the target |
| SendFiles.ChunkNamesDistinct | hpycc/filerunning/sendfiles.py:58-67 | with strictly increasing breaks every chunk has its own temp name |
| SendFiles.CorrectedChunksFeedConcat | hpycc/filerunning/sendfiles.py:67-74 | corrected, the concatenation into the target reads exactly the files the chunks wrote, in order, and they are distinct |
| Save.ChooseFilenames | hpycc/save.py:99-100 | the chosen list runs to the longer input; position i holds the given name when it is non-empty, else the i-th default, else nothing |
| Save.SaveOutputs | hpycc/save.py:98-115 | `filenames=None` raises; a truthy prefix with an empty surplus name raises; otherwise one name per dataset in order, the prefix (when truthy) followed by the given non-empty name or `<name>.csv`, each paired with its dataset |
| Save.DefaultFilenamesFail | hpycc/save.py:99-100 | with the default `filenames=None` nothing is saved; the call fails |
| Save.CorrectedSaveOutputs | hpycc/save.py:66-70 | treats an absent list as an empty one and agrees with the original everywhere else |
| Save.CorrectedDefaultNames | hpycc/save.py:66-70 | corrected, no file names give `<prefix><name>.csv` for every output, in order |
| Save.SurplusFilenamesIgnored | hpycc/save.py:104-115 | non-empty file names beyond the outputs change nothing |
| SyntaxCheck.Command | hpycc/utils/syntaxcheck.py:35-38 | the command starts `eclcc -syntax `, has `-legacy ` next exactly when legacy is set, then a single space when there is no repo or `-I <repo>` when there is one, and ends with ` <script>`; its length accounts for every piece |
| SyntaxCheck.CommandDeterminesServer | hpycc/utils/syntaxcheck.py:35-38 | the command determines the legacy and repo settings |
| SyntaxCheck.Classify | hpycc/utils/syntaxcheck.py:43-50 | empty stderr passes; `: error` in any case fails compilation; otherwise `: warning` passes with warnings; any other output is unhandled feedback |
| SyntaxCheck.ErrorBeatsWarning | hpycc/utils/syntaxcheck.py:43-44 | for every stderr holding `: error` in any letter case the script does not compile and the check raises, whether or not a warning marker is there too |
| SyntaxCheck.WarningsAlonePass | hpycc/utils/syntaxcheck.py:45-46 | for every stderr holding `: warning` but no `: error`, in any letter case, the check passes with warnings and does not raise |
| SyntaxCheck.MixedCaseError | hpycc/utils/syntaxcheck.py:43-44 | example: `a: Warning; b: ERROR` does not compile |
| SyntaxCheck.MixedCaseWarning | hpycc/utils/syntaxcheck.py:45-46 | example: `x: Warning` passes with warnings |
| SyntaxCheck.Check | hpycc/utils/syntaxcheck.py:26-50 | a missing file stops before any command; otherwise the command is built from the settings and it raises exactly when stderr is non-empty and holds an error or no warning |

## Left out

- Thread pool (`spray.py:159-165`): concurrency is not modelled. `Spray.SprayFile` models each worker's submission as carried out.
- `Spray.SprayFile`: as written, `executor.submit` passes five arguments to `_spray_stringified_data`, which takes six. Every worker would raise a `TypeError` that stays inside its never-inspected future, so no chunk would actually be written. The model gives the planned scripts instead.
- `make_chunks` is not part of this model. Its output is an input: `Spray.ChunkPlan` gives the (start, count) shape assumed for `spray.py`, and the break positions of `sendfiles.py` are free.
- `pd.read_csv` (latin encoding, header renaming): the table or `Frame` it produces is an input.
- `SendFiles.MakeRecordSet` and `SendFiles.SendFileInternal` require distinct column labels, because their frame always comes from `read_csv`, which renames duplicate headers. `Spray.SprayFile` handles repeated labels, since it also accepts a frame built by the caller.
- `Spray.StringifyRows` and `Spray.SprayFile` require every row to be as wide as the header, as a DataFrame is.
- The `fillna(0)` branches (`spray.py:102-103`, `sendfiles.py:147-148`): the type mapper always answers `STRING`, so they are unreachable.
- `Table.Loc`, `Spray.StringifyRows` and `Spray.SprayFile` slice rows by position. This equals `.loc[a:b]` only on the default integer index (`RangeIndex`). Every `read_csv` frame has that index, but a caller's DataFrame passed to `spray_file` with another index is not modelled, nor is the `_stringify_rows` docstring's claim that it "ignores the index".
- pandas dtypes, numeric columns and float rendering: every cell is text or missing, and missing renders as `nan`.
- Lowercasing in `IsNullMarker` and `HasError`/`HasWarning` is ASCII only. Python's `.lower()` also folds non-ASCII letters, which cannot produce the ASCII markers.
- Connection and transport: `run_ecl_string`, `run_command`, `run_ecl_script` and `delete_logical_file` are abstract. The model only says which scripts and deletions are asked for.
- File I/O: temp script files, `os.remove`, `to_csv`, `print` and logging. `os.path.isfile` and the compiler's standard error are inputs to `SyntaxCheck.Check`.
- `os.path.join(directory, name)` in `save_outputs`: the model stops at the chosen name.
- The `UserWarning` objects in `save_outputs`: they are built but never raised, so they have no effect.
- `None` entries inside a `filenames` list are not modelled. File names are strings, and the empty string stands for a falsy name.
- The regex extraction and `parse_xml` in `save_outputs`: the (name, content) pairs are an input.
- `save_output`, `save_logical_file` and `hpycc/scriptrunning/runscript.py` are thin wrappers and are not modelled.

## Findings

| source | as written | input that shows it | evidently intended | confidence | as-written member | corrected member |
|---|---|---|---|---|---|---|
| hpycc/spray.py:93 | `df.loc[start:start+num]` includes both ends | 25 rows in chunks (0,10),(10,10),(20,5): rows 10 and 20 are sprayed twice | each chunk holds rows start..start+num-1 | high, not executed | Spray.SprayedRowsDiffer | Spray.CorrectedChunksCoverRows |
| hpycc/spray.py:99-101 | only `'` is escaped, not `\` (the same at `hpycc/filerunning/sendfiles.py` line 146) | the cell `x\` becomes `'x\'`, where the quote is read as escaped | escape `\` as `\\` before escaping `'` | high, not executed | Ecl.TrailingBackslashBreaksLiteral | Ecl.ReadQuoteLiteralEscaped |
| hpycc/filerunning/sendfiles.py:72 | every chunk is sent to `target_name` | any table longer than `chunk_size` | send each chunk to its `target_name_tmp`, which `concat_files` reads | high, not executed | SendFiles.ChunkedSubmissionsReadUnwrittenFiles | SendFiles.CorrectedChunksFeedConcat |
| hpycc/save.py:99-100 | `zip_longest(None, …)` with the default `filenames=None` | `save_outputs(conn, script)` | no names given means every output is named `<output>.csv` | high, not executed | Save.DefaultFilenamesFail | Save.CorrectedDefaultNames |
