# National League table cleaning, modelled in Dafny

The repository scrapes season tables of baseball's National League and
turns each raw table file (`<year>_Table_<n>.csv`) into tidy data. This
project models the cleaning logic in four scripts and proves what each
one does:

- `clean_all_nl_v2.py` (module `CleanV2`) reads every raw file as lines.
  It strips the lines, drops blank and junk lines (`History`, `→`, `←`) and
  the caption. Table 3 (standings) lines are split on commas. Tables 1, 2, 4
  and 5 (leaders) go through Python's `csv.reader`. Each file's records are
  appended to one of five per-table lists, the `OUT` table, modelled as the
  class `CleanV2.Out` with a `map` field.
- `parse_all_tables.py` (module `ParseAll`) is the earlier parser of the
  same files. It has no Ties or Payroll columns, keeps every csv row forced
  to five fields, and gathers one frame per file into the class
  `ParseAll.FrameStore`. Each table with frames is written as their
  concatenation. Module `Versions` relates the two standings parsers.
- `clean_nl_csvs.py` (module `CleanCsvs`) cleans one raw table read into a
  data frame:
  - it takes the year and table number from the file name;
  - it names the table;
  - it drops empty and header-echo rows;
  - it inserts `Year`;
  - it converts the text columns that look numeric with `tidy_numeric`.
- `cleaning_eda.py` (module `CleaningEda`) has `clean_numeric_column`. It
  maps `convert` over one column of a copied frame. `convert` strips
  commas and reads the first match of `\d+\.?\d*`.

Shared pieces:

- `Text` holds Python's `str.strip`, `split`, `replace` and `int()`, plus `to_int`.
- `Csv` is the excel-dialect state machine of CPython's `csv` reader.
- `RawTable` holds what the two parsers share: the file-name split, the junk filter, the standings segment rule and the leader-row padding.
- `Decimal` has exact decimal numbers. They stand in for the floats and ints pandas produces.
- `Frames` is a small data-frame model.

The three numeric readers are kept apart on purpose:

- `to_int` takes the first digit run.
- `tidy_numeric` filters characters, then parses strictly.
- `convert` takes the first match of `\d+\.?\d*`.

`CleaningEda.FirstNumberIntegerPart` proves how the first and last relate.

Both parsers, `clean_all_nl_v2.py` and `parse_all_tables.py`, stop at their
first failing file and write nothing. The model shows this with a `Result`:

- `MissingTableNumber`: the stem has fewer than three `_` segments, an IndexError.
- `BadYear`: the `int(year)` ValueError.
- `UnknownTable`: the KeyError of the table lookup.
- `CsvFailure`: the csv reader's error.

The errors keep the source's order of evaluation. In v2, `int(year)` and
`OUT[tbl]` are evaluated only when a record is built. The reader yields its
rows lazily, so a csv error comes after the rows before it
(`Csv.ReadPrefix`). For leader files, `parse_all_tables.py` reads the whole
file first, then converts the year and looks up the table unconditionally.
For its standings files, `int(year)` is evaluated once per accepted line, so
it fails only when some line is accepted.

`clean_nl_csvs.py` and `cleaning_eda.py` work differently: they write each
file's result inside their loop. Those loops are not modelled; the model
covers the work done on one file.

The quoted trailer `"Payroll","","",""` is accepted as a standings line:
`line.split(",")` keeps the quotes, so its first segment is `"Payroll"` with
the quote characters, not the bare label, and the line yields a record
(`RawTable.QuotedTrailerAccepted`).

## Model

| member | source | states |
|---|---|---|
| Text.ToIntFirstRun | 3.National_League_Cleaned/clean_all_nl_v2.py:37-41 | `to_int` is the value of the first maximal run of digits, wherever that run starts |
| Text.ToIntNone | 3.1.Parsing/parse_all_tables.py:22-25 | `_to_int` gives None exactly when the text has no digit |
| Text.ToIntThousands | 3.National_League_Cleaned/clean_all_nl_v2.py:39-41 | `to_int("1,544")` is 1: the run stops at the comma |
| Text.Strip | 3.National_League_Cleaned/clean_all_nl_v2.py:48 | a stripped line is empty or starts and ends with a non-space character, and is never longer than the line |
| Text.StripShape | 3.National_League_Cleaned/clean_all_nl_v2.py:48 | strip gives "" exactly on all-whitespace text, and otherwise the text between the first and the last non-space character |
| Text.StripIdempotent | 3.National_League_Cleaned/clean_all_nl_v2.py:48 | stripping a stripped line changes nothing |
| Text.StripNoSpace | 3.National_League_Cleaned/clean_all_nl_v2.py:54 | text without whitespace is its own strip |
| Text.StripDigits | 4.Further_clean_and_EDA/cleaning_eda.py:21 | stripping neither adds nor removes digits |
| Text.JoinSplit | 3.National_League_Cleaned/clean_all_nl_v2.py:54 | joining the pieces of `split(",")` with the separator gives the line back |
| Text.SplitJoin | 3.National_League_Cleaned/clean_all_nl_v2.py:54 | splitting a join of separator-free parts gives the parts back |
| Text.RemoveCharDigits | 4.Further_clean_and_EDA/cleaning_eda.py:21 | removing commas keeps whether the text has a digit |
| Text.PyIntDigits | 3.National_League_Cleaned/clean_all_nl_v2.py:58 | `int()` of a non-empty run of digits is its decimal value |
| Text.PyIntAround | 3.National_League_Cleaned/clean_all_nl_v2.py:58 | `int()` ignores surrounding whitespace and applies one optional sign to the digits after it |
| Text.PyIntBlank | 3.National_League_Cleaned/clean_all_nl_v2.py:58 | blank text is the ValueError |
| Text.PyIntRejects | 3.National_League_Cleaned/clean_all_nl_v2.py:58 | any non-digit in the stripped text, other than one leading sign, is the ValueError |
| Decimal.PyIntRender | 3.National_League_Cleaned/clean_all_nl_v2.py:58 | `int()` reads back the decimal rendering of every integer |
| RawTable.StemFields | 3.National_League_Cleaned/clean_all_nl_v2.py:44 | the year and table number are segments 0 and 2 of the stem split on `_`; there are none (the IndexError) exactly when the stem has fewer than three segments |
| RawTable.StemOfTableFile | 3.National_League_Cleaned/clean_all_nl_v2.py:44 | a stem `<year>_Table_<n>` gives exactly the year and n |
| RawTable.DropJunkMembers | 3.National_League_Cleaned/clean_all_nl_v2.py:50 | a line survives the junk filter exactly when it is an input line containing none of History, → and ← |
| RawTable.Body | 3.National_League_Cleaned/clean_all_nl_v2.py:53 | the caption is dropped: one line fewer, none from none |
| RawTable.NonBlank | 3.National_League_Cleaned/clean_all_nl_v2.py:54 | the kept segments are non-empty and no more than the segments |
| RawTable.NonBlankDropsBlank | 3.National_League_Cleaned/clean_all_nl_v2.py:54 | a blank segment is discarded, so later fields shift left |
| RawTable.PartsOfJoin | 3.National_League_Cleaned/clean_all_nl_v2.py:54 | the segments of a comma join of stripped, non-blank, comma-free fields are those fields |
| RawTable.AcceptedPartsMembers | 3.National_League_Cleaned/clean_all_nl_v2.py:54-56 | a segment list reaches a record exactly when it comes from a body line and has at least four segments, the first not "Payroll" |
| RawTable.QuotedTrailerAccepted | 3.National_League_Cleaned/clean_all_nl_v2.py:54-56 | the quoted trailer `"Payroll","","",""` keeps its quotes in every segment and is accepted |
| RawTable.PadAt | 3.National_League_Cleaned/clean_all_nl_v2.py:75 | after `r += [""] * 5` each of the first five positions holds the row's field, or "" where the row is short |
| Csv.ReadPrefixAgrees | 3.National_League_Cleaned/clean_all_nl_v2.py:71-72 | iterating the reader yields the rows of `list(csv.reader(...))` and stops with an error exactly when `list` raises it |
| Csv.EndOfLine | 3.National_League_Cleaned/clean_all_nl_v2.py:71 | at a line's end the reader is either back at the start of a record or still inside an open quoted field |
| Csv.ReadPlainLines | 3.National_League_Cleaned/clean_all_nl_v2.py:71 | lines without quotes or line breaks give one row each, the line split on commas |
| Csv.QuotedLine | 3.National_League_Cleaned/clean_all_nl_v2.py:71 | a line of quoted fields gives one row of the fields, with the commas inside the quotes kept |
| Csv.RuthRow | 3.National_League_Cleaned/clean_all_nl_v2.py:71-72 | `"Home Runs","Ruth, Babe","BOS","54","N/A"` reads as five fields |
| CleanV2.SchemaOf | 3.National_League_Cleaned/clean_all_nl_v2.py:23-35 | each table's columns start with Year and number at least four |
| CleanV2.SchemaCols | 3.National_League_Cleaned/clean_all_nl_v2.py:23-35 | tables 1 and 2 have the player columns, 3 the standings columns, 4 and 5 the team columns |
| CleanV2.CleanLinesOnePass | 3.National_League_Cleaned/clean_all_nl_v2.py:48-50 | the strip filter then the junk filter equal one pass keeping each stripped line that is neither blank nor junk, in order |
| CleanV2.CleanLinesShape | 3.National_League_Cleaned/clean_all_nl_v2.py:48-50 | every kept line is stripped, non-blank and not junk |
| CleanV2.CleanLinesFixed | 3.National_League_Cleaned/clean_all_nl_v2.py:48-50 | lines that are already clean are all kept, in order |
| CleanV2.At | 3.National_League_Cleaned/clean_all_nl_v2.py:63-65 | `parts[i] if len(parts) > i else None` is present exactly when index i exists |
| CleanV2.StandingOfLine | 3.National_League_Cleaned/clean_all_nl_v2.py:57-66 | a standings line's record has the team, `to_int` of the next three fields, and the fifth to seventh fields verbatim or None |
| CleanV2.KeptRowsMembers | 3.National_League_Cleaned/clean_all_nl_v2.py:73-74 | a csv row is recorded exactly when it has at least two fields and its first is not "Statistic" |
| CleanV2.LeaderFields | 3.National_League_Cleaned/clean_all_nl_v2.py:75-79 | player tables take fields 0-3 and team tables fields 0-2, "" where missing, nothing of the rest |
| CleanV2.StandingsFile | 3.National_League_Cleaned/clean_all_nl_v2.py:52-67 | a standings body fails only with the year error |
| CleanV2.LeadersFile | 3.National_League_Cleaned/clean_all_nl_v2.py:69-80 | a leader body that yields records belongs to one of the five tables |
| CleanV2.TableFile | 3.National_League_Cleaned/clean_all_nl_v2.py:52-80 | a file with records belongs to one of the five tables; the body never fails for want of a table number |
| CleanV2.FileRecords | 3.National_League_Cleaned/clean_all_nl_v2.py:43-44 | a file fails with the missing-table-number error exactly when its stem has fewer than three segments |
| CleanV2.FileRecordsYear | 3.National_League_Cleaned/clean_all_nl_v2.py:58-78 | every record's Year is `int` of the file name's first segment |
| CleanV2.FileRecordsShape | 3.National_League_Cleaned/clean_all_nl_v2.py:79-84 | every record has exactly the columns of its table's schema |
| CleanV2.CaptionOnly | 3.National_League_Cleaned/clean_all_nl_v2.py:53 | a file with at most one clean line yields no record and no error |
| CleanV2.UnknownTableFails | 3.National_League_Cleaned/clean_all_nl_v2.py:79-80 | a table number outside 1-5 never yields records; it fails at the lookup exactly when some row is kept |
| CleanV2.PlainLeaderFile | 3.National_League_Cleaned/clean_all_nl_v2.py:69-80 | a caption plus one plain leader line yields the one record of that line's comma fields |
| CleanV2.Deposit | 3.National_League_Cleaned/clean_all_nl_v2.py:80 | appending a file's records keeps the five table keys |
| CleanV2.DepositTable | 3.National_League_Cleaned/clean_all_nl_v2.py:80 | the records are appended to their own table and no other |
| CleanV2.CollectTables | 3.National_League_Cleaned/clean_all_nl_v2.py:43-80 | gathering succeeds exactly when every file does; then each table holds its earlier records followed by its files' records in order |
| CleanV2.RunIsConcatenation | 3.National_League_Cleaned/clean_all_nl_v2.py:43-80 | the script succeeds exactly when every file does; then each of the five tables holds its files' records in processing order |
| CleanV2.CollectFirstError | 3.National_League_Cleaned/clean_all_nl_v2.py:43-80 | gathering stops with the error of the first failing result |
| CleanV2.RunFirstError | 3.National_League_Cleaned/clean_all_nl_v2.py:43-80 | the script stops with the error of the first failing file |
| CleanV2.Out.StandingRecords | 3.National_League_Cleaned/clean_all_nl_v2.py:52-67 | the standings loop yields the records of the accepted lines, or the year error at the first one |
| CleanV2.Out.LeaderRecords | 3.National_League_Cleaned/clean_all_nl_v2.py:69-80 | the leader loop yields the padded records of the kept rows, or the first error in row order |
| CleanV2.Out.ProcessFile | 3.National_League_Cleaned/clean_all_nl_v2.py:43-80 | one file's records are appended to its table; a failing file leaves every list unchanged |
| CleanV2.Run | 3.National_League_Cleaned/clean_all_nl_v2.py:43-84 | the file loop gives the gathered lists of the specification, or the first file's error |
| ParseAll.TableEntry | 3.1.Parsing/parse_all_tables.py:12-18 | the Top 25 column is kept exactly for tables 3, 4 and 5 |
| ParseAll.TiesIgnored | 3.1.Parsing/parse_all_tables.py:51-62 | the fourth segment has no influence on the record |
| ParseAll.ShortStandingOfLine | 3.1.Parsing/parse_all_tables.py:51-62 | a standings record has the team, the numbers of fields 2 and 3, and fields 5 and 6 verbatim or None |
| ParseAll.StandingsFrame | 3.1.Parsing/parse_all_tables.py:45-65 | a standings body fails only with the year error |
| ParseAll.StandingsFrameAdded | 3.1.Parsing/parse_all_tables.py:64-65 | a frame is added exactly when some line is accepted, and it is never empty |
| ParseAll.PadTo5 | 3.1.Parsing/parse_all_tables.py:72 | every row is forced to exactly five fields |
| ParseAll.PadTo5Fields | 3.1.Parsing/parse_all_tables.py:72 | the five fields are the row's first five, "" where it is short |
| ParseAll.LeaderRowCount | 3.1.Parsing/parse_all_tables.py:72 | a leader frame has exactly one row per csv row |
| ParseAll.PlainLeaderRowCount | 3.1.Parsing/parse_all_tables.py:69-72 | a body of plain lines gives a frame with one row per line |
| ParseAll.LeaderRowFields | 3.1.Parsing/parse_all_tables.py:72-77 | player tables keep four fields and team tables five, "" where missing |
| ParseAll.LeadersFrame | 3.1.Parsing/parse_all_tables.py:68-78 | a leader body that succeeds always adds a frame and belongs to one of the five tables |
| ParseAll.TableFrame | 3.1.Parsing/parse_all_tables.py:41-78 | a file with a frame belongs to one of the five tables; the body never fails for want of a table number |
| ParseAll.FileFrame | 3.1.Parsing/parse_all_tables.py:28-29 | a file fails with the missing-table-number error exactly when its stem has fewer than three segments |
| ParseAll.FrameYear | 3.1.Parsing/parse_all_tables.py:56-75 | every row's Year is `int` of the file name's first segment |
| ParseAll.AddFrame | 3.1.Parsing/parse_all_tables.py:78 | appending a frame keeps the five table keys |
| ParseAll.AddFrameTable | 3.1.Parsing/parse_all_tables.py:78 | a frame is appended to its own table's list and no other |
| ParseAll.GatherTables | 3.1.Parsing/parse_all_tables.py:28-78 | gathering succeeds exactly when every file does; then each table's list is its earlier frames followed by its files' frames in order |
| ParseAll.RunWritesConcatenation | 3.1.Parsing/parse_all_tables.py:81-86 | a table is written exactly when it has frames, as their concatenation in processing order |
| ParseAll.GatherFirstError | 3.1.Parsing/parse_all_tables.py:28-78 | gathering stops with the error of the first failing result |
| ParseAll.RunFirstError | 3.1.Parsing/parse_all_tables.py:28-78 | the script stops with the error of the first failing file |
| ParseAll.FrameStore.StandingRecords | 3.1.Parsing/parse_all_tables.py:45-65 | the standings loop yields a frame of the accepted lines' records, none when there are none, or the year error |
| ParseAll.FrameStore.AddFile | 3.1.Parsing/parse_all_tables.py:28-78 | one file's frame, if any, is appended to its table; a failing file leaves every list unchanged |
| ParseAll.Run | 3.1.Parsing/parse_all_tables.py:28-86 | the file loop and the writing give the written tables of the specification, or the first file's error |
| Versions.ProjectStandings | 3.1.Parsing/parse_all_tables.py:51-62 | on the same accepted lines the earlier parser's records are the v2 records without Ties and Payroll |
| Versions.StandingsBodiesAgree | 3.1.Parsing/parse_all_tables.py:47-65 | on the same body the two standings parsers fail together and otherwise agree up to those two columns |
| Versions.StandingsAgree | 3.1.Parsing/parse_all_tables.py:45-65 | on a standings file of clean lines the earlier parser adds a frame exactly when v2 yields records, and the frame is those records projected |
| CleanCsvs.KeepNumericChars | 3.National_League_Cleaned/clean_nl_csvs.py:44 | the filter keeps only digits, ".", "+" and "-" |
| CleanCsvs.KeepNumericCharsFixed | 3.National_League_Cleaned/clean_nl_csvs.py:44 | text of kept characters only passes unchanged |
| CleanCsvs.KeepNumericCharsIdempotent | 3.National_League_Cleaned/clean_nl_csvs.py:44 | filtering twice equals filtering once |
| CleanCsvs.KeepNumericCharsOne | 3.National_League_Cleaned/clean_nl_csvs.py:44 | on one character the filter keeps it exactly when it is a digit, ".", "+" or "-" |
| CleanCsvs.KeepNumericCharsAppend | 3.National_League_Cleaned/clean_nl_csvs.py:44 | the filter works character by character: it distributes over concatenation |
| CleanCsvs.ParsePlaceholders | 3.National_League_Cleaned/clean_nl_csvs.py:47-49 | "" and "-" are not numbers, so mapping them to missing agrees with coercion |
| CleanCsvs.TidyIsParseOfFiltered | 3.National_League_Cleaned/clean_nl_csvs.py:42-49 | after the filter, the comma removal, strip and placeholder mapping change nothing: `tidy_numeric` is `to_numeric` of the filtered text |
| CleanCsvs.TidyThousands | 3.National_League_Cleaned/clean_nl_csvs.py:44-49 | digits with a thousands comma clean to the number of all the digits ("1,544" is 1544) |
| CleanCsvs.TidyAverage | 3.National_League_Cleaned/clean_nl_csvs.py:44-49 | ".362" cleans to 0.362 |
| CleanCsvs.TidyMissing | 3.National_League_Cleaned/clean_nl_csvs.py:47 | "—" and a missing cell clean to missing |
| CleanCsvs.TidyTwoPoints | 3.National_League_Cleaned/clean_nl_csvs.py:49 | a text with two decimal points becomes missing instead of raising |
| CleanCsvs.TidyTwoSigns | 3.National_League_Cleaned/clean_nl_csvs.py:49 | a text starting with "+-" becomes missing instead of raising |
| CleanCsvs.TidyIdempotent | 3.National_League_Cleaned/clean_nl_csvs.py:42-49 | cleaning the text of a cleaned number gives the same number |
| CleanCsvs.LogicalNameInjective | 3.National_League_Cleaned/clean_nl_csvs.py:53 | distinct table numbers get distinct logical names |
| CleanCsvs.FallbackSecond | 3.National_League_Cleaned/clean_nl_csvs.py:53 | a number outside 1-5 is named `table_<n>` |
| CleanCsvs.MatchAt | 3.National_League_Cleaned/clean_nl_csvs.py:52 | a match's year group is four digits and its table group is one or more digits |
| CleanCsvs.SearchFrom | 3.National_League_Cleaned/clean_nl_csvs.py:52 | a found year group is four digits |
| CleanCsvs.SearchLeftmost | 3.National_League_Cleaned/clean_nl_csvs.py:52 | the search returns the groups of the leftmost matching position |
| CleanCsvs.SearchNone | 3.National_League_Cleaned/clean_nl_csvs.py:52 | the search finds nothing exactly when no position matches |
| CleanCsvs.FileNameExample | 3.National_League_Cleaned/clean_nl_csvs.py:52 | `National_League/1901_Table_3.csv` gives the groups 1901 and 3 |
| CleanCsvs.FiltersKeepDataRows | 3.National_League_Cleaned/clean_nl_csvs.py:58-59 | the two row filters in a row keep exactly the rows that are neither all missing nor a header echo, in order |
| CleanCsvs.DataRowsMembers | 3.National_League_Cleaned/clean_nl_csvs.py:58-59 | a row survives exactly when it is not all missing and not a header echo |
| CleanCsvs.PreparedYear | 3.National_League_Cleaned/clean_nl_csvs.py:62 | Year is the first column on every surviving row, a number equal to the name's year, followed by the raw row |
| CleanCsvs.PartialColumn | 3.National_League_Cleaned/clean_nl_csvs.py:65-87 | when the loop reaches column j, its header and whether any of its cells has a digit are still those of the prepared frame |
| CleanCsvs.PartialStep | 3.National_League_Cleaned/clean_nl_csvs.py:65-87 | one loop step converts column j exactly when it qualifies |
| CleanCsvs.CleanedCells | 3.National_League_Cleaned/clean_nl_csvs.py:65-87 | a column is converted exactly when it is text and its lower-cased name is in the fixed set or some cell has a digit; other columns are unchanged |
| CleanCsvs.CleanedSettled | 3.National_League_Cleaned/clean_nl_csvs.py:67-87 | after cleaning no column qualifies any more |
| CleanCsvs.CleanTable | 3.National_League_Cleaned/clean_nl_csvs.py:52-87 | one file: a name that does not match fails, an existing Year column fails, otherwise the logical name and the cleaned prepared frame |
| CleaningEda.ScrubbedPlain | 4.Further_clean_and_EDA/cleaning_eda.py:21 | text without commas or whitespace is left as it is |
| CleaningEda.FirstNumberNone | 4.Further_clean_and_EDA/cleaning_eda.py:22-23 | there is no match exactly when the text has no digit |
| CleaningEda.ConvertMissing | 4.Further_clean_and_EDA/cleaning_eda.py:18-23 | a value becomes missing exactly when it was missing or has no digit; otherwise a number comes out and nothing raises |
| CleaningEda.ConvertThousands | 4.Further_clean_and_EDA/cleaning_eda.py:21-22 | "1,544" reads as 1544 |
| CleaningEda.ConvertLeadingPoint | 4.Further_clean_and_EDA/cleaning_eda.py:22 | ".362" reads as 362: the point is not part of the match |
| CleaningEda.SkipNonDigit | 4.Further_clean_and_EDA/cleaning_eda.py:21-23 | a leading character that is not a digit, comma or whitespace, such as "-" or ".", is skipped: "-5" reads as 5 |
| CleaningEda.FirstNumberNonNegative | 4.Further_clean_and_EDA/cleaning_eda.py:22 | the match never carries a sign |
| CleaningEda.FirstNumberIntegerPart | 4.Further_clean_and_EDA/cleaning_eda.py:22 | the match's integer part is what `to_int` reads from the same text, and one exists exactly when the other does |
| CleaningEda.RenderReads | 4.Further_clean_and_EDA/cleaning_eda.py:23 | a non-negative number converts to itself |
| CleaningEda.ConvertIdempotent | 4.Further_clean_and_EDA/cleaning_eda.py:18-23 | converting a converted value changes nothing |
| CleaningEda.CleanNumericColumn | 4.Further_clean_and_EDA/cleaning_eda.py:15-25 | only the named column (by default "#") changes, each cell converted, with rows and columns unchanged in number; a missing column is the KeyError |
| Frames.UniqueIndex | 4.Further_clean_and_EDA/cleaning_eda.py:25 | a column is selected by name exactly when one column has that name |
| Decimal.ParseRender | 3.National_League_Cleaned/clean_nl_csvs.py:49 | `to_numeric` of a number's plain rendering gives the number back |

## Left out

- File reading, globbing and writing. Each file is given as its stem and
  its lines, or as a frame, and the files as a sequence in processing
  order. That order is glob's, which is not chronological. The written
  CSVs are the returned per-table lists or maps.
- `pd.read_csv` quirks: `names=["raw"]` with `on_bad_lines="skip"` in
  `parse_all_tables.py`, type inference, and renaming duplicate columns.
  Lines come already split. For `clean_nl_csvs.py` the frame is given with
  each column already marked text or numeric, which stands for
  `is_string_dtype`.
- Python's `\d`, `int()` and `str.lower()` also accept non-ASCII digits and letters.
  The model accepts only ASCII digits and lower-cases only ASCII letters.
- `int()` also accepts `_` between digits. A year segment never holds
  `_`, since it comes from splitting on `_`.
- The csv reader's `field_size_limit` and NUL-character errors are not modelled.
- The clean_nl_csvs.py file loop is left out, including appending to an
  output file that already exists (lines 90-94).
  `CleanCsvs.CleanTable` models one iteration.
- CleanCsvs.TidyText: numbers are exact decimals (`Decimal.Dec`), not the
  int64 and float64 values `pd.to_numeric` returns. A value is not rounded
  to a float and has no width limit.
- CleaningEda.CleanNumericColumn: it does not model `round(3)` (line 29)
  or floats. A column name shared by several columns fails as
  `AmbiguousColumn` instead of the pandas error.
- The top level of cleaning_eda.py (lines 31-74) loads each CSV, prints
  its types and saves each cleaned frame right away. It is I/O around
  `clean_numeric_column`, which is the part modelled.
- The NaN count `print` (lines 26-27), the logging calls and the other
  `print` calls.
- Both scripts crash at a failing file before writing anything. So the
  records appended to `OUT` or `frames` before the crash cannot be seen.
  `ProcessFile` and `AddFile` leave the lists unchanged on error.
