# Judicial lookup triage — a verified model

The repository collects the answers of a CPF lookup service (one JSON document
per searched CPF, each listing the court cases found for it), consolidates
them into one table, and shows that table in an interactive viewer. This
project models the logic under that glue:

- `loader.dfy` — the batch loader (`load_data` in `main.py`). It walks the
  directory, keeps three counters, and flattens every case into one row tagged
  with its document's `chave_pesquisa` and `data_consulta`. It is written as
  an imperative method with loop invariants. The method is proved against the
  functions `Flatten` and `Tally`, and the loader's properties are proved
  about those functions.
- `clean.dfy` — the batch normaliser (`clean_data` in `main.py`). It adds the
  parsed filing date and its year, and turns the claim value into a number
  (0 when missing or unparsable). It raises `KeyError` when a non-empty table
  lacks one of the two columns.
- `dates.dfy` — `pd.to_datetime(..., format='%d/%m/%Y', errors='coerce')`:
  - a Gregorian calendar validator (leap-year rule);
  - the range of a nanosecond pandas Timestamp;
  - a parse/format round trip.
- `numbers.dfy` — the decimal spellings `pd.to_numeric(..., errors='coerce')`
  reads, the viewer's comma-to-point rewrite of claim values, and the `".0"`
  removal that turns a stored year into its label.
- `dashboard.dfy` — the viewer (`app.py`):
  - its load-time column rewrites;
  - the initial tribunal and year selections;
  - the six-stage filter chain, proved equal to a single conjunction of the
    active filters;
  - the four indicators over the filtered rows;
  - the detail table sorted by claim value, largest first.
- `absence.dfy` — the "CPFs without cases" section. It gives two
  order-preserving complements of the searched-CPF registry: against the
  CPFs in the table, and against the CPFs of the preferred venue (`TJGO`).
- `common.dfy` — shared pieces:
  - `Option`;
  - digit strings;
  - `Keep`, the boolean-mask selection `df[mask]`, with its algebra;
  - subsequences;
  - distinct values of a column (`nunique`);
  - the case-insensitive, null-safe substring test of
    `str.contains(q, case=False, na=False)`.

Every file outcome of the loader is one of three:

- the file could not be opened or decoded (`Unreadable`);
- it decoded to a JSON value that is not an object, so `total_files` is
  bumped and then `data.get` raises (`NonObject`);
- it decoded to a document (`Parsed`).

Because of the middle case, the counters satisfy
`total_files == with_processos + without_processos + #NonObject`. They
satisfy `total_files == with_processos + without_processos` only when every
decoded file is an object.

Where the code and the expected behaviour disagree, the model follows the code:

- The viewer's claim rewrite turns `"1.234,56"` into `"1.234.56"`, which
  `to_numeric` rejects, so the value becomes 0, not 1234.56
  (`Numbers.AppClaimThousandsPointIsZero`).
- The batch normaliser does no comma handling at all, so `"1234,56"` also
  becomes 0 (`Clean.DecimalCommaIsZero`).
- Claim values are not clamped at 0. A negative amount is kept as it is
  (`Clean.NegativeClaimKept`).

## Model

| member | source | states |
|---|---|---|
| Loader.LoadData | main.py:12-40 | the loop keeps the rows and the three counters of the `summary` dict; it returns the rows `Flatten(files)` (every case row, in file order then document order) and the counters `Tally(files)` |
| Loader.ReadFile | main.py:23-38 | one loop iteration appends exactly the rows the file yields and adds exactly that file's counter increments |
| Loader.AppendCases | main.py:31-34 | the inner loop appends the tagged prefix of case objects that precedes the first non-object element |
| Loader.TagPrefix | main.py:31-34 | each appended row is the matching entry's case tagged with the document's CPF and lookup time; iteration stops only at a non-object element |
| Loader.FileRows | main.py:29-34 | a file yields rows only when it decoded to a document with a non-empty `processos` array, and every row carries that document's `chave_pesquisa` and `data_consulta` |
| Loader.FileTally | main.py:24-36 | a file bumps `total_files` exactly when it decoded, and a decoded document bumps exactly one of `with_processos` and `without_processos`; which one is fixed by `Loader.DocumentWithCases` and `Loader.DocumentWithoutCases` |
| Loader.Flatten | main.py:22-34 | the rows of a directory: each file's rows, in listing order; specified by `Loader.LoadData` and the lemmas below |
| Loader.Tally | main.py:22-36 | the counters of a directory: the sum of each file's increments; specified by `Loader.LoadData` and `Loader.CounterIdentity` |
| Loader.CounterIdentity | main.py:27-36 | `total_files` counts the decoded files and equals `with_processos + without_processos + #NonObject`; with no non-object files, total = with + without |
| Loader.UnreadableChangesNothing | main.py:24-38 | a file that fails to open or decode, anywhere in the directory, changes neither the rows nor any counter |
| Loader.DocumentWithoutCases | main.py:29-36 | a document whose `processos` is falsy (missing, null, `[]`, `""`, `{}`, `0`, `false`) adds no row and adds one to `total_files` and one to `without_processos` |
| Loader.DocumentWithCases | main.py:27-30 | a document whose `processos` is truthy, anywhere in the directory, adds one to `total_files` and one to `with_processos` |
| Loader.RowProvenance | main.py:31-34 | every output row's case is an element of some document's `processos`, and the row's `cpf_consulta` and `data_consulta_ref` are that document's `chave_pesquisa` and `data_consulta` |
| Loader.RowCount | main.py:22-34 | never more rows than `processos` elements; exactly one row per element when every element is an object |
| Loader.FlattenConcat | main.py:22-34 | the rows of a concatenated directory are the rows of each part, in order |
| Loader.TallyConcat | main.py:22-36 | the counters of a concatenated directory are the sums of each part's counters |
| Loader.ScenarioThreeDocuments | main.py:22-36 | two documents with one case each plus one without cases give counters (3, 2, 1) and the two tagged rows in file order |
| Clean.CleanData | main.py:42-53 | an empty table is returned unchanged; a non-empty table without a `data_distribuicao` or `valor_causa` column raises `KeyError` naming it; otherwise no row is dropped, each row gets the parsed date, its year exactly when the date is valid, and the coerced claim value |
| Clean.DistributionDate | main.py:47 | a date is produced only from text that renders it as `DD/MM/YYYY`, and every text that parses yields one |
| Clean.ClaimValue | main.py:51 | numbers are kept as they are, text is parsed, and a missing, null or unparsable value becomes 0 |
| Clean.InvalidDateKeepsRow | main.py:47-51 | in a table that has a `valor_causa` column, a row dated 31/02/2024 stays in place with a null date and a null year |
| Clean.DecimalCommaIsZero | main.py:51 | any amount with a comma and no point coerces to 0 in the batch step |
| Clean.NegativeClaimKept | main.py:51 | `-5` stays -5; null and missing become 0 |
| Dates.DaysInMonth | main.py:47 | month lengths are 28 to 31, and 29 exactly for February of a leap year |
| Dates.ParseDate | main.py:47 | a parsed date is a valid calendar day within the Timestamp range, and the input is its `DD/MM/YYYY` rendering |
| Dates.ParseFormatRoundTrip | main.py:47 | every valid date is read back from its rendering, so the parser accepts exactly the renderings of valid dates |
| Dates.RenderingOfNonDate | main.py:47 | a rendering of fields that are not a holdable day parses to null |
| Dates.ThirtyFirstOfFebruaryIsNull | main.py:47-48 | 31/02/2024 parses to null |
| Dates.LeapDay2024 | main.py:47 | 29/02/2024 parses to that date |
| Dates.NoLeapDay1900 | main.py:47 | 29/02/1900 and dates outside 1677-09-22..2262-04-11 parse to null |
| Numbers.ParseUnsigned | main.py:51 | an unsigned decimal is never negative |
| Numbers.ParseNumber | main.py:51 | a negative result only comes from text starting with `-`; `Numbers.ParseNumberAccepts` and `Numbers.ParseNumberRendering` give both directions of what it accepts |
| Numbers.ParseNumberAccepts | main.py:51 | every text read as a number is an optional sign, digits and an optional point with digits, and its value is the one it spells; any other text, such as `R$ 100` or `12a`, becomes NaN and so 0 |
| Numbers.ParseNumberRendering | main.py:51 | conversely, every text of that shape is read as the value it spells, with `-` negating and `+` changing nothing |
| Numbers.ParseDecimalRendering | main.py:51 | a `whole.frac` rendering reads back as the value it spells |
| Numbers.ParseShowNat | main.py:51 | the decimal rendering of a natural number reads back as that number |
| Numbers.ParseUnsignedNoDot | main.py:51 | text without a point is read as a plain digit string or not at all |
| Numbers.CommaWithoutPointIsNaN | main.py:51 | text with a comma and no point is not a number |
| Numbers.TwoPointsIsNaN | app.py:82-83 | text with two points is not a number |
| Numbers.ReplaceCommas | app.py:82 | same length; each comma becomes a point and every other character is kept |
| Numbers.AppClaimValue | app.py:82-83 | the comma-rewritten text is parsed, and 0 when it does not parse |
| Numbers.AppClaimWithoutComma | app.py:82-83 | text without a comma is parsed exactly as the batch step parses it |
| Numbers.AppClaimThousandsPointIsZero | app.py:82-83 | `"1.234,56"` becomes 0 |
| Numbers.AppClaimDecimalComma | app.py:82-83 | `"1234,56"` becomes 1234.56 |
| Numbers.RemoveDotZero | app.py:80 | the left-to-right, non-overlapping removal of `".0"`; never lengthens the text; its effect on year texts is given by the two lemmas below |
| Numbers.RemoveDotZeroWithoutDot | app.py:80 | text without a point is unchanged, and a trailing `".0"` after it is removed |
| Numbers.YearLabel | app.py:80 | the year label is the stored text with every `".0"` removed; `Numbers.YearLabelIgnoresStorage` states what that yields |
| Numbers.YearLabelIgnoresStorage | app.py:80 | the year label is `str(year)` whether pandas stored the years as integers or floats, and `"nan"` for a missing year |
| Dashboard.NormalizeRow | app.py:79-83 | the parsed date renders back to the date text, and every date text that parses yields it; the year label is the stored year text with `".0"` removed; the claim value is the comma-rewritten parse, which for comma-free text is the batch step's parse; the other seven columns are kept |
| Dashboard.LoadTable | app.py:77-83 | one normalised row per CSV row, in file order |
| Dashboard.ApplyFilters | app.py:131-143 | the six conditional narrowing steps in source order; never adds rows; specified by `Dashboard.FilterSpec` |
| Dashboard.Matches | app.py:131-143 | the independent reference: a row passes when it satisfies every input that is set |
| Dashboard.ChainIsOneMask | app.py:131-143 | the six conditional narrowing steps equal one selection by the conjunction of their guarded masks |
| Dashboard.FilterSpec | app.py:131-143 | the filtered table is exactly the table's rows that satisfy every active filter, in table order |
| Dashboard.FilterProperties | app.py:131-143 | a row is in the result iff it is in the table and matches; the result is a subsequence of the table; filtering again changes nothing |
| Dashboard.NoFiltersShowEverything | app.py:131-143 | with every input unset the whole table is shown |
| Dashboard.NullCellNeverMatches | app.py:133-135 | a row with a null CPF or defendant cell does not match a non-empty search on that column, and is in no filtered table |
| Dashboard.VenueOnlyFilter | app.py:136-139 | selecting venue X and no year keeps exactly the venue-X rows, whatever their year |
| Common.TextContains | app.py:133-135 | a null cell never matches (`na=False`); otherwise the lowercased query occurs in the lowercased cell |
| Common.TextContainsCaseInsensitive | app.py:133-135 | the search gives the same answer after lowercasing the cell or the query, and a literal occurrence always matches |
| Common.ContainsLowered | app.py:133-135 | an occurrence survives lowercasing both sides |
| Common.KeepFuse | app.py:131-143 | masking twice in a row equals masking once by the conjunction |
| Common.KeepIdempotent | app.py:131-143 | masking again by the same mask changes nothing |
| Common.KeepMembership | app.py:131-143 | an element survives a mask iff it was present and passes |
| Common.KeepIsSubsequence | app.py:131-143 | masking keeps the order of the surviving rows |
| Common.DistinctValues | app.py:150 | the distinct non-null values are exactly the values some row holds, and there are no more of them than rows |
| Common.DistinctValuesOfKeepExact | app.py:150-155 | a value is among the distinct values of the selected rows iff some row that passes the selection holds it |
| Dashboard.ComputeKpis | app.py:148-155 | the four metrics are the filtered row count, the number of distinct non-null CPFs, the claim sum and the number of distinct non-null venues of the filtered rows; both counts never exceed the row count; the total is non-negative when every amount is |
| Dashboard.TotalClaim | app.py:152 | the sum of no rows is 0, and the sum is non-negative when every amount is; `Dashboard.TotalClaimSplit` relates it across a selection |
| Dashboard.KpiValues | app.py:150-155 | the CPFs and venues counted are exactly those of the table's rows that pass every active filter |
| Dashboard.TotalClaimSplit | app.py:152 | the claim total splits exactly between the rows a mask keeps and those it drops |
| Dashboard.KpisOfFilteredRows | app.py:145-155 | against the full table: no more rows, CPFs or venues than the full table, and the claim total is the full total minus that of the filtered-out rows |
| Dashboard.AvailableTribunals | app.py:117 | the tribunal options are exactly the non-null venues present |
| Dashboard.AvailableYears | app.py:121 | the year options are exactly the year labels present |
| Dashboard.DefaultTribunals | app.py:117-118 | the initial selection is `['TJGO']` iff some row has that venue, and `[]` otherwise; it is always among the options |
| Dashboard.DefaultYears | app.py:121-122 | the initial selection is 2026..2020 in that order, restricted to the years present; it is always among the options |
| Dashboard.InsertByClaim | app.py:177 | inserting into a list sorted by claim value, largest first, keeps it sorted and adds exactly the new row |
| Dashboard.SortByClaimDesc | app.py:177 | the result is sorted by claim value, largest first, and is a permutation of the input |
| Dashboard.DetailView | app.py:176-177 | the detail table is sorted by claim value, largest first, and is a permutation of the filtered rows reduced to the shown columns |
| Absence.Complement | app.py:184 | the list holds exactly the registry entries outside the given set, in registry order; its length plus the number of entries found is the registry size, so each repetition is kept |
| Absence.Analyse | app.py:182-186 | no section for an empty registry; otherwise the searched count, and the two lists, which are the registry's complements (order and repetitions kept) against the CPFs of the whole table and against those of the `TJGO` rows; an entry is listed iff no row, resp. no `TJGO` row, carries it |
| Absence.CpfsWithCases | app.py:183 | the CPFs with cases are exactly those some row carries |
| Absence.CpfsAtPreferredVenue | app.py:185 | the CPFs of the `TJGO` rows; characterised by `Absence.VenueCpf` |
| Absence.VenueCpf | app.py:185 | a CPF counts as found at `TJGO` iff some `TJGO` row carries it |
| Absence.GeneralWithinVenue | app.py:183-186 | the general list is a subsequence of the `TJGO` list, so never longer |
| Absence.RegistryExample | app.py:182-193 | registry [A, B, C] with cases only for B, none at `TJGO`: the general list is [A, C] and the `TJGO` list is [A, B, C] |

## Left out

- File system and I/O are not modelled: `os.listdir`, `open`, `json.load`, `read_csv`, the CSV download, and the error printout. The directory is a sequence of file outcomes; the viewer's table is a sequence of CSV rows.
- Only the JSON shapes the loader reacts to are modelled. A truthy non-list `processos` (a string, an object, a number) raises before any row is produced. A non-object element stops the iteration. Keys of a case object other than those read downstream are not modelled.
- The in-place mutation of each case dict (adding `cpf_consulta` and `data_consulta_ref`) is modelled as building a tagged row. Aliasing between the dicts and the rows is not modelled.
- Clean.CleanData: a date cell that is not text (a number in the JSON) is treated as null, and a number in `valor_causa` is taken as exact.
- Clean.CleanData: `KeyError` is modelled only for the two columns the step reads.
- Dashboard.CsvRow: every row has every column. The consolidated table only has the columns that some case carried, so the viewer's own `KeyError` paths are not modelled: `df['ano_distribuicao']` (app.py:80), `df['tribunal']` (app.py:117), `df['classe']` and `df['assunto']` (app.py:125-127) and `filtered_df[cols_to_show]` (app.py:177) all raise on a table without that column.
- Dates.ParseDate: `strptime` leniency on digit widths (single-digit days or months) is not modelled; exactly `DD/MM/YYYY` is accepted.
- Numbers.ParseNumber: covers `[sign] digits [. digits]` only. Exponents, `inf`/`nan` spellings, surrounding whitespace and underscores are not modelled.
- Common.TextContains: a literal substring test with ASCII lowercasing. `str.contains` defaults to a regular expression, and Unicode case folding is not modelled.
- Dashboard.CsvRow: every CSV cell is given as text. pandas' column typing on `read_csv` (a CPF column read as integers, for instance) is not modelled. Neither is the round trip through the CSV file written elsewhere.
- Dashboard.SortByClaimDesc: proves sorted and a permutation only. pandas' default sort is not stable, so the order among equal claim values is left open.
- Dashboard.ComputeKpis: sums are exact reals. Floating-point rounding and the `R$` and thousands-separator formatting are not modelled.
- Dashboard.AvailableTribunals and Dashboard.AvailableYears are sets. The sorted order of the options, and the `TypeError` `sorted` raises on a column that mixes text and NaN, are not modelled.
- The top-20 subject options (`value_counts().head(20)`) are not modelled. Their tie order is pandas-defined. The subject filter itself is modelled with whatever selection is given.
- The login gate, CSS, widgets, tabs, logout, caching and every chart are left out. They are presentation and framework code.
- The viewer's "file not found" branch is left out: with no CSV, nothing below it runs.
