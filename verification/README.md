# ANS expense pipeline — a Dafny model

This project models the record-transformation core of a batch pipeline.
The pipeline turns the quarterly accounting filings of Brazil's health
insurance regulator (ANS) into a validated, enriched and aggregated
expense table. Each stage reads the previous stage's CSV output, so each
stage is modelled as an operation on in-memory tables:

| stage | source | module (file) |
|---|---|---|
| 1.1 discovery: file-name periods, year folders, the newest three quarters | `backend/stage_1_api.py` | `Discovery` (discovery.dfy) |
| 1.2 processing: Brazilian money text, header aliases, the expense-account filter, the consolidated output file | `backend/stage_1_2_processing.py` | `Processing` (processing.dfy) |
| 1.3 analysis: the period columns, the registry key column and the left join | `backend/stage_1_3_analysis.py` | `Analysis` (analysis.dfy) |
| 1.3 cleaning: the account filter, one name per CNPJ, zero amounts, `N/A` defaults | `backend/stage_1_3_analysis.py` | `Cleaning` (cleaning.dfy) |
| 2.1 validation: the CNPJ check digits, the three checks and the valid/rejected split | `backend/stage_2_1_validation.py` | `Validation` (validation.dfy) |
| 2.2 enrichment: registry clean-up, keep-first dedup by CNPJ, the left join, `Não Informado` defaults | `backend/stage_2_2_enrichment.py` | `Enrichment` (enrichment.dfy) |
| 2.3 aggregation: group by (name, UF), the sum, count, mean and deviation, sorted by total | `backend/stage_2_3_aggregation.py` | `Aggregation` (aggregation.dfy) |
| 3 database load: `find_column`, the rebuilt reference date, the fact and dimension tables | `backend/stage_3_db_test.py` | `DbLoad` (dbload.dfy) |

Shared modules:

- `Outcomes`: `Option`, and `Result`, whose `KeyError(column)` case models the KeyError that pandas raises for a missing column.
- `Strings`: ASCII digits, Python `str`/`int` on naturals, case mapping, `strip`, `replace` and `in`.
- `Numbers`: exact decimals, Python's `float` grammar, the positional text Python's `str` gives a float of moderate size, and rounding to cents.
- `Frames`: the table model. It has cells (`Null`, text, integers and exact decimals), column look-up and selection, rename, boolean masks, `drop_duplicates(keep='first')` and `merge(how='left')`.
- `Sorting`: a key-sorted permutation, and `s[:k]`/`s[-k:]`.

Money is exact: a `Decimal` of units over a power of ten, or `real`. It is never a binary float.

Where a stage changes state step by step, the model is imperative and each method is proved against the function that specifies it. These are:

- the per-file write loop with its `first_write` flag (`Processing.ProcessFiles` over the `Processing.OutputFile` class);
- the column-adding loop of `normalize_dataframe`;
- the key-column search loop;
- the three ordered overwrites of `motivo_rejeicao`, on an array;
- the rename and fill loops of the enrichment;
- the row-by-row date rebuild.

The code is followed wherever its comments or tests say something else:

- The docstring of `parse_quarter_from_filename` lists `3t_24.zip` as supported, but neither regular expression matches it, so the parser returns nothing (`Discovery.ExampleUnderscoreNotRecognised`).
- The name harmonisation of `analyze_and_clean` is documented as keeping the most recent name. The code keeps the first row's name (`Cleaning.HarmonisedFromFirst`).
- `test_normalization_columns` in `backend/tests/test_cleaning.py` expects a row with account code `1` to survive normalisation. The account filter drops it, and the function then returns `None` (`Processing.NonExpenseFileGivesNothing`).
- Cleaning keeps negative amounts (`Cleaning.NegativesKept`), while validation rejects them (`Validation.AmountRejections`).

## Model

| member | source | states |
|---|---|---|
| Discovery.ParseQuarter | backend/stage_1_api.py:35-65 | The result is `None` exactly when neither the compact nor the verbose pattern matches anywhere in the lower-cased name; a found quarter is one digit |
| Discovery.ParseIgnoresCase | backend/stage_1_api.py:51 | Lower-casing the name first never changes the result |
| Discovery.CompactWins | backend/stage_1_api.py:52-57 | The leftmost compact match `(\d)t(\d{2,4})` decides the period, whatever else the name holds |
| Discovery.VerboseFallback | backend/stage_1_api.py:59-63 | Without any compact match, the leftmost `(\d{4})_(\d)_trim` match decides |
| Discovery.CompactYearRule | backend/stage_1_api.py:55-56 | The greedy year group has 2 to 4 digits; four digits are the year, two digits a year 20yy, three digits the five-digit year 20xyz |
| Discovery.CompactNameRoundTrip | backend/stage_1_api.py:52-57 | Every concise name `<q>T<yyyy>.zip` of a four-digit year parses back to its period |
| Discovery.VerboseNameRoundTrip | backend/stage_1_api.py:59-63 | Every verbose name `<yyyy>_<q>_trimestre.zip` parses back to its period |
| Discovery.ExampleConcise | backend/stage_1_api.py:40 | `1T2025.zip` and `1t2025.zip` both give (2025, 1) |
| Discovery.ExampleVerbose | backend/stage_1_api.py:41 | `2008_1_trimestre.zip` gives (2008, 1) |
| Discovery.ExampleShortYears | backend/stage_1_api.py:56 | `1t24.zip` gives year 2024 and `1t202.zip` year 20202 |
| Discovery.ExampleUnderscoreNotRecognised | backend/stage_1_api.py:42 | The documented short form `3t_24.zip` gives `None` |
| Discovery.ExampleQuarterZero | backend/stage_1_api.py:54 | The quarter is not range-checked: `0T2025.zip` gives quarter 0 |
| Discovery.ClassifyHref | backend/stage_1_api.py:93-110 | A link is skipped exactly when it is `../`, `./` or starts with `?` or `/`; otherwise it is an archive exactly when it ends in `.zip` in any case, named by the link without slashes; a sub-folder link ends in `/` |
| Discovery.ScanPage | backend/stage_1_api.py:91-114 | The link loop over one page collects exactly the archives with a recognised period and the sub-folders, in page order; each archive's period is its name's parse and each comes from the page |
| Discovery.PageArchivesSound | backend/stage_1_api.py:99-108 | Every archive collected is a link of the page whose file name parses to the recorded period |
| Discovery.PageFoldersSound | backend/stage_1_api.py:110-114 | Every folder set aside is a link of the page that is not skipped |
| Discovery.YearOfFolder | backend/stage_1_api.py:141-142 | A year read from a folder link has at most four digits |
| Discovery.YearFolderRoundTrip | backend/stage_1_api.py:141-144 | The folder link `yyyy/` of a four-digit year names that year |
| Discovery.YearsToScan | backend/stage_1_api.py:139-153 | The years scanned are at most three year links of the page, newest first, and no year link left out is newer than one kept |
| Discovery.NewestYears | backend/stage_1_api.py:145-153 | Sorting the year links descending and keeping three keeps the newest, in descending order, each a year link of the page |
| Discovery.NewestKept | backend/stage_1_api.py:145-153 | No year left out of the first three is newer than a year kept |
| Discovery.YearFoldersSound | backend/stage_1_api.py:140-144 | Every collected year folder is a link of the page whose stripped text is that year |
| Discovery.PeriodKeyIsLexicographic | backend/stage_1_api.py:158 | With one-digit quarters, `year * 10 + quarter` orders periods as the `(year, quarter)` tuples are ordered |
| Discovery.PageQuartersOneDigit | backend/stage_1_api.py:52-62 | Every archive recorded from a page has a one-digit quarter, the `(\d)` group of both patterns |
| Discovery.SelectLatest | backend/stage_1_api.py:151-159 | For archives with one-digit quarters, as the crawl records them: the pooled candidates are sorted by period and the last three kept; at most three of them, ascending in `(year, quarter)` tuple order, and no candidate left out is a later tuple than one kept |
| Discovery.LatestInPeriodOrder | backend/stage_1_api.py:158-159 | With one-digit quarters, the last three by `year * 10 + quarter` are ascending as `(year, quarter)` tuples and no candidate left out is a later tuple |
| Discovery.LatestKept | backend/stage_1_api.py:158-159 | No archive left out of the last three is more recent than one kept |
| Processing.CleanCurrency | backend/stage_1_2_processing.py:36-55 | Text always becomes a number (never an error); anything else, `None` included, is returned unchanged |
| Processing.BrlTextRoundTrip | backend/stage_1_2_processing.py:49-52 | Every amount written in the Brazilian format (`.` between thousands, `,` before the cents, optional sign) reads back as exactly that amount |
| Processing.ExamplesBrl | backend/tests/test_cleaning.py:14-18 | `1.000,00` is 1000, `50,55` is 50.55 and `0,00` is 0 |
| Processing.ExampleEmpty | backend/tests/test_cleaning.py:22 | The empty text becomes 0.0 |
| Processing.TwoCommasGiveZero | backend/stage_1_2_processing.py:50-54 | Text with two commas never reads as a number and becomes 0.0 |
| Processing.TwoDotsUnparsable | backend/stage_1_2_processing.py:52-54 | Text with two decimal points does not parse |
| Processing.HeaderIgnoresCase | backend/stage_1_2_processing.py:112-113 | The canonical header does not depend on the case of the file's header |
| Processing.AmountAliases | backend/stage_1_2_processing.py:27-29 | `VL_SALDO_FINAL`, `VALOR` and `SALDO` all become `vl_saldo_final` |
| Processing.ExpenseRows | backend/stage_1_2_processing.py:115-116 | With an account column, exactly the rows whose code starts with `4` survive, a missing code included in none; without one every row survives |
| Processing.Normalized | backend/stage_1_2_processing.py:94-130 | No input gives nothing; a result has the five final columns, at least one row, and the file name in `arquivo_origem` on every row |
| Processing.NormalizedKeepsExpenses | backend/stage_1_2_processing.py:115-116 | With an account column every output row has an account code starting with `4` |
| Processing.NormalizedRows | backend/stage_1_2_processing.py:112-128 | The output rows are, in order, the output rows of the kept source rows: absent columns missing, the amount cleaned, the file name as lineage |
| Processing.NormalizedWithoutAccount | backend/stage_1_2_processing.py:115 | Without an account column every row comes out |
| Processing.NonExpenseFileGivesNothing | backend/stage_1_2_processing.py:115-119 | A file whose account codes all lie outside class 4 gives nothing at all |
| Processing.NormalizeFrame | backend/stage_1_2_processing.py:94-130 | The step-by-step normalisation computes `Normalized` |
| Processing.AddMissingColumns | backend/stage_1_2_processing.py:121-123 | Every wanted column is present afterwards; existing columns keep their cells; added ones hold only missing values; no other column appears |
| Processing.ProjectOutput | backend/stage_1_2_processing.py:121-128 | The projection has the five final columns and each row is its source row's output row |
| Processing.FinalPositions | backend/stage_1_2_processing.py:32-33 | The five final columns are distinct, with the amount fourth and the lineage fifth |
| Processing.Outputs | backend/stage_1_2_processing.py:166-182 | Every table written has the five final columns and at least one row |
| Processing.OutputFile.Write | backend/stage_1_2_processing.py:182-192 | Mode `w` starts the file afresh, `a` keeps it; the header line is written only when asked, then one line per row |
| Processing.WriteStep | backend/stage_1_2_processing.py:182-195 | One more write keeps the invariant: the file holds the header once, then the rows of every table written so far, in order |
| Processing.ProcessFiles | backend/stage_1_2_processing.py:156-199 | After the loop the count is the number of rows written; the file holds one header and every normalised table's rows in file order, or its old contents when nothing was written |
| Analysis.QuarterOf | backend/stage_1_3_analysis.py:62-63 | The quarter read from a file name is one digit |
| Analysis.YearOf | backend/stage_1_3_analysis.py:64-65 | The year read from a file name has at most four digits |
| Analysis.PeriodOfCompactFile | backend/stage_1_3_analysis.py:62-65 | A file named `<q>T<yyyy>...` gives quarter q and year yyyy |
| Analysis.QuarterNeedsUpperT | backend/stage_1_3_analysis.py:62-63 | Without an upper-case `T` the quarter is 0 |
| Analysis.YearNeedsFourDigits | backend/stage_1_3_analysis.py:64-65 | Without a run of four digits the year is 0 |
| Analysis.PeriodOfMissingName | backend/stage_1_3_analysis.py:62-65 | A missing file name gives quarter 0 and year 0 |
| Analysis.WithPeriod | backend/stage_1_3_analysis.py:62-65 | KeyError exactly when there is no `arquivo_origem`; otherwise the same rows with `Trimestre` and `Ano` added and no other new column |
| Analysis.WithPeriodCells | backend/stage_1_3_analysis.py:62-65 | Each row gets `Trimestre` and `Ano` from its own file name; its other cells are unchanged |
| Analysis.FindKeyColumn | backend/stage_1_3_analysis.py:87-92 | The search loop finds the first candidate, in list order, that is a registry column |
| Analysis.CleanRegistry | backend/stage_1_3_analysis.py:80-81 | The registry keeps its rows, and no cleaned header holds a lower-case letter |
| Analysis.FirstSocial | backend/stage_1_3_analysis.py:105 | The result is a column containing `SOCIAL`; nothing is found only when no column contains it |
| Analysis.KeyRenamedName | backend/stage_1_3_analysis.py:99-102 | The first rename yields `RazaoSocial` exactly when there is a `RAZAO_SOCIAL` column |
| Analysis.NamedRegistryShape | backend/stage_1_3_analysis.py:99-107 | After the renames the registry is well formed, has `reg_ans`, and keeps every column that is neither the key nor a `SOCIAL` column |
| Analysis.NamedRegistryHasName | backend/stage_1_3_analysis.py:99-107 | The registry has `RazaoSocial` exactly when some column other than the key contains `SOCIAL` |
| Analysis.NamedRegistryCnpj | backend/stage_1_3_analysis.py:99-107 | The renames keep a `CNPJ` column and never create one |
| Analysis.TextColumn | backend/stage_1_3_analysis.py:109-110 | Every cell of the column becomes its text (`nan` for a missing value); the other cells are unchanged |
| Analysis.MergeColumns | backend/stage_1_3_analysis.py:113-115 | The merge columns are `reg_ans` and `CNPJ`, plus `RazaoSocial` exactly when the registry has it |
| Analysis.EnrichedWith | backend/stage_1_3_analysis.py:94-118 | Once the key column is known, a successful result is a well-formed table |
| Analysis.LoadAndEnrich | backend/stage_1_3_analysis.py:62-118 | The step-by-step load computes `Enriched` |
| Analysis.EnrichedOutcome | backend/stage_1_3_analysis.py:62-118 | KeyError for a missing `arquivo_origem` first, then for a registry without a key column; success exactly when the expenses have `arquivo_origem` and `reg_ans` and the registry has a key column and `CNPJ` |
| Analysis.EnrichedIsJoin | backend/stage_1_3_analysis.py:109-118 | A successful result is the left join on `reg_ans` of the period-tagged expenses with the renamed registry |
| Analysis.JoinSidesShape | backend/stage_1_3_analysis.py:117-118 | The join has the expense columns, then `CNPJ` and the name when present, and at least one row per expense row |
| Analysis.EnrichedShape | backend/stage_1_3_analysis.py:113-118 | A successful result has the expense and period columns, then `CNPJ`, then `RazaoSocial` when a registry header names `SOCIAL`; at least one row per expense row |
| Cleaning.AccountRows | backend/stage_1_3_analysis.py:152-153 | Exactly the rows whose account text starts with `4` are kept, and no row is added |
| Cleaning.MapRows | backend/stage_1_3_analysis.py:156 | The rows with a CNPJ, each CNPJ once |
| Cleaning.NameMap | backend/stage_1_3_analysis.py:157 | The map's keys are exactly the CNPJs of the rows |
| Cleaning.Harmonised | backend/stage_1_3_analysis.py:155-158 | Only `RazaoSocial` changes; the rows and every other cell stay |
| Cleaning.HarmonisedFromFirst | backend/stage_1_3_analysis.py:155-158 | A row with a CNPJ gets the name of the first row with that CNPJ, or keeps its own when that name is missing |
| Cleaning.HarmonisedWithoutCnpj | backend/stage_1_3_analysis.py:158 | A row without a CNPJ keeps its own name |
| Cleaning.OneNamePerCnpj | backend/stage_1_3_analysis.py:129-133 | After harmonisation all rows with one CNPJ carry the same name |
| Cleaning.NonZeroRows | backend/stage_1_3_analysis.py:160-161 | Exactly the rows whose amount is not a numeric zero are kept, and no row is added |
| Cleaning.NegativesKept | backend/stage_1_3_analysis.py:135-140 | Negative amounts stay |
| Cleaning.FillNa | backend/stage_1_3_analysis.py:173-174 | The filled cell is never missing, and a present value is unchanged |
| Cleaning.Kept | backend/stage_1_3_analysis.py:150-161 | The account, name and zero steps keep a well-formed table with the same columns |
| Cleaning.Output | backend/stage_1_3_analysis.py:163-174 | The output has the five output columns and one cleaned row per kept row |
| Cleaning.OutputPositions | backend/stage_1_3_analysis.py:163-171 | The output columns are distinct, with `CNPJ` first and `RazaoSocial` second |
| Cleaning.RenamedAmount | backend/stage_1_3_analysis.py:171 | Renaming the amount turns the kept columns into the output columns |
| Cleaning.SelectColumns | backend/stage_1_3_analysis.py:166-171 | Absent columns are added as missing values, the five columns selected in order and the amount renamed |
| Cleaning.FillIdentifiers | backend/stage_1_3_analysis.py:173-174 | `CNPJ` and `RazaoSocial` get `N/A` where missing; nothing else changes |
| Cleaning.SelectOutput | backend/stage_1_3_analysis.py:163-174 | The step-by-step selection and filling compute `Output` |
| Cleaning.AnalyzeAndClean | backend/stage_1_3_analysis.py:148-180 | The step-by-step cleaning computes `Cleaned`: KeyError when there is a `CNPJ` column but no `RazaoSocial` |
| Cleaning.CleanedHasIdentifiers | backend/stage_1_3_analysis.py:173-174 | Every cleaned row has a CNPJ and a name |
| Cleaning.CleanedHasNoZeroAmount | backend/stage_1_3_analysis.py:160-161 | No cleaned amount is a numeric zero |
| Validation.DigitsOf | backend/stage_2_1_validation.py:22 | Only digits remain, and never more characters than there were |
| Validation.CheckDigit | backend/stage_2_1_validation.py:29-35 | A check digit is a single digit: 0, or the complement to 11 of the sum's remainder |
| Validation.Complete | backend/stage_2_1_validation.py:26-37 | Twelve base digits plus their two check digits are fourteen digits starting with the base |
| Validation.CompletionIff | backend/stage_2_1_validation.py:23-37 | A digit string passes exactly when it has fourteen digits, not all the same, and ends with the check digits of its first twelve |
| Validation.ChangedCheckDigit | backend/stage_2_1_validation.py:37 | Changing either check digit of a valid CNPJ makes it invalid |
| Validation.FormattingIgnored | backend/stage_2_1_validation.py:22 | Inserting or removing a separator never changes the verdict |
| Validation.ExampleValid | backend/stage_2_1_validation.py:26-37 | 11222333000181 passes |
| Validation.ExampleInvalid | backend/stage_2_1_validation.py:37 | 11222333000182 fails |
| Validation.ZerosRejected | backend/stage_2_1_validation.py:23-24 | Fourteen zeros carry matching check digits and are still rejected |
| Validation.ReasonIsLastFailure | backend/stage_2_1_validation.py:77-81 | No reason exactly when the record is valid; otherwise the reason names the last failing check in the order name, amount, CNPJ |
| Validation.AmountRejections | backend/stage_2_1_validation.py:66-72 | An unparsable amount counts as 0 and fails; an amount fails exactly when it is at or below 0 |
| Validation.BlankNameRejected | backend/stage_2_1_validation.py:70 | A name of white space only, the empty name included, fails |
| Validation.ValidRows | backend/stage_2_1_validation.py:83-85 | Exactly the records that pass |
| Validation.RejectedRows | backend/stage_2_1_validation.py:87 | Exactly the records that fail |
| Validation.ValidRejectedPartition | backend/stage_2_1_validation.py:83-87 | The two sides together hold every record exactly once |
| Validation.Priced | backend/stage_2_1_validation.py:66-68 | `ValorDespesas` becomes numeric with unparsable text as 0; every other cell is unchanged |
| Validation.Unmasked | backend/stage_2_1_validation.py:77-87 | An input `is_valid` column, overwritten by the mask and dropped from both sides, does not survive; every other column keeps its cells, and without one the table is unchanged |
| Validation.Validated | backend/stage_2_1_validation.py:63-87 | Success exactly when the three checked columns exist; the valid side has exactly the input columns other than `is_valid` (all of them, in order, when there is none), and the rejected side has the same columns followed by `motivo_rejeicao` |
| Validation.SplitCheckedParts | backend/stage_2_1_validation.py:77-87 | The valid side holds the passing records in order; the rejected side holds the failing ones each with its reason; between them every record appears once |
| Validation.SplitCheckedRecord | backend/stage_2_1_validation.py:77-87 | Each record lands on exactly one side, decided by the three checks |
| Validation.RecordOutcome | backend/stage_2_1_validation.py:66-87 | A loaded record is kept, with a numeric amount, exactly when its name is filled, its amount is positive and its CNPJ passes; otherwise it is rejected with its reason |
| Validation.Mask | backend/stage_2_1_validation.py:70-75 | One verdict per record, from the cell the check reads |
| Validation.Overwrite | backend/stage_2_1_validation.py:79-81 | Only the failing records' reasons are overwritten |
| Validation.RejectionReasons | backend/stage_2_1_validation.py:79-81 | The three ordered passes over the reason array give each record's final reason |
| Validation.RunValidation | backend/stage_2_1_validation.py:63-87 | The step-by-step pipeline computes `Validated` |
| Enrichment.Mapped | backend/stage_2_2_enrichment.py:40-50 | Header clean-up and `col_map` keep the rows and leave distinct names |
| Enrichment.KeyFallback | backend/stage_2_2_enrichment.py:55-60 | The fallback rename keeps the rows and leaves distinct names |
| Enrichment.RenameKeyFallback | backend/stage_2_2_enrichment.py:55-60 | The loop that stops at the first fallback present computes `KeyFallback` |
| Enrichment.Present | backend/stage_2_2_enrichment.py:62-64 | Exactly the final columns that exist, without repeats |
| Enrichment.CleanCadop | backend/stage_2_2_enrichment.py:35-66 | The cleaned registry has one row per registry row |
| Enrichment.CleanCadopFrame | backend/stage_2_2_enrichment.py:35-66 | The step-by-step clean-up computes `CleanCadop` |
| Enrichment.ColMapOf | backend/stage_2_2_enrichment.py:42-50 | `MODALIDADE` becomes `Modalidade`; both registry aliases become `RegistroANS`; other headers stay |
| Enrichment.MappedKey | backend/stage_2_2_enrichment.py:42-55 | There is a `RegistroANS` after `col_map` exactly when one of its aliases was a header |
| Enrichment.MappedFallbacks | backend/stage_2_2_enrichment.py:55-60 | `col_map` leaves the fallback headers alone, so the same fallback is found |
| Enrichment.SourceFound | backend/stage_2_2_enrichment.py:40-64 | Each final column exists exactly when a registry header feeds it, and it comes from that header only |
| Enrichment.CleanCadopColumns | backend/stage_2_2_enrichment.py:62-66 | The kept columns are exactly the final columns some header becomes, in the order CNPJ, RegistroANS, Modalidade, UF |
| Enrichment.CleanCadopCell | backend/stage_2_2_enrichment.py:35-66 | Each cell is the original cell under the header that feeds its column |
| Enrichment.Deduped | backend/stage_2_2_enrichment.py:98 | Same columns, no more rows, each CNPJ at most once |
| Enrichment.DedupedRows | backend/stage_2_2_enrichment.py:98 | Every CNPJ still appears; each kept row is the first with its CNPJ; kept rows keep first-occurrence order |
| Enrichment.NewColumns | backend/stage_2_2_enrichment.py:103 | Exactly the registry columns the expenses lack, sorted, without repeats |
| Enrichment.Imported | backend/stage_2_2_enrichment.py:103-104 | The new columns and then the key, all registry columns, without repeats |
| Enrichment.Joined | backend/stage_2_2_enrichment.py:106-111 | The join has the expense columns followed by the new columns |
| Enrichment.JoinedCells | backend/stage_2_2_enrichment.py:106-111 | With a CNPJ-unique registry the join has one row per expense row, in order; expense cells are unchanged and new cells come from the matching registry row or are missing |
| Enrichment.DedupedJoinCell | backend/stage_2_2_enrichment.py:98-111 | Deduplicating before the join changes no joined cell |
| Enrichment.Informed | backend/stage_2_2_enrichment.py:117 | A filled cell is never missing, and a present value is unchanged |
| Enrichment.FillUnknown | backend/stage_2_2_enrichment.py:115-117 | Filling one column keeps the columns and the rows |
| Enrichment.FillAll | backend/stage_2_2_enrichment.py:114-117 | Filling the listed columns keeps the columns and the rows |
| Enrichment.FillDefaults | backend/stage_2_2_enrichment.py:114-117 | The fill loop computes `FillAll` over Modalidade and UF |
| Enrichment.FillAllCells | backend/stage_2_2_enrichment.py:114-117 | A missing cell of a filled column holds `Não Informado`; every other cell is unchanged |
| Enrichment.Enriched | backend/stage_2_2_enrichment.py:94-117 | An error is always a missing `CNPJ`; a result has at least one row per expense row |
| Enrichment.RunEnrichment | backend/stage_2_2_enrichment.py:94-117 | The step-by-step enrichment computes `Enriched` |
| Enrichment.EnrichedOutcome | backend/stage_2_2_enrichment.py:94-111 | Success exactly when the expenses have a CNPJ column and some registry header gives one |
| Enrichment.EnrichedCells | backend/stage_2_2_enrichment.py:94-117 | A result has the expense columns then the sorted new columns, one row per expense row; each cell is the join against the first registry row with the expense's CNPJ, with `Não Informado` for a missing Modalidade or UF |
| Aggregation.Entries | backend/stage_2_3_aggregation.py:45-49 | Grouping never adds rows |
| Aggregation.EntriesMembers | backend/stage_2_3_aggregation.py:45-49 | The grouped entries are exactly the rows with a name and a UF, with their amounts as numbers |
| Aggregation.SampleVariance | backend/stage_2_3_aggregation.py:52 | Undefined exactly for fewer than two values; otherwise non-negative |
| Aggregation.GroupKeys | backend/stage_2_3_aggregation.py:49 | The distinct (name, UF) pairs of the grouped rows |
| Aggregation.AggregateFrame | backend/stage_2_3_aggregation.py:45-62 | KeyError exactly when `ValorDespesas`, `RazaoSocial` or `UF` is missing |
| Aggregation.SummaryFacts | backend/stage_2_3_aggregation.py:49-56 | A group's count is its number of rows (at least one) and its total their sum; the mean is total over count; the deviation is 0 for one row and never negative |
| Aggregation.PartitionTotal | backend/stage_2_3_aggregation.py:50 | Groups over distinct keys that cover the rows add up to the grand total |
| Aggregation.GroupTotals | backend/stage_2_3_aggregation.py:50 | The exact group totals add up to the grand total of the grouped rows |
| Aggregation.AggregatedOrder | backend/stage_2_3_aggregation.py:59-62 | The output is non-increasing in the rounded total |
| Aggregation.AggregatedKeys | backend/stage_2_3_aggregation.py:49-54 | One output row for every (name, UF) pair of the grouped rows, and no other; no pair twice |
| Aggregation.AggregatedSummary | backend/stage_2_3_aggregation.py:49-62 | Each output row is its own group's rounded summary |
| Aggregation.AggregatedRow | backend/stage_2_3_aggregation.py:49-59 | Each output row holds its group's row count, its total and its mean rounded to cents, and a zero variance for one row |
| DbLoad.QuarterOf | backend/stage_3_db_test.py:27-31 | The quarter read is 1 to 4: the least whose digit occurs in the text, or 1 when none does |
| DbLoad.DateFields | backend/stage_3_db_test.py:19-33 | The date is the year text, a dash, a two-digit month whose value is the first month of that quarter, and `-01` |
| DbLoad.QuarterMonthValue | backend/stage_3_db_test.py:27-31 | The month written is 1, 4, 7 or 10, the first month of the quarter read |
| DbLoad.IntegerQuarter | backend/stage_3_db_test.py:24-31 | An integer quarter 1 to 4, as text, gives the first month of that quarter |
| DbLoad.QuarterFallback | backend/stage_3_db_test.py:31 | Text without any of the digits 1 to 4 silently gives January |
| DbLoad.RebuildDates | backend/stage_3_db_test.py:55 | Every row gets its own rebuilt date, in order |
| DbLoad.MappedDates | backend/stage_3_db_test.py:55 | Mapping the date rebuild over all rows gives each row's rebuilt date |
| DbLoad.DateColumn | backend/stage_3_db_test.py:53-61 | Rebuilt exactly when `Trimestre` and `Ano` both exist; otherwise the first present date candidate; KeyError exactly when neither is available |
| DbLoad.FactColumnsOf | backend/stage_3_db_test.py:53-68 | Success exactly when a date, an amount and a CNPJ column are found; each one found is a column |
| DbLoad.FactRow | backend/stage_3_db_test.py:68-72 | A fact row has the three SQL columns |
| DbLoad.Fact | backend/stage_3_db_test.py:64-72 | Success exactly when the columns are found, with the same KeyError otherwise; one fact row per expense row under the SQL names |
| DbLoad.FactRows | backend/stage_3_db_test.py:68-72 | Each fact row carries the expense's CNPJ, its rebuilt or copied date, and its amount as a number, with unparsable text counted as zero |
| DbLoad.DimColumnsOf | backend/stage_3_db_test.py:75-84 | Success exactly when the expenses' CNPJ column, a name and a UF exist; no modality column exactly when none of its candidates exists |
| DbLoad.DimRows | backend/stage_3_db_test.py:84 | One projected row per enriched row, starting with its CNPJ |
| DbLoad.Dim | backend/stage_3_db_test.py:84-85 | Success exactly when the dimension columns are found; the four SQL names, never more rows than the input |
| DbLoad.DimRowKeys | backend/stage_3_db_test.py:84 | The projected CNPJs are exactly those of the enriched rows |
| DbLoad.DimKeys | backend/stage_3_db_test.py:84 | One dimension row per CNPJ of the enriched table, and no other |
| DbLoad.DimFirst | backend/stage_3_db_test.py:84 | Each dimension row is drawn from the first enriched row with its CNPJ, `N/A` as modality when there is no modality column |
| DbLoad.DimOrder | backend/stage_3_db_test.py:84 | Dimension rows keep the order in which their CNPJs first occur |
| DbLoad.LoadTables | backend/stage_3_db_test.py:53-85 | Success exactly when both tables can be shaped, the fact table's error first; the dimension uses the expenses' CNPJ column name |
| Frames.FindColumn | backend/stage_3_db_test.py:11-16 | The result is a column and one of the candidates; nothing exactly when no candidate is a column |
| Frames.FindColumnFirst | backend/stage_3_db_test.py:13-15 | The first candidate present, in list order, is the one returned |
| Frames.RegistryHeader | backend/stage_1_3_analysis.py:80-81 | A cleaned header has no quote and no lower-case letter |
| Frames.Numeric | backend/stage_2_1_validation.py:66-68 | The converted cell is a number with the same numeric value |
| Frames.DedupFirst | backend/stage_2_2_enrichment.py:98 | The same keys, each once, drawn from the input rows |
| Frames.DedupKeepsFirst | backend/stage_2_2_enrichment.py:98 | The row kept for each key is the first row with that key |
| Frames.DedupKeepsOrder | backend/stage_2_2_enrichment.py:98 | Kept rows stay in the order of their first occurrences |
| Frames.FilterAppend | backend/stage_2_1_validation.py:83-87 | Filtering a concatenation is filtering each part and concatenating, so the rows kept by a mask keep their relative order |
| Frames.FilterPartition | backend/stage_2_1_validation.py:83-87 | A mask and its negation split the rows, each row once |
| Frames.DropColumn | backend/stage_2_1_validation.py:83-87 | `drop(columns=[c])` removes exactly that column; every other column keeps its cells and the row count is unchanged |
| Frames.LeftJoin | backend/stage_1_3_analysis.py:117-118 | The join has the left columns then the right's other columns, and at least one row per left row |
| Frames.JoinKeepsLeftRows | backend/stage_1_3_analysis.py:117-118 | The join has one row per left row plus one per extra match |
| Frames.LeftJoinOneToOne | backend/stage_2_2_enrichment.py:106-111 | With a key-unique right side the join has exactly one row per left row, in order, each the left row extended with its match or with missing values |
| Numbers.ParseDecimal | backend/stage_1_2_processing.py:52 | Parsing fails only for the empty text or a body outside the float grammar |
| Numbers.FloatTextRoundTrip | backend/stage_1_3_analysis.py:109 | The positional text of a float (`str`'s form for 1e-4 <= abs(x) < 1e16) reads back as the same number |
| Numbers.RoundCents | backend/stage_2_3_aggregation.py:59 | The rounded cents are within half a cent of the exact value |
| Numbers.RoundCentsMonotone | backend/stage_2_3_aggregation.py:59-62 | Rounding to cents never reverses the order of two amounts |
| Sorting.SortBy | backend/stage_2_3_aggregation.py:62 | The result is sorted by the key and is a permutation of the input |
| Sorting.LastAreLargest | backend/stage_1_api.py:159 | The last k of a sorted sequence are sorted, and no element left out has a larger key |
| Sorting.SortStrings | backend/stage_2_2_enrichment.py:103 | Names sorted in code-point order, a permutation of the input |

## Left out

- Network, files and databases are not modelled. This covers:
  - the page fetches, recursive crawl and downloads of `backend/stage_1_api.py` (depth limit, `urljoin` and per-request errors included); each scanned page is a list of links given to `Discovery.ScanPage`;
  - reading and writing CSV and Excel files, the encoding and separator fallbacks, ZIP extraction, the temporary directory and the final ZIP packages;
  - `download_cadop` and `download_cadop_if_needed` (the former uses `HEADERS`, which its file never defines);
  - the SQL loads and analytics queries of `backend/stage_3_db_test.py`;
  - `backend/api.py` and `frontend/js/app.js`.
- Processing.ProcessFiles: the files found inside the archives are given as a list, already loaded. Errors raised while opening an archive are not modelled.
- Floating point is not modelled. Amounts are exact decimals.
- Numbers.FloatText always gives positional form, such as `12.5` or `20240000000000000.0`. Python's `str` gives that form only for 1e-4 <= abs(x) < 1e16. For larger or smaller non-zero values it uses exponent form, such as `1e+16` or `1e-05`. Text built from such a float (`astype(str)`, `str(ano)`, the `startswith('4')` test) is therefore modelled in positional form.
- Numbers.ParseDecimal: parsing covers `[+-]? (digits ('.' digits?)? | '.' digits)`. It leaves out white space, exponents, `inf`/`nan` and underscores.
- Numbers.RoundCents: `round(2)` is round-half-to-even on the exact value, not on the binary float.
- Aggregation.Rounded: the standard deviation is kept as its sample variance. The square root is not taken, and the deviation column is not rounded; only its zero for a one-row group is stated.
- Sorting.SortBy is a stable insertion sort. pandas' `sort_values` is not stable, and `groupby` orders groups by key, while the model keeps first-appearance order before sorting. So only the order of the totals and the permutation are promised. The order among equal totals is left open.
- Regular expressions and the digit tests use ASCII digits, while Python's `\d` also matches other Unicode digits. Case mapping covers ASCII and single-character Latin-1 letters.
- pandas' type inference is not modelled. A CSV cell is text, an integer or a decimal, as given. The difference between integer and float columns after `to_numeric` and `fillna(0)` is dropped. A float `Ano` printed as `2024.0` in a rebuilt date arises only when the input cell is such a float.
- Processing.Loadable: a file whose headers become the same name after the alias table, which would give pandas duplicate columns, is excluded by precondition. So are `Enrichment.CadopLoadable` (both `REGISTRO_ANS` and `REGISTROANS` present) and `Analysis.RegistryLoadable`.
- Analysis.ExpensesLoadable: expenses that already hold a registry column (`CNPJ` or `RazaoSocial`) are excluded. pandas would suffix the clashing names.
- Validation.Validated requires that the input has no `motivo_rejeicao` column. An input `is_valid` column is dropped from both sides, as in the code, but when there is one the contract names the remaining columns without stating their order.
- Validation.NameOk follows the code: the `N/A` test is on the unstripped text, so ` N/A` passes.
- The text of KeyError messages is not modelled. A KeyError names the missing column, or `None` where the code selects a column that was not found.
