# tools_box core, modelled in Dafny

This project models the data-processing core of `tools_box`. That is a desktop toolbox for clinical-data migration work. The model covers these tools:

- slash-date normalisation;
- codelist mapping with `C-`/`F-` file naming;
- rule-driven CSV cleaning;
- SDTM masking with a USUBJID baseline;
- the worksheet-to-CSV helpers, with Windows-safe names and the Excel date-format renderer;
- full-width to half-width conversion;
- CSV field unquoting;
- the field-extractor bookkeeping;
- dead-link outcome classification and its summaries;
- the Qt file-list widget.

Tables are modelled as a header plus rows of strings (`Tables.Table`). Everything that reads or writes files is replaced by parameters:

- pandas, openpyxl and csv;
- `os.walk`, `glob`, `os.path.exists`;
- HTTP requests, `eval` and the Qt item list.

A parameter of this kind is a table or a listing, a `Result` standing for "parsed" or "raised", an evaluator function, or an abstract network `Probe`.

One module per source file:

- `DateUtils`, `CodelistProcess`, `DataCleaning`, `DataMasking`;
- `XlsxSheetSplitter`, `FullwidthConverter`, `CsvQuoteRemover`, `FileFieldExtractor`;
- `DeadLinkChecker`, `QtCommon`, `DeadLinkWindow`.

Five helper modules sit under them: `Wrappers`, `Text`, `Seqs`, `Paths`, `Tables`.

Where the code keeps state, the model is a class, and each method is specified against a function of the inputs and the old state:

- `CodelistProcessor`, `DataCleaner`, `MaskingProcessor`;
- `NameRegistry`, `Extractor`, `FileListWidget`, `Window`.

Where the code loops, the model is a method with a loop proved against a specification function. Examples are the quote-peeling loop, the counters, the first-free-name searches and the summary formatters.

The design description of the migration tools describes partial-date handling for the date converter:

- an invalid day or month truncates the date;
- sentinel `UNK`/`99`/`9999` parts are recognised.

The code in `src/utils/date_utils.py` and `_convert_date_string` does neither. It does no range check at all. The model follows the code: `DateUtils.ExampleMonthOutOfRange` shows `2020/13/05` becoming `2020-13-05`.

## Model

| member | source | states |
|---|---|---|
| DateUtils.ConvertToIso8601 | src/utils/date_utils.py:1-26 | blank input gives ""; input without exactly two `/`, or with a part that is not an integer, is returned unchanged; otherwise the result is year-MM-DD with month and day zero-padded |
| DateUtils.IsoText | src/utils/date_utils.py:18-22 | the rendered date is a numeral with at least five characters and no `/` |
| DateUtils.ConvertPrinted | src/utils/date_utils.py:10-22 | any three integers written as `y/m/d` convert to the padded ISO text of the same numbers |
| DateUtils.ConvertZeroPadded | src/utils/date_utils.py:13-22 | extra leading zeros in any part are read through by int() and do not change the result |
| DateUtils.ConvertIdempotent | src/utils/date_utils.py:1-26 | converting twice equals converting once |
| DateUtils.ExampleYearUnpadded | src/utils/date_utils.py:13-22 | "0020/1/2" gives "20-01-02": the year is printed unpadded |
| DateUtils.ExampleMonthOutOfRange | src/utils/date_utils.py:13-22 | "2020/13/05" gives "2020-13-05": no range check |
| CodelistProcess.RemoveCPrefix | src/utils/codelist_process.py:79-83 | exactly one leading "C-" is removed, otherwise the name is unchanged |
| CodelistProcess.RemoveCPrefixOnce | src/utils/codelist_process.py:79-83 | removing from "C-"+x gives x, so "C-C-x" keeps its second prefix |
| CodelistProcess.AddFPrefix | src/utils/codelist_process.py:85-89 | the result starts with "F-"; a name already starting so is unchanged |
| CodelistProcess.AddFPrefixIdempotent | src/utils/codelist_process.py:85-89 | adding the prefix twice equals adding it once |
| CodelistProcess.OutputFileName | src/utils/codelist_process.py:197-202 | the output name starts with "F-" and ends with ".csv" |
| CodelistProcess.OutputFileNameOfCleaned | src/utils/codelist_process.py:197-202 | the cleaner's output `dir/C-x.csv` becomes `F-x.csv` |
| CodelistProcess.RuleStemOfCleaned | src/utils/codelist_process.py:157-168 | for `dir/C-x.csv` the rule stem is x, and rules for file "x" and for "x.csv" both apply |
| CodelistProcess.LastCodeRow | src/utils/codelist_process.py:40-53 | finds the last CodeList row with that codelist and code (-1 when none) |
| CodelistProcess.GroupMapLookup | src/utils/codelist_process.py:40-55 | a code is in a codelist's map iff some row carries it; its value is the last such row's display, with "nan" read as "" |
| CodelistProcess.CodelistProcessor.constructor | src/utils/codelist_process.py:9-15 | both mapping dictionaries start empty |
| CodelistProcess.CodelistProcessor.ProcessCodelistMappings | src/utils/codelist_process.py:36-57 | code_mappings gains one map per codelist name, each the group's last-row-wins map; subjid mappings unchanged |
| CodelistProcess.CodelistProcessor.BuildGroupMap | src/utils/codelist_process.py:45-53 | the per-group loop computes the group's map |
| CodelistProcess.CodelistProcessor.ProcessSubjidMappings | src/utils/codelist_process.py:59-77 | subjid_mappings is the old map with each good Files row assigned in order; code mappings unchanged |
| CodelistProcess.SubjidPairsValid | src/utils/codelist_process.py:74-75 | only rows with a non-empty key and a non-empty field other than "nan" (any case) are stored |
| CodelistProcess.SubjidKeyDropsCsv | src/utils/codelist_process.py:64-71 | a FILENAME with and without ".csv" gives the same key |
| CodelistProcess.ApplyRule | src/utils/codelist_process.py:171-185 | only the rule's column changes, each cell through the codelist map ("nan" to "", unmapped unchanged); the table is untouched when the field or codelist is unknown |
| CodelistProcess.ApplyRules | src/utils/codelist_process.py:171-185 | applying the rules in order keeps the header and row count |
| CodelistProcess.ApplyRulesUntouched | src/utils/codelist_process.py:171-185 | a column no rule names is unchanged |
| CodelistProcess.ConvertDateString | src/utils/codelist_process.py:121-135 | "" and "nan" come back as-is; a stripped `dddd/d{1,2}/d{1,2}` becomes a hyphen date whose year is the input year and whose month and day read back to the input numbers; anything else comes back stripped |
| CodelistProcess.HyphenDateFixed | src/utils/codelist_process.py:126-135 | a hyphen date is left alone |
| CodelistProcess.ConvertDateStringIdempotent | src/utils/codelist_process.py:121-135 | converting twice equals converting once |
| CodelistProcess.AgreesWithConvertToIso8601 | src/utils/codelist_process.py:121-135 | on a slash date whose year has no leading zero, this converter agrees with convert_to_iso8601 |
| CodelistProcess.Sample | src/utils/codelist_process.py:102-106 | the sample is the column's first min(100, n) cells, each stripped |
| CodelistProcess.CodelistProcessor.SampleCounts | src/utils/codelist_process.py:99-111 | the counter loop counts the non-empty sampled cells and the date-shaped ones; dates never exceed non-empty |
| CodelistProcess.CodelistProcessor.ConvertDateFormats | src/utils/codelist_process.py:91-119 | a cell is converted iff its column is a date column of the input (some non-empty sample, dates at least 30%); every other cell is unchanged |
| CodelistProcess.CodelistProcessor.ConvertColumn | src/utils/codelist_process.py:115-117 | only column k is rewritten, cell by cell |
| CodelistProcess.RenameHeader | src/utils/codelist_process.py:142-144 | every header equal to the field becomes "SUBJID", the others stay |
| CodelistProcess.RenameSubjid | src/utils/codelist_process.py:137-149 | rows are unchanged; the header is renamed only when the stem has a mapping whose field is present |
| CodelistProcess.CodelistProcessor.ProcessCsvFile | src/utils/codelist_process.py:151-206 | each cell is the rule-mapped cell, date-converted iff its column is a date column after mapping; the header is renamed; the output goes to `F-…csv` in the chosen folder |
| DataCleaning.KeepOfLookup | src/utils/data_cleaning.py:31-37 | KEEP has a file iff some row names it; a field is in KEEP[file] iff some row pairs them |
| DataCleaning.KeepFromFlagged | src/utils/data_cleaning.py:29-37 | only rows flagged ○, 〇 or ◯ contribute to KEEP |
| DataCleaning.Trimmed | src/utils/data_cleaning.py:55-58 | a stored filter is non-empty and already stripped |
| DataCleaning.RowFiltersLookup | src/utils/data_cleaning.py:44-63 | ROW_FILTERS has a file iff some row gives it a non-blank logic; its list is those logics stripped, in sheet order |
| DataCleaning.RowFiltersValid | src/utils/data_cleaning.py:54-63 | every stored filter list is non-empty and holds non-empty stripped strings |
| DataCleaning.KeepSubjects | src/utils/data_cleaning.py:81-82 | a subsequence of the rows that keeps every copy of each row whose subject id is in PAT and no copy of any other row |
| DataCleaning.FilterOnce | src/utils/data_cleaning.py:88-94 | one filter succeeds iff it evaluates on every row, and then keeps the rows where it holds, in order |
| DataCleaning.ApplyFiltersAllPass | src/utils/data_cleaning.py:87-94 | the filters in sequence keep exactly the rows passing all of them, an order-preserving subsequence |
| DataCleaning.ApplyFiltersFail | src/utils/data_cleaning.py:87-94 | once one filter raises, the whole run fails |
| DataCleaning.PickKeptHeader | src/utils/data_cleaning.py:97-100 | the kept column indices pick exactly the header names in the keep set, in order |
| DataCleaning.KeptIndicesSpec | src/utils/data_cleaning.py:96-100 | the kept column positions are strictly increasing and include every column whose name is in the keep set |
| DataCleaning.Project | src/utils/data_cleaning.py:96-100 | the output header is the input header filtered by the keep set; output column `j` is input column `KeptIndices(..)[j]`, with the same name and the same cell in every row |
| DataCleaning.DropBlankRows | src/utils/data_cleaning.py:103-109 | a subsequence of the rows that keeps every copy of each row with a non-blank cell outside the subject column and no copy of any other row |
| DataCleaning.SubjectStep | src/utils/data_cleaning.py:78-84 | with a configured and present subject field, every copy of a row whose id is in PAT survives and no other row does; otherwise the table is unchanged |
| DataCleaning.FilterStep | src/utils/data_cleaning.py:86-94 | no filters leaves the table; otherwise a success is the rows passing all filters |
| DataCleaning.ProjectStep | src/utils/data_cleaning.py:96-100 | a file absent from KEEP keeps all columns; otherwise the header is filtered and each output cell is the input cell of the kept column |
| DataCleaning.BlankStep | src/utils/data_cleaning.py:102-109 | when the subject column is present next to others, every copy of a non-blank row survives and no blank row does; otherwise the table is unchanged |
| DataCleaning.Clean | src/utils/data_cleaning.py:67-132 | when no filter raises, a table is written iff the one-pass table `Expected` (the input rows whose subject is in PAT, that pass every filter and are not blank once pruned, in input order, cut to the kept columns) is non-empty, and the written table is that table; the outcome is a failure exactly when the file has row filters and one of them raises on the rows left by the subject filter and the filters before it |
| DataCleaning.CleanPipeline | src/utils/data_cleaning.py:78-109 | the subject filter, the row filters, the column pruning and the blank-row drop in sequence give exactly the one-pass table |
| DataCleaning.DataCleaner.constructor | src/utils/data_cleaning.py:8-13 | all four rule collections start empty |
| DataCleaning.DataCleaner.SelectRuleFile | src/utils/data_cleaning.py:15-65 | PAT, KEEP, ROW_FILTERS and SUBJID_FIELDS are built from the flagged rows only; a missing Files sheet leaves the last two unchanged |
| DataCleaning.DataCleaner.BuildKeep | src/utils/data_cleaning.py:31-37 | the loop builds KEEP |
| DataCleaning.DataCleaner.BuildFileRules | src/utils/data_cleaning.py:44-63 | the loop builds ROW_FILTERS and SUBJID_FIELDS (last row wins) |
| DataCleaning.DataCleaner.CleanCsvFile | src/utils/data_cleaning.py:67-132 | the pipeline result; a written file is "C-" + the basename in the chosen folder |
| DataCleaning.DataCleaner.RunFilters | src/utils/data_cleaning.py:87-94 | the loop over filters computes the filter step |
| DataMasking.ProcessSubjectId | src/utils/data_masking_processor.py:169-190 | blank values stay; otherwise the result starts "SKLT", has length max(4, n), and keeps characters after the fourth |
| DataMasking.ProcessSubjectIdIdempotent | src/utils/data_masking_processor.py:184-188 | masking a subject id twice equals masking once |
| DataMasking.MaskIfPresent | src/utils/data_masking_processor.py:132-158 | blank values stay; others become the mask constant |
| DataMasking.AgeMask | src/utils/data_masking_processor.py:243-272 | blank or non-integer ages are returned unchanged |
| DataMasking.AgeMaskValue | src/utils/data_masking_processor.py:256-268 | an integer age reads back as two less, floored at zero |
| DataMasking.FirstFormatParses | src/utils/data_masking_processor.py:209-238 | the format found parses the value, giving the date found |
| DataMasking.FirstFormatSpec | src/utils/data_masking_processor.py:209-238 | no listed format before the one found parses the value |
| DataMasking.FirstFormatNone | src/utils/data_masking_processor.py:209-232 | when no format is found, none of the listed formats parses the value |
| DataMasking.SubtractTwoYears | src/utils/data_masking_processor.py:192-241 | blank or unparseable values are returned unchanged |
| DataMasking.ParseRender | src/utils/data_masking_processor.py:209-238 | rendering a valid date in a listed format parses back to it |
| DataMasking.SubtractTwoYearsReparses | src/utils/data_masking_processor.py:202-241 | the shifted value parses in the same format to the date two years earlier, or the value is returned unchanged when that date is invalid |
| DataMasking.ShiftIsoDate | src/utils/data_masking_processor.py:202-241 | an ISO date shifts to the ISO date two years earlier |
| DataMasking.LeapDayUnchanged | src/utils/data_masking_processor.py:232-241 | a 29 February is returned unchanged |
| DataMasking.FindFormat | src/utils/data_masking_processor.py:209-238 | the format-trial loop finds the first format that parses |
| DataMasking.SubtractTwoYearsFromDate | src/utils/data_masking_processor.py:192-241 | the method computes the year shift |
| DataMasking.DmOnlyRules | src/utils/data_masking_processor.py:110-165 | outside DM.CSV only STUDYID, subject and date rules apply; the DM file differs only for SITEID, INVNAM, ICINVNAM and AGE |
| DataMasking.BlankUntouched | src/utils/data_masking_processor.py:130-165 | every rule leaves blank cells unchanged |
| DataMasking.FindUpper | src/utils/data_masking_processor.py:114-118 | finds the first column whose upper-cased name matches |
| DataMasking.BaselineFilter | src/utils/data_masking_processor.py:112-127 | with a baseline and a USUBJID column, a subsequence that keeps every copy of each row whose USUBJID is in the baseline and no other row; otherwise all rows |
| DataMasking.BaselineOf | src/utils/data_masking_processor.py:47-52 | the baseline is the first min(100, n) of the n non-blank USUBJID values, in file order |
| DataMasking.MaskingProcessor.constructor | src/utils/data_masking_processor.py:11-20 | the baseline starts empty |
| DataMasking.MaskingProcessor.FindColumn | src/utils/data_masking_processor.py:37-41 | the search loop finds the first matching column |
| DataMasking.MaskingProcessor.SetBaselineFromDm | src/utils/data_masking_processor.py:22-59 | succeeds iff the file reads and has a USUBJID column, then sets the baseline; otherwise the baseline is untouched |
| DataMasking.MaskingProcessor.ClearBaseline | src/utils/data_masking_processor.py:288-290 | the baseline becomes empty |
| DataMasking.MaskingProcessor.ApplyMaskingRules | src/utils/data_masking_processor.py:96-167 | every cell of the baseline-filtered table is rewritten by the single rule its column name selects |
| DataMasking.MaskColumn | src/utils/data_masking_processor.py:130-165 | one column is rewritten by one rule, every other cell unchanged |
| XlsxSheetSplitter.ReplaceUnsafe | src/utils/xlsx_sheet_splitter.py:113-114 | each reserved or control character becomes `_`, other characters stay |
| XlsxSheetSplitter.Cleaned | src/utils/xlsx_sheet_splitter.py:110-117 | the cleaned name is non-empty, has no unsafe character and does not end in space or dot |
| XlsxSheetSplitter.SanitizeSheetName | src/utils/xlsx_sheet_splitter.py:110-121 | the result is clean and not a reserved device name; a reserved name gets a `_` suffix |
| XlsxSheetSplitter.SanitizeIdempotent | src/utils/xlsx_sheet_splitter.py:110-121 | sanitising twice equals sanitising once |
| XlsxSheetSplitter.FirstFree | src/utils/xlsx_sheet_splitter.py:128-135 | the counter search stops at the first unused `name_k` |
| XlsxSheetSplitter.UniqueName | src/utils/xlsx_sheet_splitter.py:124-135 | the name if unused, else `name_k` for the smallest unused k ≥ 1 |
| XlsxSheetSplitter.NameRegistry.constructor | src/utils/xlsx_sheet_splitter.py:69 | the used-name set starts empty |
| XlsxSheetSplitter.NameRegistry.MakeUniqueName | src/utils/xlsx_sheet_splitter.py:124-135 | the result was not used before, and the used set grows by exactly it |
| XlsxSheetSplitter.NameSheets | src/utils/xlsx_sheet_splitter.py:69-81 | the sheets' output names, one registry shared across them |
| XlsxSheetSplitter.OutputNamesDistinct | src/utils/xlsx_sheet_splitter.py:69-81 | one name per sheet, all distinct, none previously used |
| XlsxSheetSplitter.CellToStringEmpty | src/utils/xlsx_sheet_splitter.py:165-177 | a cell prints as "" iff it is None or an empty string |
| XlsxSheetSplitter.LastFilled | src/utils/xlsx_sheet_splitter.py:147-150 | the index of the last non-empty cell of a row |
| XlsxSheetSplitter.MaxFilledIsMax | src/utils/xlsx_sheet_splitter.py:142-150 | no row's last-filled index exceeds the maximum, and when it is not -1 some row attains it |
| XlsxSheetSplitter.DropTrailingEmpty | src/utils/xlsx_sheet_splitter.py:153-155 | a prefix of the rows whose last row is not all empty, and only all-empty rows are dropped |
| XlsxSheetSplitter.SheetGridKeepsValues | src/utils/xlsx_sheet_splitter.py:142-157 | each output row is a prefix of its input row, every non-empty cell is kept, and no trailing row is all empty |
| XlsxSheetSplitter.SheetGridEmpty | src/utils/xlsx_sheet_splitter.py:142-157 | the output is empty iff every cell is empty |
| XlsxSheetSplitter.PrintRows | src/utils/xlsx_sheet_splitter.py:141-148 | the row loop prints every cell and tracks the largest last-filled index |
| XlsxSheetSplitter.LastNonEmpty | src/utils/xlsx_sheet_splitter.py:143-147 | the backward scan stops at the last non-empty cell, or at -1 |
| XlsxSheetSplitter.PopEmptyRows | src/utils/xlsx_sheet_splitter.py:153-154 | popping all-empty last rows leaves the rows without their empty tail |
| XlsxSheetSplitter.ReadSheetAsStrings | src/utils/xlsx_sheet_splitter.py:138-157 | the loops compute the trimmed grid of printed cells |
| XlsxSheetSplitter.NormalizeFormat | src/utils/xlsx_sheet_splitter.py:181-188 | the normalised format has no `;` and no bracketed or quoted segment |
| XlsxSheetSplitter.RemoveWithoutOpener | src/utils/xlsx_sheet_splitter.py:185-186 | text without an opener is left unchanged |
| XlsxSheetSplitter.SplitAtHour | src/utils/xlsx_sheet_splitter.py:189-190 | the two parts rejoin to the format; the date part has no `h`; the time part starts at the first `h` |
| XlsxSheetSplitter.RunsAreLetters | src/utils/xlsx_sheet_splitter.py:204-217 | the tokens are runs of one of y, m, d, and together they are exactly the date letters in order |
| XlsxSheetSplitter.ExtractDateTokens | src/utils/xlsx_sheet_splitter.py:204-217 | the index-scanning loop yields the maximal runs |
| XlsxSheetSplitter.DetectDateSeparator | src/utils/xlsx_sheet_splitter.py:220-227 | `/` iff present, else `-` iff present, else `.` iff present, else `-` |
| XlsxSheetSplitter.DateParts | src/utils/xlsx_sheet_splitter.py:236-257 | one rendered part per token |
| XlsxSheetSplitter.TokenPartValue | src/utils/xlsx_sheet_splitter.py:241-257 | each part is digits reading back as year mod 100 (short y), the year, the month or the day |
| XlsxSheetSplitter.RenderNoTokens | src/utils/xlsx_sheet_splitter.py:233-234 | no tokens renders as yyyy, mm, dd |
| XlsxSheetSplitter.RenderReadBack | src/utils/xlsx_sheet_splitter.py:230-259 | splitting the rendered date at the separator gives one digit string per token, reading back as its value |
| XlsxSheetSplitter.ShouldIncludeTime | src/utils/xlsx_sheet_splitter.py:262-267 | never for a plain date; always for a datetime not at midnight |
| XlsxSheetSplitter.TimeParts | src/utils/xlsx_sheet_splitter.py:270-272 | hours, minutes, and seconds iff `s` is in the time part, two digits each |
| XlsxSheetSplitter.RenderTimeReadBack | src/utils/xlsx_sheet_splitter.py:270-272 | splitting the time at `:` gives digit strings reading back as those fields |
| XlsxSheetSplitter.FormatExcelDateNotEmpty | src/utils/xlsx_sheet_splitter.py:180-201 | a formatted date is never empty |
| XlsxSheetSplitter.FormatExcelDateShape | src/utils/xlsx_sheet_splitter.py:180-201 | the result is the rendered date tokens of the normalised date part, possibly followed by a space and the rendered time; a plain date has no time |
| XlsxSheetSplitter.ExampleSlashDate | src/utils/xlsx_sheet_splitter.py:180-259 | the format "dd/mm/yyyy" renders a date as DD/MM/YYYY |
| FullwidthConverter.Block | src/utils/fullwidth_to_halfwidth_converter.py:14-42 | the table entries run over U+FF01–U+FF5E mapping each to itself − 0xFEE0 |
| FullwidthConverter.Half | src/utils/fullwidth_to_halfwidth_converter.py:14-42 | the per-character map changes exactly the table keys, and its image is never a key |
| FullwidthConverter.CharMapIsHalf | src/utils/fullwidth_to_halfwidth_converter.py:14-42 | the table has 95 entries, each a key mapped by the per-character map, and its keys are exactly U+3000 and U+FF01–U+FF5E |
| FullwidthConverter.Replace | src/utils/fullwidth_to_halfwidth_converter.py:58-59 | one replacement changes exactly the positions holding its key |
| FullwidthConverter.Converted | src/utils/fullwidth_to_halfwidth_converter.py:57-61 | conversion keeps the length and maps each character |
| FullwidthConverter.ReplaceEach | src/utils/fullwidth_to_halfwidth_converter.py:58-59 | replacing each table entry in turn maps every key character to its half-width form and keeps every other character |
| FullwidthConverter.ConvertText | src/utils/fullwidth_to_halfwidth_converter.py:44-61 | the replacement loop over the table equals the per-character map; non-text is returned unchanged |
| FullwidthConverter.ConvertedHasNoKey | src/utils/fullwidth_to_halfwidth_converter.py:57-61 | the result holds no table key |
| FullwidthConverter.ConvertIdempotent | src/utils/fullwidth_to_halfwidth_converter.py:57-61 | converting twice equals converting once |
| FullwidthConverter.ConvertUnchanged | src/utils/fullwidth_to_halfwidth_converter.py:57-61 | text without keys is unchanged |
| FullwidthConverter.KeyCountIsChanges | src/utils/fullwidth_to_halfwidth_converter.py:104-127 | the number of keys equals the number of changed positions |
| FullwidthConverter.GetConversionStats | src/utils/fullwidth_to_halfwidth_converter.py:104-127 | both counts equal the number of key positions; non-text gives zeros |
| CsvQuoteRemover.Peel | src/utils/csv_quote_remover_processor.py:53-54 | after peeling, the field no longer starts and ends with a quote, and it never grew |
| CsvQuoteRemover.PeelEnclose | src/utils/csv_quote_remover_processor.py:53-54 | any number of enclosing quote pairs is removed from an unquoted field |
| CsvQuoteRemover.Undouble | src/utils/csv_quote_remover_processor.py:56 | undoubling never lengthens |
| CsvQuoteRemover.UndoubleDouble | src/utils/csv_quote_remover_processor.py:56 | undoubling inverts the CSV doubling of quotes |
| CsvQuoteRemover.CleanField | src/utils/csv_quote_remover_processor.py:50-57 | a cleaned field is never longer than the original |
| CsvQuoteRemover.CleanFieldRecovers | src/utils/csv_quote_remover_processor.py:50-57 | a value doubled and wrapped in quotes any number of times is recovered |
| CsvQuoteRemover.CleanedRows | src/utils/csv_quote_remover_processor.py:46-58 | row count, field count and order are kept, each field cleaned |
| CsvQuoteRemover.PeelField | src/utils/csv_quote_remover_processor.py:50-56 | stripping, peeling enclosing quote pairs one by one and undoubling gives the cleaned field |
| CsvQuoteRemover.CleanRowFields | src/utils/csv_quote_remover_processor.py:48-57 | the field loop cleans every field of a row, in order |
| CsvQuoteRemover.CleanRows | src/utils/csv_quote_remover_processor.py:46-58 | the row loop cleans every row, keeping their count and order |
| CsvQuoteRemover.OutputTarget | src/utils/csv_quote_remover_processor.py:24-31 | no output path overwrites the input; otherwise the basename goes into the output folder |
| CsvQuoteRemover.ProcessFile | src/utils/csv_quote_remover_processor.py:13-68 | success iff reading and writing succeed, then ("", cleaned rows); otherwise the error message |
| FileFieldExtractor.SupportedEndsWith | src/utils/file_field_extractor.py:96-97 | a supported name ends, case-insensitively, in .csv, .xlsx or .xlsm |
| FileFieldExtractor.SupportedName | src/utils/file_field_extractor.py:96-97 | a name whose extension lowers to a supported one is supported |
| FileFieldExtractor.SortStrings | src/utils/file_field_extractor.py:93 | the result is sorted and a permutation of the input |
| FileFieldExtractor.CollectFiles | src/utils/file_field_extractor.py:81-94 | the walk keeps the supported files (top level unless recursive) and returns them sorted |
| FileFieldExtractor.FirstDecodingIsFirst | src/utils/file_field_extractor.py:108-122 | decoding succeeds iff some encoding works, and then with the first that works |
| FileFieldExtractor.ExtractFromCsv | src/utils/file_field_extractor.py:107-122 | the encoding loop tries each encoding in order |
| FileFieldExtractor.SheetFields | src/utils/file_field_extractor.py:130-136 | one field per column, or one failure entry, each prefixed "sheet: " |
| FileFieldExtractor.ExcelFieldsNamed | src/utils/file_field_extractor.py:124-137 | every Excel field is named after one of the sheets |
| FileFieldExtractor.ExtractFromExcel | src/utils/file_field_extractor.py:124-137 | a workbook that fails to open gives the error; otherwise the sheets' fields |
| FileFieldExtractor.ExtractFieldsFromFile | src/utils/file_field_extractor.py:99-105 | dispatch by lower-cased extension; unsupported types give an error |
| FileFieldExtractor.Details | src/utils/file_field_extractor.py:59-70 | one (file, fields) entry per file, failing files with [] |
| FileFieldExtractor.ErrorsCount | src/utils/file_field_extractor.py:59-70 | exactly one error per failing file |
| FileFieldExtractor.FieldTotalSuccesses | src/utils/file_field_extractor.py:59-70 | files that all fail contribute no fields |
| FileFieldExtractor.FieldTotalOfSuccesses | src/utils/file_field_extractor.py:59-70 | the field total over all files equals the total over the files that were read, so failing files add nothing |
| FileFieldExtractor.BuildOutputPath | src/utils/file_field_extractor.py:153-162 | the first name in file_fields_summary.csv, _1, _2, … that is not taken |
| FileFieldExtractor.SummaryNamesBound | src/utils/file_field_extractor.py:153-162 | the search ends: n taken candidates need n taken names |
| FileFieldExtractor.FileRows | src/utils/file_field_extractor.py:143-150 | one (file, field) row per field, or one (file, "") row for no fields |
| FileFieldExtractor.BodyRowsCount | src/utils/file_field_extractor.py:143-150 | the body has total-fields rows plus one per file without fields, each of two cells |
| FileFieldExtractor.AppendFileRows | src/utils/file_field_extractor.py:143-150 | the inner loop appends a file's rows |
| FileFieldExtractor.WriteResultRows | src/utils/file_field_extractor.py:139-151 | the header row followed by every file's rows |
| FileFieldExtractor.Tally | src/utils/file_field_extractor.py:55-78 | the loop accumulates details, errors and the field total |
| FileFieldExtractor.Extractor.constructor | src/utils/file_field_extractor.py:13-19 | an empty encoding list means the default list |
| FileFieldExtractor.Extractor.ExtractFields | src/utils/file_field_extractor.py:21-79 | not-a-folder, header_row < 1 and no supported files are errors in that order; otherwise details, processed count, errors, total and rows over the sorted files, and the output path is the first `file_fields_summary` name not present in the folder |
| DeadLinkChecker.Scheme | src/utils/dead_link_checker.py:108-110 | once tabs and line breaks are deleted, a non-empty scheme is the lower-cased text before the first `:`, starting with a letter |
| DeadLinkChecker.SchemeIgnoresUnsafe | src/utils/dead_link_checker.py:108-110 | a tab, carriage return or newline anywhere in a URL does not change its scheme |
| DeadLinkChecker.AnchorHasNoScheme | src/utils/dead_link_checker.py:108-118 | a `#…` URL has the empty scheme, so it is skipped before the anchor branch |
| DeadLinkChecker.CheckLink | src/utils/dead_link_checker.py:90-192 | the result follows the skip rule, the HEAD→GET retry, the alive/dead split at 400, the timeout fallback and the error classes |
| DeadLinkChecker.LinkCheckedUnique | src/utils/dead_link_checker.py:90-192 | the outcome is determined by the URL and the probe |
| DeadLinkChecker.LinkCheckedStatus | src/utils/dead_link_checker.py:108-190 | the status is one of the five keys; alive iff a code below 400; skipped iff the scheme is skipped; a dead code is at least 400 |
| DeadLinkChecker.PossibleFalsePositiveOrigin | src/utils/dead_link_checker.py:131-151 | a possible false positive comes from a blocked HEAD whose GET retry answered 403 |
| DeadLinkChecker.Bump | src/utils/dead_link_checker.py:232-233 | one check adds one to the total |
| DeadLinkChecker.TallyCounts | src/utils/dead_link_checker.py:219-244 | each summary count is the number of checks with that status, and they sum to the number of checks |
| DeadLinkChecker.CheckHtmlFile | src/utils/dead_link_checker.py:194-244 | each unique link is checked once, in order, and tallied |
| DeadLinkChecker.FileSummaryTotal | src/utils/dead_link_checker.py:219-244 | the counts sum to unique_links, the number of distinct links, which is at most total_links |
| DeadLinkChecker.HtmlFilesCount | src/utils/dead_link_checker.py:268-271 | the listing holds exactly the .html and .htm names, each once |
| DeadLinkChecker.CheckFolder | src/utils/dead_link_checker.py:246-286 | total_files equals the number of files found, with one checked result per file in discovery order |
| DeadLinkChecker.PartitionDead | src/utils/dead_link_checker.py:327-337 | the loop splits the checks into confirmed dead and possible false positives |
| DeadLinkChecker.DeadPartition | src/utils/dead_link_checker.py:327-337 | the two groups partition the dead checks |
| QtCommon.PickFont | src/gui/qt_common.py:11-16 | the first candidate the family set has, else the fallback |
| QtCommon.StoredExts | src/gui/qt_common.py:71-76 | extensions are lower-cased, and an empty list becomes None |
| QtCommon.ExpandNoEmpty | src/gui/qt_common.py:95-107 | empty paths are skipped and existing files are kept |
| QtCommon.FreshSpec | src/gui/qt_common.py:111-119 | the appended paths are distinct, none already listed, every candidate is listed afterwards, and they appear in the order of their first occurrences among the candidates |
| QtCommon.FileListWidget.constructor | src/gui/qt_common.py:44-73 | an empty list with the stored extensions and the two flags |
| QtCommon.FileListWidget.SetAllowedExts | src/gui/qt_common.py:75-76 | only the stored extensions change |
| QtCommon.FileListWidget.Paths | src/gui/qt_common.py:121-122 | the items, in order |
| QtCommon.FileListWidget.ExpandPaths | src/gui/qt_common.py:95-107 | the loop expands files and folders |
| QtCommon.FileListWidget.AppendFresh | src/gui/qt_common.py:111-119 | the dedup loop appends exactly the fresh paths and returns them |
| QtCommon.FileListWidget.AddPaths | src/gui/qt_common.py:93-119 | the old list is kept as a prefix, only fresh paths are appended and returned, they match the allowed extensions, and the list stays duplicate-free |
| QtCommon.FileListWidget.FilterByExts | src/gui/qt_common.py:124-132 | without extensions a no-op returning 0; otherwise the matching items remain in order and the count removed is returned |
| QtCommon.RemoveAt | src/gui/qt_common.py:130 | taking an item out shortens the list by one |
| QtCommon.FileListWidget.TakeUnmatched | src/gui/qt_common.py:127-132 | the reverse index loop removes exactly the items failing the test, keeping the order of the rest, and counts them |
| QtCommon.FilterNoDup | src/gui/qt_common.py:124-132 | filtering keeps the list duplicate-free |
| DeadLinkWindow.ListingShape | src/gui/widgets/dead_link_checker.py:449-455 | a truncated listing shows the first min(n, limit) items in order, then the overflow line iff there are more |
| DeadLinkWindow.FormatSummary | src/gui/widgets/dead_link_checker.py:420-464 | the lines appended are the summary lines, joined by newlines |
| DeadLinkWindow.SummaryListsFirstConfirmed | src/gui/widgets/dead_link_checker.py:441-455 | after the title come the first min(15, n) confirmed-dead checks, in check order |
| DeadLinkWindow.SummaryOverflow | src/gui/widgets/dead_link_checker.py:449-462 | an "  ... 还有 N 个" line appears iff more than 15 checks are confirmed dead; false positives are never listed |
| DeadLinkWindow.FolderTotals | src/gui/widgets/dead_link_checker.py:473-505 | the folder totals cover every unique link, and the dead total is zero iff no file is listed as having dead links |
| DeadLinkWindow.FormatFolderSummary | src/gui/widgets/dead_link_checker.py:466-507 | the totals loop sums the per-file counts, and the dead-file listing follows |
| DeadLinkWindow.FolderListsFirstDeadFiles | src/gui/widgets/dead_link_checker.py:496-505 | the first min(10, n) files with dead links are listed in order, with the overflow line last iff there are more than 10 |
| DeadLinkWindow.Window.constructor | src/gui/widgets/dead_link_checker.py:55-56 | not checking, no output file |
| DeadLinkWindow.Window.StartChecking | src/gui/widgets/dead_link_checker.py:328-372 | refuses while checking, with a blank path, or with a missing path, changing nothing; otherwise sets the flag, refuses a click during the work, and always clears the flag |
| DeadLinkWindow.DroppedPath | src/gui/widgets/dead_link_checker.py:531-539 | only the first path is looked at; a directory is accepted, a non-directory iff it is a file ending in .html/.htm in any case |
| DeadLinkWindow.Window.HandleDrop | src/gui/widgets/dead_link_checker.py:531-539 | the path field is set to the accepted path, else unchanged |

## Left out

- File, workbook and network I/O are parameters:
  - pandas/openpyxl reads and writes;
  - `to_csv`, `os.makedirs`;
  - `requests`, BeautifulSoup link extraction and `urljoin`;
  - `generate_report` and the report text beyond the dead/false-positive partition;
  - message boxes, logging, progress bars and `print`;
  - `csv.Sniffer` delimiter detection.
- `os.walk`, `glob`, `os.path.isfile`/`isdir`/`exists` and the Qt item list are inputs. `pathlib` glob case sensitivity is taken as case-sensitive suffix matching.
- Text is ASCII-only in three places:
  - Python's Unicode `str.strip`, `upper`/`lower`, `int()` and `\d` are restricted to ASCII whitespace (space, `\t`, `\n`, `\r`, `\x0b`, `\x0c` and the separators `\x1c`–`\x1f`), letters and digits;
  - `int()` is read as an optional sign and ASCII digits, without underscores or surrounding Unicode spaces;
  - `str(value)` of a non-date cell is abstract (`Plain`), and a `None` number format is read as "".
- The row-filter `eval` is an evaluator parameter returning a truth value or "raised".
- DataMasking.AgeMask: exact only for ages that `int()` reads and whose magnitude is below 2^53. The code reads the value with `float` and behaves differently on the rest: a value with a fractional part such as "3.5" becomes "1.5", and one below 2 such as "0.5" becomes "0"; an integral float such as "3.0" or "1e2" prints as an integer ("1", "98"); "nan" comes back unchanged (`int(nan)` raises a `ValueError` the code catches); "inf" raises an `OverflowError` in `int()` that the code does not catch, so `process_file` fails the whole file; an integer at or beyond 2^53 is rounded to a float first, so "9007199254740993" gives "9007199254740990". The model returns every value `int()` cannot read unchanged and subtracts exactly.
- DataMasking.SubtractTwoYears: only the eight listed digit formats are modelled, with Python `re` matching of `%Y`, `%m`, `%d`, `%H`, `%M`, `%S`. `%Y` is rendered with four digits, although `strftime` on some platforms does not pad years below 1000.
- `process_file` of the masking processor, `split_file`, `convert_file` and `validate_csv_file` are not modelled. They are file plumbing around the modelled rules.
- `add_masking_rule` and `clear_mappings` are not modelled: they touch dictionaries no modelled rule reads.
- The `_render_date_tokens` branch for a value that is not a date is not modelled. Values are dated by construction.
- Full date validation beyond month length and leap years is not modelled.
- `_convert_date_formats` compares with the integer test `10 * dates >= 3 * nonEmpty` in place of the float `0.3`.
- A column's `isinstance(x, str)` guard is always true here, because cells are strings.
- `_rename_subjid_column`'s exception path is not modelled: `rename` with string keys does not raise.
- `CodelistProcessor.select_codelist_file` is not modelled: it reads the three sheets, which are the inputs of the mapping methods.
- `groupby` order does not matter, because each name gets its own map.
- `details` is a list of (file, fields) pairs rather than a dictionary. The files are distinct after sorting, so nothing is lost.
- Relative paths (`os.path.relpath`) are a function parameter.
- `list(set(links))` has no fixed order in Python. It is an input whose elements are the distinct links.
- DeadLinkChecker.Scheme: `urlparse` also strips leading control characters and spaces before reading the scheme. This is not modelled; the deletion of tabs and line breaks anywhere in the URL is.
- DeadLinkChecker.CheckLink: `urlparse` raises `ValueError` on a malformed bracketed host such as `http://[::1/x`, and also when the NFKC-normalised host part contains a character that becomes `/`, `?`, `#`, `@` or `:` (a full-width solidus, say). That call sits outside any `try`, so the error propagates out of `check_html_file` and `check_folder` and ends the run. The model always returns a result for the link.
- Paths.Basename: a Windows drive prefix such as `C:foo.html` is not split off, here or in `Dirname` and `Splitext`; only `/` and `\` separate path parts.
- The `#anchor` branch of `check_link` is unreachable: `DeadLinkChecker.AnchorHasNoScheme` shows such URLs are skipped first.
- Float progress percentages, fonts other than `pick_font`, theming, drag-enter events and dialogs are not modelled.
- `FilterByExts` returns at once when there are no extensions. The code walks the list without removing anything, and the result is the same.
- `WriteResultRows` accumulates the body rows and adds the header at the end. The code writes the header first. The rows written are identical.
- `DeadLinkWindow.Window.StartChecking` takes the outcome of the check as an input (`Reported`, `NoHtmlFiles` or `WorkFailed`). It does not re-run the checker.
- The re-entrant click is modelled as one extra press during the work.
