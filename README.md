# sa360-webquery-bigquery: the WebQuery-to-CSV engine in Dafny

This project models the part of sa360-webquery-bigquery that does the actual
work: it turns a Search Ads 360 WebQuery report (an HTML table) into the CSV
file that is loaded into BigQuery. The rest of the program (OAuth, Cloud
Storage, BigQuery jobs, the thread pool) is plumbing around this engine and
is not modelled.

- `Html2CsvParseHandler` is a SAX handler. Its callbacks are
  `startDocument`, `startElement`, `endElement`, `characters`, `endDocument`
  and `fatalError`. They update per-document fields:
  - the column types from the `col` elements, with TIMESTAMP appended at
    `colgroup` end;
  - the column names from the `th` cells, formatted by `formatHeader`;
  - the text and row accumulators;
  - the flag set at `tbody`, and the row counter.

  At `thead` end the CSV printer is opened with the header names followed by
  the partition column `reporting_date`. Each body `tr` end hands the
  printer the row's cells, each passed through `sanitizeForCsv`, followed by
  the processing timestamp.
  - Module `ParseEvents` gives one transition function per callback, over a
    `HandlerState` value.
  - Module `ParseHandler` gives the class `Html2CsvParseHandler`, whose
    methods update the same fields in place. Each method is proved to
    perform the transition of the same name.
  - A Java `null` field is `None`. Dereferencing one is the outcome
    `Fail(NullPointer(field))`, returned together with the state at the
    point of the throw.
  - The CSV printer is a `CsvSink`: its header, the records handed to it,
    and whether it is still open.
- `formatHeader` (module `HeaderNames`) turns a header cell into a column
  name. It replaces every character outside `[A-Za-z0-9_]` by `_`,
  collapses runs of `_`, and lower-cases the result.
- `sanitizeForCsv` (module `CsvCells`) prepares a cell's text.
  - It doubles every quote in a loop over the buffer.
  - It wraps the result in quotes when the text contains `,` or `\n`, or
    starts or ends with whitespace as `Character.isWhitespace` defines it.
  - It returns the empty field for null, for `""` and for the two-character
    text `""`.
- `WqToBqDataTypeMapper` (module `TypeMapper`) maps a `col` class to a
  BigQuery type. It is a lookup in a constant five-entry map, with `STRING`
  as the default. The map is a `const`, so the same token always gives the
  same type.
- `WebQuery` (module `WebQueries`) covers three things:
  - the constructor's null check;
  - the two accessors;
  - `extractReportId`, the leftmost, greedy match of `rid=(\d+)`.

The end-to-end theorem `ParseProofs.DocumentToCsv` runs the handler over a
well-formed table with any column classes, header texts and body rows. It
states the header the printer is opened with, every record handed to it,
and when the parse fails. `ParseProofs.PaddedDocumentToCsv` extends it to
streams with text between the elements, such as the whitespace a parser
delivers. `ParseProofs.PageToCsv` extends it again to the starts and ends
of the surrounding elements, such as `html` and `body`, which the handler
ignores. `ParseProofs.SplitTextSameRun` covers text split over several
callbacks.

Three results of the code worth stating plainly:
- The header `  Cost (USD)  ` becomes `_cost_usd_`. Underscore runs are
  collapsed, and the leading and trailing blanks each leave one `_`
  (`HeaderNames.FormatHeaderCost`).
- The wrapping check commented "Check for line breaks"
  (Html2CsvParseHandler.java:240) is `contains("\n")` only. A bare `\r`
  does not cause wrapping (`CsvCells.CsvFieldCarriageReturnNotWrapped`).
- The text and row accumulators are never set back to null. A stray `td`
  end is a null dereference only before the first cell or the first body
  row (`ParseProofs.MalformedSequencesFail`). Later it passes: it re-reads
  the last cell's text (`ParseProofs.StaleTextReread`), or adds a cell to
  the already printed row, which is never printed
  (`ParseProofs.StrayCellDropped`).

## Model

| member | source | states |
|---|---|---|
| TypeMapper.TranslateWebQueryTypeToBigQueryType | src/main/java/dswebquerytobigquery/WqToBqDataTypeMapper.java:44-48 | the result is the table entry for a known token and DEFAULT_TYPE otherwise; it is always one of DATE, STRING, INTEGER, FLOAT, never TIMESTAMP |
| TypeMapper.KnownTokens | src/main/java/dswebquerytobigquery/WqToBqDataTypeMapper.java:29-35 | date→DATE, text→STRING, integral→INTEGER, decimal→FLOAT, percent→FLOAT |
| TypeMapper.UnknownTokensGetDefault | src/main/java/dswebquerytobigquery/WqToBqDataTypeMapper.java:44-48 | every token other than the five keys maps to DEFAULT_TYPE, which is "STRING" |
| TypeMapper.CaseVariantsAndEmptyGetDefault | src/main/java/dswebquerytobigquery/WqToBqDataTypeMapper.java:44-48 | the lookup is exact: "Date", "INTEGRAL" and "" get the default |
| WebQueries.ExtractReportId | src/main/java/dswebquerytobigquery/WebQuery.java:64-70 | the id is absent exactly when no `rid=` is followed by an ASCII digit; a present id is a non-empty digit string, `rid=`+id occurs at the leftmost such `rid=`, and the next URL character is not a digit |
| WebQueries.NewWebQuery | src/main/java/dswebquerytobigquery/WebQuery.java:41-44 | construction fails exactly for a null URL; otherwise getQueryUrl returns the URL unchanged and getReportId returns its extracted id |
| WebQueries.GridMatchCounts | src/main/java/dswebquerytobigquery/WebQuery.java:65-67 | the `rid=` inside `grid=12` matches first, giving "12" |
| WebQueries.RidWithoutDigitSkipped | src/main/java/dswebquerytobigquery/WebQuery.java:65-67 | an earlier `rid=x` is skipped and `rid=407` gives "407" |
| WebQueries.NoDigitNoId | src/main/java/dswebquerytobigquery/WebQuery.java:64-70 | `rid=` at the end of the URL gives no id |
| HeaderNames.FormatHeader | src/main/java/dswebquerytobigquery/Html2CsvParseHandler.java:210-220 | null gives ""; every result uses only `[a-z0-9_]` and has no `__`, and it is never longer than the input |
| HeaderNames.CollapseUnderscoresFacts | src/main/java/dswebquerytobigquery/Html2CsvParseHandler.java:218 | collapsing `_{2,}` never lengthens, only keeps input characters, keeps the first one, and leaves no `__` |
| HeaderNames.CollapseUnderscoresKeeps | src/main/java/dswebquerytobigquery/Html2CsvParseHandler.java:218 | a string without `__` is unchanged by the collapse |
| HeaderNames.CollapseUnderscoresConcat | src/main/java/dswebquerytobigquery/Html2CsvParseHandler.java:218 | the collapse distributes over a concatenation that does not split a run of `_` |
| HeaderNames.LowerCaseKeepsName | src/main/java/dswebquerytobigquery/Html2CsvParseHandler.java:219 | lower-casing word characters without `__` yields a column name |
| HeaderNames.FormatHeaderFixesExactlyColumnNames | src/main/java/dswebquerytobigquery/Html2CsvParseHandler.java:216-219 | formatHeader leaves a text unchanged if and only if it is already a column name |
| HeaderNames.FormatHeaderIdempotent | src/main/java/dswebquerytobigquery/Html2CsvParseHandler.java:210-220 | formatting a formatted header changes nothing |
| HeaderNames.FormatHeaderClicks | src/main/java/dswebquerytobigquery/Html2CsvParseHandler.java:216-219 | "Clicks!!" becomes "clicks_" |
| HeaderNames.FormatHeaderCost | src/main/java/dswebquerytobigquery/Html2CsvParseHandler.java:216-219 | "  Cost (USD)  " becomes "_cost_usd_" |
| CsvCells.DoubleQuotes | src/main/java/dswebquerytobigquery/Html2CsvParseHandler.java:227-234 | doubling every quote lengthens the text by exactly the number of quotes |
| CsvCells.IndexOf | src/main/java/dswebquerytobigquery/Html2CsvParseHandler.java:230-231 | the first index at or after `from` holding the character, or -1 exactly when there is none |
| CsvCells.CsvField | src/main/java/dswebquerytobigquery/Html2CsvParseHandler.java:222-246 | "" and `""` give ""; otherwise the length is the input's plus one per quote plus two exactly when the wrapping condition holds |
| CsvCells.SanitizeForCsv | src/main/java/dswebquerytobigquery/Html2CsvParseHandler.java:222-246 | the in-place loop terminates and, with the wrapping step, computes CsvField of the cell; null gives "" |
| CsvCells.QuoteFound | src/main/java/dswebquerytobigquery/Html2CsvParseHandler.java:230-233 | each loop turn extends the doubled prefix past the quote it found, and `lastIndex = quoteIndex + 2` is its end, so no inserted quote is found again |
| CsvCells.NoQuoteLeft | src/main/java/dswebquerytobigquery/Html2CsvParseHandler.java:230 | when no quote remains after `lastIndex`, the buffer is the input with every quote doubled |
| CsvCells.UndoubleDoubleQuotes | src/main/java/dswebquerytobigquery/Html2CsvParseHandler.java:232-233 | doubled text has every quote paired, and undoubling restores the input |
| CsvCells.DoubleUndoubleQuotes | src/main/java/dswebquerytobigquery/Html2CsvParseHandler.java:232-233 | every text with paired quotes is the doubling of its undoubling |
| CsvCells.CsvFieldWrapsExactly | src/main/java/dswebquerytobigquery/Html2CsvParseHandler.java:236-244 | outside the empty cases, the field has an unpaired outer quote exactly when the cell has `,` or `\n`, or leading or trailing whitespace |
| CsvCells.CsvFieldRoundTrip | src/main/java/dswebquerytobigquery/Html2CsvParseHandler.java:222-246 | undoing the escaping (strip an unpaired outer pair, then undouble) gives back every cell text except `""` |
| CsvCells.UnwrappedQuoteMisreadByRfc4180 | src/main/java/dswebquerytobigquery/Html2CsvParseHandler.java:236-245 | a cell whose quotes are its only special characters, not starting with one, is doubled but left unwrapped, so an RFC 4180 reader reads the doubled text, not the cell |
| CsvCells.CsvFieldEmptyCases | src/main/java/dswebquerytobigquery/Html2CsvParseHandler.java:223-225 | "" and the two-character `""` give "" |
| CsvCells.CsvFieldQuoteNotWrapped | src/main/java/dswebquerytobigquery/Html2CsvParseHandler.java:236-244 | `a"b` becomes `a""b`, with no wrapping |
| CsvCells.CsvFieldCarriageReturnNotWrapped | src/main/java/dswebquerytobigquery/Html2CsvParseHandler.java:239-242 | a bare `\r` inside the text does not cause wrapping |
| CsvCells.CsvFieldCommaWrapped | src/main/java/dswebquerytobigquery/Html2CsvParseHandler.java:239-243 | `1,234` becomes `"1,234"` |
| CsvCells.CsvFieldLeadingBlankWrapped | src/main/java/dswebquerytobigquery/Html2CsvParseHandler.java:241-243 | a leading blank causes wrapping |
| ParseEvents.ColumnType | src/main/java/dswebquerytobigquery/Html2CsvParseHandler.java:133-139 | a `col` contributes DEFAULT_TYPE without a class attribute and translateWebQueryTypeToBigQueryType of the attribute otherwise, never TIMESTAMP |
| ParseEvents.OnStartDocument | src/main/java/dswebquerytobigquery/Html2CsvParseHandler.java:111-115 | startDocument empties the type and name lists and changes nothing else |
| ParseEvents.OnStartElement | src/main/java/dswebquerytobigquery/Html2CsvParseHandler.java:129-153 | a start tag never clears the body flag and never touches the printer or the row counter |
| ParseEvents.OnEndElement | src/main/java/dswebquerytobigquery/Html2CsvParseHandler.java:155-188 | an end tag leaves the body flag as it was |
| ParseEvents.OnCharacters | src/main/java/dswebquerytobigquery/Html2CsvParseHandler.java:190-195 | characters touches only the text accumulator, never creates one, and never fails |
| ParseEvents.ColumnHeaders | src/main/java/dswebquerytobigquery/Html2CsvParseHandler.java:74-90 | empty before the body; afterwards it succeeds exactly when there are at least as many types as names, and pairs the i-th name with the i-th type |
| ParseEvents.OnEndDocument | src/main/java/dswebquerytobigquery/Html2CsvParseHandler.java:117-127 | with no printer, a null dereference; otherwise the printer is closed, whatever the outcome of the header check that follows |
| ParseEvents.OnFatalError | src/main/java/dswebquerytobigquery/Html2CsvParseHandler.java:197-208 | the parse error is always re-raised; the printer is closed unless closing fails, and nothing else changes |
| ParseHandler.Html2CsvParseHandler.constructor | src/main/java/dswebquerytobigquery/Html2CsvParseHandler.java:45-53 | the timestamp is fixed at creation; every reference field is null, with no body and no rows |
| ParseHandler.Html2CsvParseHandler.GetColumnHeaders | src/main/java/dswebquerytobigquery/Html2CsvParseHandler.java:74-90 | the index loop returns ColumnHeaders of the current fields, including the out-of-bounds failure |
| ParseHandler.Html2CsvParseHandler.CreateCsvWriter | src/main/java/dswebquerytobigquery/Html2CsvParseHandler.java:92-101 | a fresh open printer with the given header, holding no records, replaces any previous one |
| ParseHandler.Html2CsvParseHandler.WriteRowToCsv | src/main/java/dswebquerytobigquery/Html2CsvParseHandler.java:103-109 | an open printer gains exactly the row; a null or closed printer fails and is left as it was |
| ParseHandler.Html2CsvParseHandler.StartDocument | src/main/java/dswebquerytobigquery/Html2CsvParseHandler.java:111-115 | the new fields are OnStartDocument of the old ones |
| ParseHandler.Html2CsvParseHandler.EndDocument | src/main/java/dswebquerytobigquery/Html2CsvParseHandler.java:117-127 | the new fields and outcome are OnEndDocument of the old fields |
| ParseHandler.Html2CsvParseHandler.StartElement | src/main/java/dswebquerytobigquery/Html2CsvParseHandler.java:129-153 | the new fields and outcome are OnStartElement of the old fields |
| ParseHandler.Html2CsvParseHandler.EndElement | src/main/java/dswebquerytobigquery/Html2CsvParseHandler.java:155-188 | the new fields and outcome are OnEndElement of the old fields and the creation timestamp |
| ParseHandler.Html2CsvParseHandler.Characters | src/main/java/dswebquerytobigquery/Html2CsvParseHandler.java:190-195 | the new fields are OnCharacters of the old ones |
| ParseHandler.Html2CsvParseHandler.FatalError | src/main/java/dswebquerytobigquery/Html2CsvParseHandler.java:197-208 | the new fields and outcome are OnFatalError of the old fields |
| ParseHandler.Html2CsvParseHandler.Handle | src/main/java/dswebquerytobigquery/Html2CsvParseHandler.java:111-208 | one event dispatched to its callback performs one Step of the state machine |
| ParseProofs.RunKeepsRecordsStamped | src/main/java/dswebquerytobigquery/Html2CsvParseHandler.java:181-186 | after any events, every printed record ends with the handler's one processing timestamp |
| ParseProofs.RunKeepsBodyStarted | src/main/java/dswebquerytobigquery/Html2CsvParseHandler.java:145-147 | once `tbody` has started, no sequence of events clears the flag |
| ParseProofs.RowOutsideBodyIgnored | src/main/java/dswebquerytobigquery/Html2CsvParseHandler.java:149-152 | before `tbody`, a `tr` start and a `tr` end change nothing and print nothing |
| ParseProofs.RunKeepsRowsCounted | src/main/java/dswebquerytobigquery/Html2CsvParseHandler.java:181-186 | in a successful run that opens the printer at most once, bodyRowCounter equals the number of records printed |
| ParseProofs.CharactersAccumulate | src/main/java/dswebquerytobigquery/Html2CsvParseHandler.java:190-195 | text split over several callbacks is appended in order to an existing accumulator and dropped when there is none |
| ParseProofs.MalformedSequencesFail | src/main/java/dswebquerytobigquery/Html2CsvParseHandler.java:117-188 | from a fresh handler: a `th` or `td` end before any `th`/`td` start, a body `td` before the first body `tr`, and endDocument without `thead` each end in a null dereference |
| ParseProofs.StaleTextReread | src/main/java/dswebquerytobigquery/Html2CsvParseHandler.java:141-179 | the text accumulator is never reset to null, so in an open row a second `td` end without a start reads the last cell's text again and adds its field twice, with no failure |
| ParseProofs.StrayCellDropped | src/main/java/dswebquerytobigquery/Html2CsvParseHandler.java:150-187 | the row builder is never reset to null, so a body `td` after a printed row is added after that row's timestamp without failure, is never printed, and is discarded by the next `tr` start |
| ParseProofs.ColsRun | src/main/java/dswebquerytobigquery/Html2CsvParseHandler.java:133-139 | a run of `col` elements appends their types in order |
| ParseProofs.HeaderCellsRun | src/main/java/dswebquerytobigquery/Html2CsvParseHandler.java:141-166 | a run of `th` cells appends formatHeader of each cell's text, in document order |
| ParseProofs.DataCellsRun | src/main/java/dswebquerytobigquery/Html2CsvParseHandler.java:141-179 | a run of `td` cells appends sanitizeForCsv of each cell's text to the row, in order |
| ParseProofs.RowsRun | src/main/java/dswebquerytobigquery/Html2CsvParseHandler.java:149-187 | each body row prints its sanitised cells followed by the timestamp and is counted once |
| ParseProofs.PrologueRun | src/main/java/dswebquerytobigquery/Html2CsvParseHandler.java:111-162 | after the `colgroup` the types are the `col` types followed by TIMESTAMP, and the name list is empty |
| ParseProofs.HeaderSectionRun | src/main/java/dswebquerytobigquery/Html2CsvParseHandler.java:164-175 | at `thead` end the printer opens with the formatted `th` names followed by `reporting_date` |
| ParseProofs.BodySectionRun | src/main/java/dswebquerytobigquery/Html2CsvParseHandler.java:145-187 | the body sets the flag, prints one record per row and counts the rows |
| ParseProofs.EpilogueRun | src/main/java/dswebquerytobigquery/Html2CsvParseHandler.java:117-127 | in every state, the table end changes nothing and the document end behaves as endDocument, including its null dereference when there is no printer |
| ParseProofs.DocumentToCsv | src/main/java/dswebquerytobigquery/Html2CsvParseHandler.java:111-188 | a well-formed table leaves a closed printer opened with the header line and handed one record per body row (sanitised cells plus the timestamp) in order, and counts its rows; it succeeds exactly when there are at least as many `col` as `th`, and otherwise fails at index `col` count + 1 |
| ParseProofs.DocumentColumnHeaders | src/main/java/dswebquerytobigquery/Html2CsvParseHandler.java:74-90 | the column headers pair each formatted name with its `col` type; `reporting_date` gets TIMESTAMP when `col` and `th` counts match, and the next `col` type when there are more `col` |
| ParseProofs.RecordsMatchHeaderLine | src/main/java/dswebquerytobigquery/Html2CsvParseHandler.java:169-187 | when every row has one cell per `th`, every record is as wide as the header line and ends with the timestamp |
| ParseProofs.ClicksDocument | src/main/java/dswebquerytobigquery/Html2CsvParseHandler.java:129-188 | one `integral` column headed "Clicks!!" with rows `1,234` and empty opens the printer with header [`clicks_`, `reporting_date`] and hands it the records [`"1,234"`, ts] and [``, ts], typed INTEGER and TIMESTAMP |
| ParseProofs.EmptyBodyDocument | src/main/java/dswebquerytobigquery/Html2CsvParseHandler.java:117-127 | a table with no body rows closes a printer that holds the header and no records, with no failure |
| ParseProofs.StepIgnoresText | src/main/java/dswebquerytobigquery/Html2CsvParseHandler.java:141-178 | only a `th` or `td` end reads the text accumulator, and a `th` or `td` start makes it irrelevant: every other event gives the same outcome and fields whatever the accumulator holds |
| ParseProofs.PaddingIgnored | src/main/java/dswebquerytobigquery/Html2CsvParseHandler.java:141-195 | text delivered at any point where the next `th`/`td` start comes before the next `th`/`td` end changes neither the outcome nor any field but the accumulator |
| ParseProofs.PaddedDocumentToCsv | src/main/java/dswebquerytobigquery/Html2CsvParseHandler.java:111-195 | the document theorem holds unchanged when text is delivered between elements outside the cells |
| ParseProofs.TextResetBeforeCells | src/main/java/dswebquerytobigquery/Html2CsvParseHandler.java:141-143 | text delivered just before a run of cells is discarded before it is read |
| ParseProofs.TextResetBeforeRows | src/main/java/dswebquerytobigquery/Html2CsvParseHandler.java:141-143 | text delivered just before a run of body rows is discarded before it is read |
| ParseProofs.TextResetInBody | src/main/java/dswebquerytobigquery/Html2CsvParseHandler.java:141-143 | from the `tbody` start to the end of the document, text between rows is never read |
| ParseProofs.SplitTextSameRun | src/main/java/dswebquerytobigquery/Html2CsvParseHandler.java:190-195 | anywhere in a run, text split over several callbacks has the same effect as the text in one callback |
| ParseProofs.OtherElementIgnored | src/main/java/dswebquerytobigquery/Html2CsvParseHandler.java:129-188 | in every state, the start and the end of an element other than `col`, `colgroup`, `thead`, `tbody`, `tr`, `th` and `td` change nothing and succeed |
| ParseProofs.NeutralElementsIgnored | src/main/java/dswebquerytobigquery/Html2CsvParseHandler.java:129-188 | inserting starts and ends of such elements anywhere in a run leaves its outcome and final state unchanged |
| ParseProofs.PageToCsv | src/main/java/dswebquerytobigquery/Html2CsvParseHandler.java:111-195 | the document theorem holds unchanged for the table's events with text outside the cells and the surrounding elements such as `html` and `body` inserted anywhere after the document start |

## Left out

- The commons-csv `CSVPrinter` and `CSVFormat.DEFAULT` apply their own quoting when they write. The model's sink stores each record as the handler hands it over, so the records are not the lines of the file.
- Re-escaping by the printer is not modelled. Under minimal quoting the printer quotes, for example, a value that holds a quote, a comma, a CR or an LF, or that starts with a character at or below `#`, or ends with one at or below a space. So it escapes `sanitizeForCsv`'s output a second time, and the written file differs from the records (for example `"1,234"` is written as `"""1,234"""`).
- File streams: creating the output file (`createCsvWriter`) never fails in the model. Writing and closing fail only on a printer that is already closed. Other `IOException`s from the file system are not modelled.
- `fatalError`: a failing close is an input flag. Its message on standard error is not modelled.
- `forFile` and the output file's location are not modelled. The handler is created directly with its timestamp.
- The clock, and the `yyyy-MM-dd HH:mm:ss` formatting of `new Date()`: the processing timestamp is a string parameter of the constructor.
- Logging in `endDocument`: the log lines are not modelled. The header check inside the first log line is modelled, because it can throw.
- SAX details:
  - `uri` and `localName` are not modelled, and of the attributes only `class` is.
  - `characters(ch, start, length)` is given the selected text as a string.
  - The `SAXParseException` is its message.
- The TagSoup parser, `WebQuery.read`, `WebQueryReader`, the HTTP fetch and `writeAsCsv` are not modelled. They produce the event sequence that `Run` consumes.
- Character model: Dafny characters are Unicode scalar values, while Java `char` is a UTF-16 unit. Surrogate pairs, and `toLowerCase` rules for a non-English default locale, are not modelled. After the replacement step only ASCII remains, so lower-casing is ASCII lower-casing.
- `IsJavaWhitespace` is the fixed set of code points for which `Character.isWhitespace` holds. It is not derived from Unicode data.
- `bodyRowCounter` is a Java `int`; the model uses an unbounded `nat`, so wrap-around after 2^31 - 1 rows is not modelled.
- `translateWebQueryTypeToBigQueryType(null)` is not modelled. The handler never passes null, because it checks the attribute first.
- A second `thead` replaces the printer without closing the first one. The model replaces the sink; a leaked, unclosed file is not represented.
- ParseEvents.OnStartElement: its contract states only the frame (flag, printer, counter). What each tag does is stated over whole runs by the ParseProofs lemmas.
- ParseEvents.OnEndElement: its contract states only that the body flag is kept. What each tag does is stated over whole runs by the ParseProofs lemmas.
