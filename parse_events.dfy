/**
  The state machine of Html2CsvParseHandler, one function per SAX callback.
  A field that Java leaves null is `None` here, and a dereference of it is the
  `NullPointer` outcome; the state returned with a failure is the state at
  the point where the exception was thrown.
 */
module ParseEvents {
  import opened Wrappers
  import TypeMapper
  import HeaderNames
  import CsvCells

  /** The name of the partition column appended to the header and of the value appended to each row. */
  const REPORT_PULL_TIMESTAMP_COLUMN_NAME: string := "reporting_date"

  /** One column of the table: its formatted name and its BigQuery type. */
  datatype ColumnHeader = ColumnHeader(name: string, bqType: string)

  /**
    The CSV printer as a sink: the header it was opened with, the records
    printed since, and whether it is still open.
   */
  datatype CsvSink = CsvSink(header: seq<string>, records: seq<seq<string>>, open: bool)

  /** The per-document fields of the handler. */
  datatype HandlerState = HandlerState(
    csvPrinter: Option<CsvSink>,
    columnTypeInfo: Option<seq<string>>,
    columnNameInfo: Option<seq<string>>,
    textAccumulator: Option<string>,
    rowAccumulator: Option<seq<string>>,
    bodyElementStarted: bool,
    bodyRowCounter: nat)

  /** Exceptions a callback can raise. */
  datatype Failure =
    | NullPointer(field: string)
    | IndexOutOfBounds(index: nat)
    | IoFailure(operation: string)
    | ParseFailure(message: string)

  datatype Outcome = Pass | Fail(failure: Failure)

  /** The state after a callback, with what the callback returned or raised. */
  datatype Transition = Transition(next: HandlerState, outcome: Outcome)

  /**
    The events a SAX parser delivers. A fatal error carries, besides its
    message, whether closing the printer fails, which the model cannot know.
   */
  datatype Event =
    | StartDocument
    | EndDocument
    | StartElement(qName: string, classAttr: Option<string>)
    | EndElement(qName: string)
    | Characters(text: string)
    | FatalError(message: string, closeFails: bool)

  /** A fresh handler: every reference field null, no body seen, no row counted. */
  const Initial: HandlerState := HandlerState(None, None, None, None, None, false, 0)

  /** The type a `col` start contributes: the default without a class attribute, else the mapped one. */
  function ColumnType(classAttr: Option<string>): (bqType: string)
    ensures TypeMapper.IsMappedType(bqType) && bqType != TypeMapper.TIMESTAMP
    ensures classAttr.None? ==> bqType == TypeMapper.DEFAULT_TYPE
    ensures classAttr.Some? ==> bqType == TypeMapper.TranslateWebQueryTypeToBigQueryType(classAttr.value)
  {
    match classAttr
    case None => TypeMapper.DEFAULT_TYPE
    case Some(c) => TypeMapper.TranslateWebQueryTypeToBigQueryType(c)
  }

  /** startDocument: new, empty type and name lists; nothing else changes. */
  function OnStartDocument(s: HandlerState): (t: Transition)
    ensures t.outcome == Pass
    ensures t.next.columnTypeInfo == Some([]) && t.next.columnNameInfo == Some([])
    ensures t.next.(columnTypeInfo := s.columnTypeInfo, columnNameInfo := s.columnNameInfo) == s
  {
    Transition(s.(columnTypeInfo := Some([]), columnNameInfo := Some([])), Pass)
  }

  /**
    startElement: a `col` adds one type; `th` and `td` open a fresh text
    accumulator; `tbody` sets the body flag; a `tr` in the body opens a
    fresh row.
   */
  function OnStartElement(s: HandlerState, qName: string, classAttr: Option<string>): (t: Transition)
    ensures s.bodyElementStarted ==> t.next.bodyElementStarted
    ensures t.next.csvPrinter == s.csvPrinter && t.next.bodyRowCounter == s.bodyRowCounter
  {
    if qName == "col" then
      if s.columnTypeInfo.None? then Transition(s, Fail(NullPointer("columnTypeInfo")))
      else Transition(s.(columnTypeInfo := Some(s.columnTypeInfo.value + [ColumnType(classAttr)])), Pass)
    else if qName == "th" || qName == "td" then
      Transition(s.(textAccumulator := Some("")), Pass)
    else if qName == "tbody" then
      Transition(s.(bodyElementStarted := true), Pass)
    else if qName == "tr" && s.bodyElementStarted then
      Transition(s.(rowAccumulator := Some([])), Pass)
    else
      Transition(s, Pass)
  }

  /**
    endElement: `colgroup` adds the TIMESTAMP type; `th` adds the formatted
    header name; `thead` adds the partition column name and opens the
    printer with the names; `td` adds the sanitised cell; a `tr` in the body
    counts the row, adds the processing timestamp and prints the row.
   */
  function OnEndElement(s: HandlerState, processingDateString: string, qName: string): (t: Transition)
    ensures s.bodyElementStarted == t.next.bodyElementStarted
  {
    if qName == "colgroup" then
      if s.columnTypeInfo.None? then Transition(s, Fail(NullPointer("columnTypeInfo")))
      else Transition(s.(columnTypeInfo := Some(s.columnTypeInfo.value + [TypeMapper.TIMESTAMP])), Pass)
    else if qName == "th" then
      if s.textAccumulator.None? then Transition(s, Fail(NullPointer("textAccumulator")))
      else if s.columnNameInfo.None? then Transition(s, Fail(NullPointer("columnNameInfo")))
      else
        var name := HeaderNames.FormatHeader(Some(s.textAccumulator.value));
        Transition(s.(columnNameInfo := Some(s.columnNameInfo.value + [name])), Pass)
    else if qName == "thead" then
      if s.columnNameInfo.None? then Transition(s, Fail(NullPointer("columnNameInfo")))
      else
        var names := s.columnNameInfo.value + [REPORT_PULL_TIMESTAMP_COLUMN_NAME];
        Transition(s.(columnNameInfo := Some(names), csvPrinter := Some(CsvSink(names, [], true))), Pass)
    else if qName == "td" then
      if s.textAccumulator.None? then Transition(s, Fail(NullPointer("textAccumulator")))
      else if s.rowAccumulator.None? then Transition(s, Fail(NullPointer("rowAccumulator")))
      else
        var cell := CsvCells.CsvField(s.textAccumulator.value);
        Transition(s.(rowAccumulator := Some(s.rowAccumulator.value + [cell])), Pass)
    else if qName == "tr" && s.bodyElementStarted then
      var counted := s.(bodyRowCounter := s.bodyRowCounter + 1);
      if s.rowAccumulator.None? then Transition(counted, Fail(NullPointer("rowAccumulator")))
      else
        var row := s.rowAccumulator.value + [processingDateString];
        var built := counted.(rowAccumulator := Some(row));
        if s.csvPrinter.None? then Transition(built, Fail(NullPointer("csvPrinter")))
        else if !s.csvPrinter.value.open then Transition(built, Fail(IoFailure("write row")))
        else
          var sink := s.csvPrinter.value;
          Transition(built.(csvPrinter := Some(sink.(records := sink.records + [row]))), Pass)
    else
      Transition(s, Pass)
  }

  /** characters: appended to the text accumulator when there is one, dropped otherwise. */
  function OnCharacters(s: HandlerState, text: string): (t: Transition)
    ensures t.outcome == Pass
    ensures t.next.textAccumulator.Some? == s.textAccumulator.Some?
    ensures t.next.(textAccumulator := s.textAccumulator) == s
  {
    match s.textAccumulator
    case None => Transition(s, Pass)
    case Some(acc) => Transition(s.(textAccumulator := Some(acc + text)), Pass)
  }

  /**
    getColumnHeaders: nothing before the body; afterwards the i-th name paired
    with the i-th type, which fails when there are fewer types than names.
   */
  function ColumnHeaders(s: HandlerState): (r: Result<seq<ColumnHeader>, Failure>)
    ensures !s.bodyElementStarted ==> r == Success([])
    ensures s.bodyElementStarted && s.columnTypeInfo.Some? && s.columnNameInfo.Some? ==>
      (r.Success? <==> |s.columnNameInfo.value| <= |s.columnTypeInfo.value|)
    ensures r.Success? && s.bodyElementStarted ==>
      && s.columnTypeInfo.Some? && s.columnNameInfo.Some?
      && |r.value| == |s.columnNameInfo.value| <= |s.columnTypeInfo.value|
      && forall i :: 0 <= i < |r.value| ==>
           r.value[i] == ColumnHeader(s.columnNameInfo.value[i], s.columnTypeInfo.value[i])
  {
    if !s.bodyElementStarted then Success([])
    else if s.columnTypeInfo.None? then Failure(NullPointer("columnTypeInfo"))
    else if s.columnNameInfo.None? then Failure(NullPointer("columnNameInfo"))
    else
      var types, names := s.columnTypeInfo.value, s.columnNameInfo.value;
      if |types| < |names| then Failure(IndexOutOfBounds(|types|))
      else Success(seq(|names|, i requires 0 <= i < |names| => ColumnHeader(names[i], types[i])))
  }

  /**
    endDocument: flush and close the printer opened at `thead` (null if there
    was none), then build the column headers for the log line, which can
    still raise after the file is closed.
   */
  function OnEndDocument(s: HandlerState): (t: Transition)
    ensures s.csvPrinter.None? ==> t == Transition(s, Fail(NullPointer("csvPrinter")))
    ensures s.csvPrinter.Some? ==> t.next == s.(csvPrinter := Some(s.csvPrinter.value.(open := false)))
  {
    match s.csvPrinter
    case None => Transition(s, Fail(NullPointer("csvPrinter")))
    case Some(sink) =>
      if !sink.open then Transition(s, Fail(IoFailure("close file")))
      else
        var closed := s.(csvPrinter := Some(sink.(open := false)));
        match ColumnHeaders(closed)
        case Success(_) => Transition(closed, Pass)
        case Failure(f) => Transition(closed, Fail(f))
  }

  /**
    fatalError: close the printer if there is one (a failure to close is
    swallowed and leaves it as it was), then re-raise the parse error.
   */
  function OnFatalError(s: HandlerState, message: string, closeFails: bool): (t: Transition)
    ensures t.outcome == Fail(ParseFailure(message))
    ensures s.csvPrinter.Some? && !closeFails ==> t.next.csvPrinter == Some(s.csvPrinter.value.(open := false))
    ensures t.next.(csvPrinter := s.csvPrinter) == s
  {
    if s.csvPrinter.Some? && !closeFails then
      Transition(s.(csvPrinter := Some(s.csvPrinter.value.(open := false))), Fail(ParseFailure(message)))
    else
      Transition(s, Fail(ParseFailure(message)))
  }

  /** One callback, chosen by the kind of event. */
  function Step(s: HandlerState, processingDateString: string, e: Event): Transition {
    match e
    case StartDocument => OnStartDocument(s)
    case EndDocument => OnEndDocument(s)
    case StartElement(qName, classAttr) => OnStartElement(s, qName, classAttr)
    case EndElement(qName) => OnEndElement(s, processingDateString, qName)
    case Characters(text) => OnCharacters(s, text)
    case FatalError(message, closeFails) => OnFatalError(s, message, closeFails)
  }

  /** The handler fed a list of events in order; the first exception ends the parse. */
  function Run(s: HandlerState, processingDateString: string, events: seq<Event>): Transition
    decreases |events|
  {
    if events == [] then Transition(s, Pass)
    else
      var t := Step(s, processingDateString, events[0]);
      if t.outcome.Fail? then t else Run(t.next, processingDateString, events[1..])
  }
}
