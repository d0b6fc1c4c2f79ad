/**
  Html2CsvParseHandler as an object: the SAX callbacks update its fields in
  place, and each one is proved to perform the transition of the same name
  in ParseEvents.
 */
module ParseHandler {
  import opened Wrappers
  import TypeMapper
  import HeaderNames
  import CsvCells
  import opened ParseEvents

  class Html2CsvParseHandler {
    /** The processing time, formatted once when the handler is created. */
    const processingDateString: string
    var csvPrinter: Option<CsvSink>
    var columnTypeInfo: Option<seq<string>>
    var columnNameInfo: Option<seq<string>>
    var textAccumulator: Option<string>
    var rowAccumulator: Option<seq<string>>
    var bodyElementStarted: bool
    var bodyRowCounter: nat

    /** The fields, as the state of the state machine. */
    function State(): HandlerState
      reads this
    {
      HandlerState(csvPrinter, columnTypeInfo, columnNameInfo, textAccumulator,
                   rowAccumulator, bodyElementStarted, bodyRowCounter)
    }

    /** The clock reading and its formatting are outside the model: the formatted time is a parameter. */
    constructor (processingDateString: string)
      ensures this.processingDateString == processingDateString
      ensures State() == Initial
    {
      this.processingDateString := processingDateString;
      csvPrinter := None;
      columnTypeInfo := None;
      columnNameInfo := None;
      textAccumulator := None;
      rowAccumulator := None;
      bodyElementStarted := false;
      bodyRowCounter := 0;
    }

    /** getColumnHeaders: pairs names with types in one index loop, once the body has started. */
    method GetColumnHeaders() returns (r: Result<seq<ColumnHeader>, Failure>)
      ensures r == ColumnHeaders(State())
    {
      if !bodyElementStarted {
        return Success([]);
      }
      if columnTypeInfo.None? {
        return Failure(NullPointer("columnTypeInfo"));
      }
      if columnNameInfo.None? {
        return Failure(NullPointer("columnNameInfo"));
      }
      var columnTypes, columnNames := columnTypeInfo.value, columnNameInfo.value;
      var headers: seq<ColumnHeader> := [];
      var index := 0;
      while index < |columnNames|
        invariant 0 <= index <= |columnNames|
        invariant index <= |columnTypes|
        invariant |headers| == index
        invariant forall i :: 0 <= i < index ==> headers[i] == ColumnHeader(columnNames[i], columnTypes[i])
      {
        if index >= |columnTypes| {
          return Failure(IndexOutOfBounds(index));
        }
        headers := headers + [ColumnHeader(columnNames[index], columnTypes[index])];
        index := index + 1;
      }
      assert headers == seq(|columnNames|, i requires 0 <= i < |columnNames| =>
        ColumnHeader(columnNames[i], columnTypes[i]));
      return Success(headers);
    }

    /** createCsvWriter: a new printer with the given header replaces any previous one. */
    method CreateCsvWriter(headers: seq<string>)
      modifies this`csvPrinter
      ensures csvPrinter == Some(CsvSink(headers, [], true))
    {
      csvPrinter := Some(CsvSink(headers, [], true));
    }

    /** writeRowToCsv: one record printed, or the exception of a null or closed printer. */
    method WriteRowToCsv(rowElements: seq<string>) returns (outcome: Outcome)
      modifies this`csvPrinter
      ensures old(csvPrinter).None? ==> outcome == Fail(NullPointer("csvPrinter")) && csvPrinter == old(csvPrinter)
      ensures old(csvPrinter).Some? && !old(csvPrinter).value.open ==>
        outcome == Fail(IoFailure("write row")) && csvPrinter == old(csvPrinter)
      ensures old(csvPrinter).Some? && old(csvPrinter).value.open ==>
        outcome == Pass
        && csvPrinter == Some(old(csvPrinter).value.(records := old(csvPrinter).value.records + [rowElements]))
    {
      if csvPrinter.None? {
        return Fail(NullPointer("csvPrinter"));
      }
      if !csvPrinter.value.open {
        return Fail(IoFailure("write row"));
      }
      var sink := csvPrinter.value;
      csvPrinter := Some(sink.(records := sink.records + [rowElements]));
      return Pass;
    }

    method StartDocument()
      modifies this
      ensures Transition(State(), Pass) == OnStartDocument(old(State()))
    {
      columnTypeInfo := Some([]);
      columnNameInfo := Some([]);
    }

    method EndDocument() returns (outcome: Outcome)
      modifies this
      ensures Transition(State(), outcome) == OnEndDocument(old(State()))
    {
      if csvPrinter.None? {
        return Fail(NullPointer("csvPrinter"));
      }
      if !csvPrinter.value.open {
        return Fail(IoFailure("close file"));
      }
      csvPrinter := Some(csvPrinter.value.(open := false));
      var headers := GetColumnHeaders();
      if headers.Failure? {
        return Fail(headers.error);
      }
      return Pass;
    }

    method StartElement(qName: string, classAttr: Option<string>) returns (outcome: Outcome)
      modifies this
      ensures Transition(State(), outcome) == OnStartElement(old(State()), qName, classAttr)
    {
      if qName == "col" {
        if columnTypeInfo.None? {
          return Fail(NullPointer("columnTypeInfo"));
        }
        columnTypeInfo := Some(columnTypeInfo.value + [ColumnType(classAttr)]);
      }
      if qName == "th" || qName == "td" {
        textAccumulator := Some("");
      }
      if qName == "tbody" {
        bodyElementStarted := true;
      }
      if bodyElementStarted && qName == "tr" {
        rowAccumulator := Some([]);
      }
      return Pass;
    }

    method EndElement(qName: string) returns (outcome: Outcome)
      modifies this
      ensures Transition(State(), outcome) == OnEndElement(old(State()), processingDateString, qName)
    {
      if qName == "colgroup" {
        if columnTypeInfo.None? {
          return Fail(NullPointer("columnTypeInfo"));
        }
        columnTypeInfo := Some(columnTypeInfo.value + [TypeMapper.TIMESTAMP]);
      }
      if qName == "th" {
        if textAccumulator.None? {
          return Fail(NullPointer("textAccumulator"));
        }
        if columnNameInfo.None? {
          return Fail(NullPointer("columnNameInfo"));
        }
        columnNameInfo := Some(columnNameInfo.value + [HeaderNames.FormatHeader(Some(textAccumulator.value))]);
      }
      if qName == "thead" {
        if columnNameInfo.None? {
          return Fail(NullPointer("columnNameInfo"));
        }
        columnNameInfo := Some(columnNameInfo.value + [REPORT_PULL_TIMESTAMP_COLUMN_NAME]);
        CreateCsvWriter(columnNameInfo.value);
      }
      if qName == "td" {
        if textAccumulator.None? {
          return Fail(NullPointer("textAccumulator"));
        }
        var cell := CsvCells.SanitizeForCsv(Some(textAccumulator.value));
        if rowAccumulator.None? {
          return Fail(NullPointer("rowAccumulator"));
        }
        rowAccumulator := Some(rowAccumulator.value + [cell]);
      }
      if bodyElementStarted && qName == "tr" {
        bodyRowCounter := bodyRowCounter + 1;
        if rowAccumulator.None? {
          return Fail(NullPointer("rowAccumulator"));
        }
        rowAccumulator := Some(rowAccumulator.value + [processingDateString]);
        outcome := WriteRowToCsv(rowAccumulator.value);
        return outcome;
      }
      return Pass;
    }

    method Characters(text: string)
      modifies this
      ensures Transition(State(), Pass) == OnCharacters(old(State()), text)
    {
      if textAccumulator.Some? {
        textAccumulator := Some(textAccumulator.value + text);
      }
    }

    /** The message stands for the SAXParseException; `closeFails` for an IOException from close. */
    method FatalError(message: string, closeFails: bool) returns (outcome: Outcome)
      modifies this
      ensures Transition(State(), outcome) == OnFatalError(old(State()), message, closeFails)
    {
      if csvPrinter.Some? && !closeFails {
        csvPrinter := Some(csvPrinter.value.(open := false));
      }
      return Fail(ParseFailure(message));
    }

    /** The callback for one event. */
    method Handle(e: Event) returns (outcome: Outcome)
      modifies this
      ensures Transition(State(), outcome) == Step(old(State()), processingDateString, e)
    {
      match e
      case StartDocument => StartDocument(); outcome := Pass;
      case EndDocument => outcome := EndDocument();
      case StartElement(qName, classAttr) => outcome := StartElement(qName, classAttr);
      case EndElement(qName) => outcome := EndElement(qName);
      case Characters(text) => Characters(text); outcome := Pass;
      case FatalError(message, closeFails) => outcome := FatalError(message, closeFails);
    }
  }
}
