/**
  What the handler does with whole event sequences: the invariants every
  run keeps, and the CSV that a well-formed WebQuery table produces.
 */
module ParseProofs {
  import opened Wrappers
  import TypeMapper
  import HeaderNames
  import CsvCells
  import opened ParseEvents

  // ---------------------------------------------------------------------
  // Running event sequences piece by piece

  lemma {:induction false} RunAppend(s: HandlerState, ts: string, a: seq<Event>, b: seq<Event>)
    ensures Run(s, ts, a + b)
      == (var t := Run(s, ts, a); if t.outcome.Fail? then t else Run(t.next, ts, b))
    decreases |a|
  {
    if a == [] {
      assert a + b == b;
    } else {
      assert (a + b)[0] == a[0];
      assert (a + b)[1..] == a[1..] + b;
      var t := Step(s, ts, a[0]);
      if t.outcome.Pass? {
        RunAppend(t.next, ts, a[1..], b);
      }
    }
  }

  lemma RunCons(s: HandlerState, ts: string, e: Event, rest: seq<Event>)
    ensures Run(s, ts, [e] + rest)
      == (var t := Step(s, ts, e); if t.outcome.Fail? then t else Run(t.next, ts, rest))
  {
    assert ([e] + rest)[1..] == rest;
  }

  // ---------------------------------------------------------------------
  // Invariants of every run

  /** Every record printed so far ends with the processing timestamp. */
  predicate RecordsStamped(s: HandlerState, ts: string) {
    s.csvPrinter.Some? ==>
      forall i :: 0 <= i < |s.csvPrinter.value.records| ==>
        var record := s.csvPrinter.value.records[i];
        |record| > 0 && record[|record| - 1] == ts
  }

  lemma StepKeepsRecordsStamped(s: HandlerState, ts: string, e: Event)
    requires RecordsStamped(s, ts)
    ensures RecordsStamped(Step(s, ts, e).next, ts)
  {
  }

  /**
    Shared timestamp: whatever the events, every record the printer holds
    ends with the one processing timestamp the handler was created with.
   */
  lemma {:induction false} RunKeepsRecordsStamped(s: HandlerState, ts: string, events: seq<Event>)
    requires RecordsStamped(s, ts)
    ensures RecordsStamped(Run(s, ts, events).next, ts)
    decreases |events|
  {
    if events != [] {
      var t := Step(s, ts, events[0]);
      StepKeepsRecordsStamped(s, ts, events[0]);
      if t.outcome.Pass? {
        RunKeepsRecordsStamped(t.next, ts, events[1..]);
      }
    }
  }

  /** Once the body has started, no event clears the flag. */
  lemma {:induction false} RunKeepsBodyStarted(s: HandlerState, ts: string, events: seq<Event>)
    requires s.bodyElementStarted
    ensures Run(s, ts, events).next.bodyElementStarted
    decreases |events|
  {
    if events != [] {
      var t := Step(s, ts, events[0]);
      assert t.next.bodyElementStarted;
      if t.outcome.Pass? {
        RunKeepsBodyStarted(t.next, ts, events[1..]);
      }
    }
  }

  /** A `tr` outside the body is ignored at both ends. */
  lemma RowOutsideBodyIgnored(s: HandlerState, ts: string, classAttr: Option<string>)
    requires !s.bodyElementStarted
    ensures Step(s, ts, StartElement("tr", classAttr)) == Transition(s, Pass)
    ensures Step(s, ts, EndElement("tr")) == Transition(s, Pass)
  {
  }

  /** The row counter agrees with the records of the printer (none before there is a printer). */
  predicate RowsCounted(s: HandlerState) {
    if s.csvPrinter.None? then s.bodyRowCounter == 0
    else s.bodyRowCounter == |s.csvPrinter.value.records|
  }

  function TheadEnds(events: seq<Event>): nat {
    if events == [] then 0
    else (if events[0] == EndElement("thead") then 1 else 0) + TheadEnds(events[1..])
  }

  lemma StepKeepsRowsCounted(s: HandlerState, ts: string, e: Event)
    requires RowsCounted(s)
    requires e == EndElement("thead") ==> s.csvPrinter.None?
    requires Step(s, ts, e).outcome.Pass?
    ensures RowsCounted(Step(s, ts, e).next)
  {
  }

  /**
    Every counted row is printed: in a run that succeeds and opens the
    printer at most once, the row counter equals the number of records.
   */
  lemma {:induction false} RunKeepsRowsCounted(s: HandlerState, ts: string, events: seq<Event>)
    requires RowsCounted(s)
    requires TheadEnds(events) <= (if s.csvPrinter.None? then 1 else 0)
    requires Run(s, ts, events).outcome.Pass?
    ensures RowsCounted(Run(s, ts, events).next)
    decreases |events|
  {
    if events != [] {
      var t := Step(s, ts, events[0]);
      StepKeepsRowsCounted(s, ts, events[0]);
      assert events[0] == EndElement("thead") ==> t.next.csvPrinter.Some?;
      RunKeepsRowsCounted(t.next, ts, events[1..]);
    }
  }

  /**
    From a fresh handler, four malformed sequences end in a null
    dereference: a `th` or a `td` closed before any cell was opened, a `td`
    in the body before the first `tr`, and the end of a document that had
    no `thead`.
   */
  lemma MalformedSequencesFail(ts: string)
    ensures Run(Initial, ts, [StartDocument, EndElement("th")]).outcome
      == Fail(NullPointer("textAccumulator"))
    ensures Run(Initial, ts, [StartDocument, EndElement("td")]).outcome
      == Fail(NullPointer("textAccumulator"))
    ensures Run(Initial, ts, [StartDocument, StartElement("tbody", None), StartElement("td", None), EndElement("td")]).outcome
      == Fail(NullPointer("rowAccumulator"))
    ensures Run(Initial, ts, [StartDocument, EndDocument]).outcome
      == Fail(NullPointer("csvPrinter"))
  {
    var s1 := Initial.(columnTypeInfo := Some([]), columnNameInfo := Some([]));
    RunCons(Initial, ts, StartDocument, [EndElement("th")]);
    RunCons(s1, ts, EndElement("th"), []);
    RunCons(Initial, ts, StartDocument, [EndElement("td")]);
    RunCons(s1, ts, EndElement("td"), []);
    var s2 := s1.(bodyElementStarted := true);
    var s3 := s2.(textAccumulator := Some(""));
    RunCons(Initial, ts, StartDocument, [StartElement("tbody", None), StartElement("td", None), EndElement("td")]);
    RunCons(s1, ts, StartElement("tbody", None), [StartElement("td", None), EndElement("td")]);
    RunCons(s2, ts, StartElement("td", None), [EndElement("td")]);
    RunCons(s3, ts, EndElement("td"), []);
    RunCons(Initial, ts, StartDocument, [EndDocument]);
    RunCons(s1, ts, EndDocument, []);
  }

  /**
    Neither accumulator is ever set back to null, so once a cell or a body
    row has been opened, a `td` end without its start reads the previous
    cell's text again: closing a cell twice adds its field twice.
   */
  lemma StaleTextReread(s: HandlerState, ts: string, text: string)
    requires s.rowAccumulator.Some?
    ensures Run(s, ts, [StartElement("td", None), Characters(text), EndElement("td"), EndElement("td")])
      == Transition(s.(textAccumulator := Some(text),
                       rowAccumulator := Some(s.rowAccumulator.value + [CsvCells.CsvField(text), CsvCells.CsvField(text)])),
                    Pass)
  {
    var cell := CsvCells.CsvField(text);
    var s1 := s.(textAccumulator := Some(""));
    var s2 := s.(textAccumulator := Some(text));
    var s3 := s2.(rowAccumulator := Some(s.rowAccumulator.value + [cell]));
    assert "" + text == text;
    assert Step(s, ts, StartElement("td", None)) == Transition(s1, Pass);
    assert Step(s1, ts, Characters(text)) == Transition(s2, Pass);
    assert Step(s2, ts, EndElement("td")) == Transition(s3, Pass);
    assert s.rowAccumulator.value + [cell] + [cell] == s.rowAccumulator.value + [cell, cell];
    RunCons(s, ts, StartElement("td", None), [Characters(text), EndElement("td"), EndElement("td")]);
    RunCons(s1, ts, Characters(text), [EndElement("td"), EndElement("td")]);
    RunCons(s2, ts, EndElement("td"), [EndElement("td")]);
    RunCons(s3, ts, EndElement("td"), []);
  }

  /**
    After a body row is printed its builder stays in place, ending in the
    timestamp: a `td` outside any `tr` is added after the timestamp, is never
    printed, and is discarded by the next `tr` start.
   */
  lemma StrayCellDropped(s: HandlerState, ts: string, text: string)
    requires s.bodyElementStarted && s.rowAccumulator.Some?
    requires s.csvPrinter.Some? && s.csvPrinter.value.open
    ensures var row := s.rowAccumulator.value + [ts];
      var stray := Run(s, ts, [EndElement("tr"), StartElement("td", None), Characters(text), EndElement("td")]);
      && stray.outcome == Pass
      && stray.next.rowAccumulator == Some(row + [CsvCells.CsvField(text)])
      && stray.next.csvPrinter == Some(s.csvPrinter.value.(records := s.csvPrinter.value.records + [row]))
    ensures var t := Run(s, ts, [EndElement("tr"), StartElement("td", None), Characters(text), EndElement("td"),
                                 StartElement("tr", None)]);
      && t.outcome == Pass
      && t.next.rowAccumulator == Some([])
      && t.next.csvPrinter == Some(s.csvPrinter.value.(records := s.csvPrinter.value.records + [s.rowAccumulator.value + [ts]]))
      && t.next.bodyRowCounter == s.bodyRowCounter + 1
  {
    var row := s.rowAccumulator.value + [ts];
    var sink := s.csvPrinter.value;
    var s1 := s.(bodyRowCounter := s.bodyRowCounter + 1, rowAccumulator := Some(row),
                 csvPrinter := Some(sink.(records := sink.records + [row])));
    var s2 := s1.(textAccumulator := Some(""));
    var s3 := s1.(textAccumulator := Some(text));
    var s4 := s3.(rowAccumulator := Some(row + [CsvCells.CsvField(text)]));
    assert "" + text == text;
    assert Step(s, ts, EndElement("tr")) == Transition(s1, Pass);
    assert Step(s1, ts, StartElement("td", None)) == Transition(s2, Pass);
    assert Step(s2, ts, Characters(text)) == Transition(s3, Pass);
    assert Step(s3, ts, EndElement("td")) == Transition(s4, Pass);
    assert Step(s4, ts, StartElement("tr", None)) == Transition(s4.(rowAccumulator := Some([])), Pass);
    var e3 := [EndElement("td")];
    var e2 := [Characters(text)] + e3;
    var e1 := [StartElement("td", None)] + e2;
    RunCons(s3, ts, EndElement("td"), []);
    RunCons(s2, ts, Characters(text), e3);
    RunCons(s1, ts, StartElement("td", None), e2);
    RunCons(s, ts, EndElement("tr"), e1);
    assert [EndElement("tr")] + e1 == [EndElement("tr"), StartElement("td", None), Characters(text), EndElement("td")];
    assert [EndElement("tr")] + e1 + [StartElement("tr", None)]
        == [EndElement("tr"), StartElement("td", None), Characters(text), EndElement("td"), StartElement("tr", None)];
    RunAppend(s, ts, [EndElement("tr")] + e1, [StartElement("tr", None)]);
    RunCons(s4, ts, StartElement("tr", None), []);
  }


  /** Text arrives in pieces. */
  function CharacterEvents(pieces: seq<string>): seq<Event> {
    if pieces == [] then [] else [Characters(pieces[0])] + CharacterEvents(pieces[1..])
  }

  function Concat(pieces: seq<string>): string {
    if pieces == [] then "" else pieces[0] + Concat(pieces[1..])
  }

  /** Character data is appended piece by piece to an open accumulator, and dropped when there is none. */
  lemma {:induction false} CharactersAccumulate(s: HandlerState, ts: string, pieces: seq<string>)
    ensures s.textAccumulator.None? ==> Run(s, ts, CharacterEvents(pieces)) == Transition(s, Pass)
    ensures s.textAccumulator.Some? ==>
              Run(s, ts, CharacterEvents(pieces))
              == Transition(s.(textAccumulator := Some(s.textAccumulator.value + Concat(pieces))), Pass)
    decreases |pieces|
  {
    if pieces == [] {
      if s.textAccumulator.Some? {
        assert s.textAccumulator.value + "" == s.textAccumulator.value;
      }
    } else {
      RunCons(s, ts, Characters(pieces[0]), CharacterEvents(pieces[1..]));
      var t := Step(s, ts, Characters(pieces[0]));
      CharactersAccumulate(t.next, ts, pieces[1..]);
      if s.textAccumulator.Some? {
        var acc := s.textAccumulator.value;
        assert acc + pieces[0] + Concat(pieces[1..]) == acc + Concat(pieces);
      }
    }
  }

  // ---------------------------------------------------------------------
  // A well-formed WebQuery table

  function ColEvents(classes: seq<Option<string>>): seq<Event> {
    if classes == [] then []
    else [StartElement("col", classes[0]), EndElement("col")] + ColEvents(classes[1..])
  }

  function CellEvents(tag: string, texts: seq<string>): seq<Event> {
    if texts == [] then []
    else [StartElement(tag, None), Characters(texts[0]), EndElement(tag)] + CellEvents(tag, texts[1..])
  }

  function RowEvents(rows: seq<seq<string>>): seq<Event> {
    if rows == [] then []
    else [StartElement("tr", None)] + CellEvents("td", rows[0]) + [EndElement("tr")] + RowEvents(rows[1..])
  }

  function Prologue(classes: seq<Option<string>>): seq<Event> {
    [StartDocument, StartElement("table", None), StartElement("colgroup", None)]
    + ColEvents(classes) + [EndElement("colgroup")]
  }

  function HeaderSection(headerTexts: seq<string>): seq<Event> {
    [StartElement("thead", None), StartElement("tr", None)]
    + CellEvents("th", headerTexts) + [EndElement("tr"), EndElement("thead")]
  }

  function BodySection(rows: seq<seq<string>>): seq<Event> {
    [StartElement("tbody", None)] + RowEvents(rows) + [EndElement("tbody")]
  }

  const Epilogue: seq<Event> := [EndElement("table"), EndDocument]

  /**
    The events of a table with one `col` per class attribute, one header
    row of `th` cells and one body row of `td` cells per row, each cell's
    text delivered in one piece.
   */
  function DocumentEvents(classes: seq<Option<string>>, headerTexts: seq<string>, rows: seq<seq<string>>): seq<Event> {
    Prologue(classes) + HeaderSection(headerTexts) + BodySection(rows) + Epilogue
  }

  function ColumnTypes(classes: seq<Option<string>>): seq<string> {
    seq(|classes|, i requires 0 <= i < |classes| => ColumnType(classes[i]))
  }

  function ColumnNames(headerTexts: seq<string>): seq<string> {
    seq(|headerTexts|, i requires 0 <= i < |headerTexts| => HeaderNames.FormatHeader(Some(headerTexts[i])))
  }

  function CsvFields(cells: seq<string>): seq<string> {
    seq(|cells|, i requires 0 <= i < |cells| => CsvCells.CsvField(cells[i]))
  }

  function Record(cells: seq<string>, ts: string): seq<string> {
    CsvFields(cells) + [ts]
  }

  function Records(rows: seq<seq<string>>, ts: string): seq<seq<string>> {
    seq(|rows|, i requires 0 <= i < |rows| => Record(rows[i], ts))
  }

  /** The header line: the formatted `th` texts, then the partition column. */
  function HeaderLine(headerTexts: seq<string>): seq<string> {
    ColumnNames(headerTexts) + [REPORT_PULL_TIMESTAMP_COLUMN_NAME]
  }

  function LastText(acc: Option<string>, texts: seq<string>): Option<string> {
    if texts == [] then acc else Some(texts[|texts| - 1])
  }

  lemma {:induction false} ColsRun(s: HandlerState, ts: string, classes: seq<Option<string>>)
    requires s.columnTypeInfo.Some?
    ensures Run(s, ts, ColEvents(classes))
      == Transition(s.(columnTypeInfo := Some(s.columnTypeInfo.value + ColumnTypes(classes))), Pass)
    decreases |classes|
  {
    if classes == [] {
      assert s.columnTypeInfo.value + [] == s.columnTypeInfo.value;
    } else {
      var first: seq<Event> := [StartElement("col", classes[0]), EndElement("col")];
      RunAppend(s, ts, first, ColEvents(classes[1..]));
      var s1 := s.(columnTypeInfo := Some(s.columnTypeInfo.value + [ColumnType(classes[0])]));
      RunCons(s, ts, first[0], [first[1]]);
      RunCons(s1, ts, first[1], []);
      assert [first[0]] + [first[1]] == first;
      assert Run(s, ts, first) == Transition(s1, Pass);
      ColsRun(s1, ts, classes[1..]);
      assert [ColumnType(classes[0])] + ColumnTypes(classes[1..]) == ColumnTypes(classes);
      assert s.columnTypeInfo.value + [ColumnType(classes[0])] + ColumnTypes(classes[1..])
        == s.columnTypeInfo.value + ColumnTypes(classes);
    }
  }

  /** The events of one cell: the state after its start and its text. */
  lemma CellOpened(s: HandlerState, ts: string, tag: string, text: string, rest: seq<Event>)
    requires tag == "th" || tag == "td"
    ensures Run(s, ts, [StartElement(tag, None), Characters(text), EndElement(tag)] + rest)
      == Run(s.(textAccumulator := Some(text)), ts, [EndElement(tag)] + rest)
  {
    var evs := [StartElement(tag, None), Characters(text), EndElement(tag)] + rest;
    assert evs == [StartElement(tag, None)] + ([Characters(text)] + ([EndElement(tag)] + rest));
    RunCons(s, ts, StartElement(tag, None), [Characters(text)] + ([EndElement(tag)] + rest));
    var s1 := s.(textAccumulator := Some(""));
    RunCons(s1, ts, Characters(text), [EndElement(tag)] + rest);
    assert "" + text == text;
  }

  lemma {:induction false} HeaderCellsRun(s: HandlerState, ts: string, texts: seq<string>)
    requires s.columnNameInfo.Some?
    ensures Run(s, ts, CellEvents("th", texts))
      == Transition(s.(columnNameInfo := Some(s.columnNameInfo.value + ColumnNames(texts)),
                       textAccumulator := LastText(s.textAccumulator, texts)), Pass)
    decreases |texts|
  {
    if texts == [] {
      assert s.columnNameInfo.value + [] == s.columnNameInfo.value;
    } else {
      var rest := CellEvents("th", texts[1..]);
      assert CellEvents("th", texts) == [StartElement("th", None), Characters(texts[0]), EndElement("th")] + rest;
      CellOpened(s, ts, "th", texts[0], rest);
      var s1 := s.(textAccumulator := Some(texts[0]));
      RunCons(s1, ts, EndElement("th"), rest);
      var s2 := s1.(columnNameInfo := Some(s.columnNameInfo.value + [HeaderNames.FormatHeader(Some(texts[0]))]));
      assert Step(s1, ts, EndElement("th")) == Transition(s2, Pass);
      HeaderCellsRun(s2, ts, texts[1..]);
      assert LastText(s2.textAccumulator, texts[1..]) == LastText(s.textAccumulator, texts);
      assert [HeaderNames.FormatHeader(Some(texts[0]))] + ColumnNames(texts[1..]) == ColumnNames(texts);
      assert s.columnNameInfo.value + [HeaderNames.FormatHeader(Some(texts[0]))] + ColumnNames(texts[1..])
        == s.columnNameInfo.value + ColumnNames(texts);
    }
  }

  lemma {:induction false} DataCellsRun(s: HandlerState, ts: string, texts: seq<string>)
    requires s.rowAccumulator.Some?
    ensures Run(s, ts, CellEvents("td", texts))
      == Transition(s.(rowAccumulator := Some(s.rowAccumulator.value + CsvFields(texts)),
                       textAccumulator := LastText(s.textAccumulator, texts)), Pass)
    decreases |texts|
  {
    if texts == [] {
      assert s.rowAccumulator.value + [] == s.rowAccumulator.value;
    } else {
      var rest := CellEvents("td", texts[1..]);
      CellOpened(s, ts, "td", texts[0], rest);
      var s1 := s.(textAccumulator := Some(texts[0]));
      RunCons(s1, ts, EndElement("td"), rest);
      var s2 := s1.(rowAccumulator := Some(s.rowAccumulator.value + [CsvCells.CsvField(texts[0])]));
      DataCellsRun(s2, ts, texts[1..]);
      assert [CsvCells.CsvField(texts[0])] + CsvFields(texts[1..]) == CsvFields(texts);
      assert s.rowAccumulator.value + [CsvCells.CsvField(texts[0])] + CsvFields(texts[1..])
        == s.rowAccumulator.value + CsvFields(texts);
    }
  }

  lemma {:induction false} RowsRun(s: HandlerState, ts: string, rows: seq<seq<string>>)
    requires s.bodyElementStarted && s.csvPrinter.Some? && s.csvPrinter.value.open
    ensures var t := Run(s, ts, RowEvents(rows));
      && t.outcome == Pass
      && t.next.csvPrinter == Some(s.csvPrinter.value.(records := s.csvPrinter.value.records + Records(rows, ts)))
      && t.next.bodyRowCounter == s.bodyRowCounter + |rows|
      && t.next.bodyElementStarted
      && t.next.columnTypeInfo == s.columnTypeInfo
      && t.next.columnNameInfo == s.columnNameInfo
    decreases |rows|
  {
    if rows == [] {
      assert s.csvPrinter.value.records + [] == s.csvPrinter.value.records;
      assert s.csvPrinter.value.(records := s.csvPrinter.value.records) == s.csvPrinter.value;
    } else {
      var sink := s.csvPrinter.value;
      var cells := CellEvents("td", rows[0]);
      var later := RowEvents(rows[1..]);
      assert RowEvents(rows) == [StartElement("tr", None)] + (cells + ([EndElement("tr")] + later));
      RunCons(s, ts, StartElement("tr", None), cells + ([EndElement("tr")] + later));
      var s1 := s.(rowAccumulator := Some([]));
      RunAppend(s1, ts, cells, [EndElement("tr")] + later);
      DataCellsRun(s1, ts, rows[0]);
      assert [] + CsvFields(rows[0]) == CsvFields(rows[0]);
      var s2 := s1.(rowAccumulator := Some(CsvFields(rows[0])), textAccumulator := LastText(s.textAccumulator, rows[0]));
      RunCons(s2, ts, EndElement("tr"), later);
      var record := Record(rows[0], ts);
      var s3 := s2.(bodyRowCounter := s.bodyRowCounter + 1, rowAccumulator := Some(record),
                    csvPrinter := Some(sink.(records := sink.records + [record])));
      assert Step(s2, ts, EndElement("tr")) == Transition(s3, Pass);
      RowsRun(s3, ts, rows[1..]);
      assert [record] + Records(rows[1..], ts) == Records(rows, ts);
      assert sink.records + [record] + Records(rows[1..], ts) == sink.records + Records(rows, ts);
    }
  }

  lemma PrologueRun(ts: string, classes: seq<Option<string>>)
    ensures Run(Initial, ts, Prologue(classes))
      == Transition(Initial.(columnTypeInfo := Some(ColumnTypes(classes) + [TypeMapper.TIMESTAMP]),
                             columnNameInfo := Some([])), Pass)
  {
    var cols := ColEvents(classes);
    var opening: seq<Event> := [StartDocument, StartElement("table", None), StartElement("colgroup", None)];
    RunAppend(Initial, ts, opening + cols, [EndElement("colgroup")]);
    RunAppend(Initial, ts, opening, cols);
    var s1 := Initial.(columnTypeInfo := Some([]), columnNameInfo := Some([]));
    RunCons(Initial, ts, opening[0], opening[1..]);
    RunCons(s1, ts, opening[1], opening[2..]);
    RunCons(s1, ts, opening[2], []);
    assert Run(Initial, ts, opening) == Transition(s1, Pass);
    ColsRun(s1, ts, classes);
    assert [] + ColumnTypes(classes) == ColumnTypes(classes);
    var s2 := s1.(columnTypeInfo := Some(ColumnTypes(classes)));
    RunCons(s2, ts, EndElement("colgroup"), []);
  }

  lemma HeaderSectionRun(s: HandlerState, ts: string, headerTexts: seq<string>)
    requires s.columnNameInfo == Some([]) && !s.bodyElementStarted
    ensures var t := Run(s, ts, HeaderSection(headerTexts));
      && t.outcome == Pass
      && t.next.csvPrinter == Some(CsvSink(HeaderLine(headerTexts), [], true))
      && t.next.columnNameInfo == Some(HeaderLine(headerTexts))
      && t.next.columnTypeInfo == s.columnTypeInfo
      && !t.next.bodyElementStarted
      && t.next.bodyRowCounter == s.bodyRowCounter
  {
    var cells := CellEvents("th", headerTexts);
    var closing: seq<Event> := [EndElement("tr"), EndElement("thead")];
    assert HeaderSection(headerTexts) == [StartElement("thead", None)] + ([StartElement("tr", None)] + (cells + closing));
    RunCons(s, ts, StartElement("thead", None), [StartElement("tr", None)] + (cells + closing));
    RunCons(s, ts, StartElement("tr", None), cells + closing);
    RunAppend(s, ts, cells, closing);
    HeaderCellsRun(s, ts, headerTexts);
    assert [] + ColumnNames(headerTexts) == ColumnNames(headerTexts);
    var s1 := s.(columnNameInfo := Some(ColumnNames(headerTexts)), textAccumulator := LastText(s.textAccumulator, headerTexts));
    RunCons(s1, ts, closing[0], closing[1..]);
    RunCons(s1, ts, closing[1], []);
  }

  lemma BodySectionRun(s: HandlerState, ts: string, rows: seq<seq<string>>)
    requires s.csvPrinter.Some? && s.csvPrinter.value.open
    ensures var t := Run(s, ts, BodySection(rows));
      && t.outcome == Pass
      && t.next.csvPrinter == Some(s.csvPrinter.value.(records := s.csvPrinter.value.records + Records(rows, ts)))
      && t.next.bodyRowCounter == s.bodyRowCounter + |rows|
      && t.next.bodyElementStarted
      && t.next.columnTypeInfo == s.columnTypeInfo
      && t.next.columnNameInfo == s.columnNameInfo
  {
    var body := RowEvents(rows);
    assert BodySection(rows) == [StartElement("tbody", None)] + (body + [EndElement("tbody")]);
    RunCons(s, ts, StartElement("tbody", None), body + [EndElement("tbody")]);
    var s1 := s.(bodyElementStarted := true);
    RunAppend(s1, ts, body, [EndElement("tbody")]);
    RowsRun(s1, ts, rows);
    var s2 := Run(s1, ts, body).next;
    RunCons(s2, ts, EndElement("tbody"), []);
  }

  lemma EpilogueRun(s: HandlerState, ts: string)
    ensures Run(s, ts, Epilogue) == OnEndDocument(s)
  {
    RunCons(s, ts, Epilogue[0], Epilogue[1..]);
    RunCons(s, ts, Epilogue[1], []);
  }

  /**
    A table with one `col` per class attribute, a header row and body rows
    leaves a closed printer that was opened with the formatted header names
    followed by `reporting_date`, and was handed, per body row, its
    sanitised cells followed by the processing timestamp, in document order. The row counter counts the
    body rows. The parse succeeds exactly when there are at least as many
    `col` elements as `th` cells; otherwise building the column headers
    fails on the first missing type.
   */
  lemma DocumentToCsv(classes: seq<Option<string>>, headerTexts: seq<string>, rows: seq<seq<string>>, ts: string)
    ensures var t := Run(Initial, ts, DocumentEvents(classes, headerTexts, rows));
      && t.next.csvPrinter == Some(CsvSink(HeaderLine(headerTexts), Records(rows, ts), false))
      && t.next.bodyRowCounter == |rows|
      && t.next.bodyElementStarted
      && t.next.columnTypeInfo == Some(ColumnTypes(classes) + [TypeMapper.TIMESTAMP])
      && t.next.columnNameInfo == Some(HeaderLine(headerTexts))
      && (t.outcome == Pass <==> |headerTexts| <= |classes|)
      && (t.outcome.Fail? ==> t.outcome == Fail(IndexOutOfBounds(|classes| + 1)))
  {
    var prologue, header, body := Prologue(classes), HeaderSection(headerTexts), BodySection(rows);
    RunAppend(Initial, ts, prologue + header + body, Epilogue);
    RunAppend(Initial, ts, prologue + header, body);
    RunAppend(Initial, ts, prologue, header);
    PrologueRun(ts, classes);
    var s1 := Run(Initial, ts, prologue).next;
    HeaderSectionRun(s1, ts, headerTexts);
    var s2 := Run(s1, ts, header).next;
    BodySectionRun(s2, ts, rows);
    assert [] + Records(rows, ts) == Records(rows, ts);
    var s3 := Run(s2, ts, body).next;
    EpilogueRun(s3, ts);
  }

  /**
    The column headers built from such a table pair every header-line name
    with the type at its position. With one `col` per `th` the partition
    column gets the TIMESTAMP type; with more `col` elements than `th`
    cells it gets the type of the first unmatched `col` instead.
   */
  lemma DocumentColumnHeaders(classes: seq<Option<string>>, headerTexts: seq<string>, rows: seq<seq<string>>, ts: string)
    requires |headerTexts| <= |classes|
    ensures var t := Run(Initial, ts, DocumentEvents(classes, headerTexts, rows));
      var types := ColumnTypes(classes) + [TypeMapper.TIMESTAMP];
      && ColumnHeaders(t.next).Success?
      && |ColumnHeaders(t.next).value| == |headerTexts| + 1
      && (forall i :: 0 <= i < |headerTexts| ==>
            ColumnHeaders(t.next).value[i]
            == ColumnHeader(HeaderNames.FormatHeader(Some(headerTexts[i])), types[i]))
      && (|headerTexts| == |classes| ==>
            ColumnHeaders(t.next).value[|headerTexts|]
            == ColumnHeader(REPORT_PULL_TIMESTAMP_COLUMN_NAME, TypeMapper.TIMESTAMP))
      && (|headerTexts| < |classes| ==>
            ColumnHeaders(t.next).value[|headerTexts|]
            == ColumnHeader(REPORT_PULL_TIMESTAMP_COLUMN_NAME, ColumnType(classes[|headerTexts|])))
  {
    DocumentToCsv(classes, headerTexts, rows, ts);
    var t := Run(Initial, ts, DocumentEvents(classes, headerTexts, rows));
    var names := HeaderLine(headerTexts);
    assert names[|headerTexts|] == REPORT_PULL_TIMESTAMP_COLUMN_NAME;
    assert forall i :: 0 <= i < |headerTexts| ==> names[i] == HeaderNames.FormatHeader(Some(headerTexts[i]));
  }

  /** When every body row has one cell per `th`, every record is as wide as the header line and ends with the timestamp. */
  lemma RecordsMatchHeaderLine(headerTexts: seq<string>, rows: seq<seq<string>>, ts: string)
    requires forall i :: 0 <= i < |rows| ==> |rows[i]| == |headerTexts|
    ensures |Records(rows, ts)| == |rows|
    ensures forall i :: 0 <= i < |rows| ==>
      && |Records(rows, ts)[i]| == |HeaderLine(headerTexts)|
      && Records(rows, ts)[i][|headerTexts|] == ts
  {
  }

  /**
    One `integral` column headed `Clicks!!` with the body rows `1,234` and
    an empty cell: the printer's header is `clicks_`, `reporting_date`; the
    first record handed to it has the cell quoted for its comma, and the
    second has the empty cell left empty.
   */
  lemma ClicksDocument(ts: string)
    ensures var t := Run(Initial, ts, DocumentEvents([Some("integral")], ["Clicks!!"], [["1,234"], [""]]));
      && t.outcome == Pass
      && t.next.csvPrinter == Some(CsvSink(["clicks_", "reporting_date"], [["\"1,234\"", ts], ["", ts]], false))
      && t.next.columnTypeInfo == Some(["INTEGER", "TIMESTAMP"])
      && t.next.bodyRowCounter == 2
  {
    DocumentToCsv([Some("integral")], ["Clicks!!"], [["1,234"], [""]], ts);
    ClicksColumnTypes();
    assert ["INTEGER"] + [TypeMapper.TIMESTAMP] == ["INTEGER", "TIMESTAMP"];
    ClicksHeaderLine();
    ClicksRecords(ts);
  }

  lemma ClicksColumnTypes()
    ensures ColumnTypes([Some("integral")]) == ["INTEGER"]
  {
    TypeMapper.KnownTokens();
  }

  lemma ClicksHeaderLine()
    ensures HeaderLine(["Clicks!!"]) == ["clicks_", "reporting_date"]
  {
    HeaderNames.FormatHeaderClicks();
  }

  lemma ClicksRecords(ts: string)
    ensures Records([["1,234"], [""]], ts) == [["\"1,234\"", ts], ["", ts]]
  {
    var rows := [["1,234"], [""]];
    CsvCells.CsvFieldCommaWrapped();
    CsvCells.CsvFieldEmptyCases();
    assert Record(rows[0], ts) == ["\"1,234\"", ts];
    assert Record(rows[1], ts) == ["", ts];
  }

  /** An empty body still yields a header-only file and no failure, given a type for every `th`. */
  lemma EmptyBodyDocument(classes: seq<Option<string>>, headerTexts: seq<string>, ts: string)
    requires |headerTexts| <= |classes|
    ensures var t := Run(Initial, ts, DocumentEvents(classes, headerTexts, []));
      && t.outcome == Pass
      && t.next.csvPrinter == Some(CsvSink(HeaderLine(headerTexts), [], false))
      && t.next.bodyRowCounter == 0
  {
    DocumentToCsv(classes, headerTexts, [], ts);
    assert Records([], ts) == [];
  }

  // ---------------------------------------------------------------------
  // Text between elements, and text split over several callbacks

  /** Two states that differ at most in the text accumulator. */
  predicate SameButText(s: HandlerState, s': HandlerState) {
    s.(textAccumulator := None) == s'.(textAccumulator := None)
  }

  predicate OpensText(e: Event) {
    e.StartElement? && (e.qName == "th" || e.qName == "td")
  }

  predicate ReadsText(e: Event) {
    e == EndElement("th") || e == EndElement("td")
  }

  /**
    The next event that opens or reads the text accumulator, if any, opens
    it: text delivered at this point is discarded before anything reads it.
   */
  predicate TextResetBeforeRead(events: seq<Event>) {
    if events == [] then true
    else if OpensText(events[0]) then true
    else if ReadsText(events[0]) then false
    else TextResetBeforeRead(events[1..])
  }

  /** The events with the text pieces `pads[i]` delivered right after `events[i]`. */
  function Pad(events: seq<Event>, pads: seq<seq<string>>): seq<Event>
    requires |pads| == |events|
  {
    if events == [] then []
    else [events[0]] + CharacterEvents(pads[0]) + Pad(events[1..], pads[1..])
  }

  /** Only the end of a `th` or `td` reads the accumulator, and the start of one resets it. */
  lemma StepIgnoresText(s: HandlerState, s': HandlerState, ts: string, e: Event)
    requires SameButText(s, s') && !ReadsText(e)
    ensures Step(s, ts, e).outcome == Step(s', ts, e).outcome
    ensures SameButText(Step(s, ts, e).next, Step(s', ts, e).next)
    ensures OpensText(e) ==> Step(s, ts, e).next == Step(s', ts, e).next
  {
    assert s.csvPrinter == s'.csvPrinter && s.columnTypeInfo == s'.columnTypeInfo;
    assert s.columnNameInfo == s'.columnNameInfo && s.rowAccumulator == s'.rowAccumulator;
    assert s.bodyElementStarted == s'.bodyElementStarted && s.bodyRowCounter == s'.bodyRowCounter;
  }

  lemma CharactersKeepSameButText(s: HandlerState, s': HandlerState, ts: string, pieces: seq<string>)
    requires SameButText(s, s')
    ensures Run(s', ts, CharacterEvents(pieces)).outcome == Pass
    ensures SameButText(s, Run(s', ts, CharacterEvents(pieces)).next)
  {
    CharactersAccumulate(s', ts, pieces);
  }

  /**
    Text delivered where the accumulator is reset before it is read (between
    elements, outside any cell) changes neither the outcome of a run nor any
    field other than the text accumulator.
   */
  lemma {:induction false} PaddingIgnored(s: HandlerState, s': HandlerState, ts: string,
                                           events: seq<Event>, pads: seq<seq<string>>)
    requires |pads| == |events|
    requires forall i :: 0 <= i < |events| && pads[i] != [] ==> TextResetBeforeRead(events[i + 1..])
    requires s == s' || (SameButText(s, s') && TextResetBeforeRead(events))
    ensures Run(s', ts, Pad(events, pads)).outcome == Run(s, ts, events).outcome
    ensures SameButText(Run(s, ts, events).next, Run(s', ts, Pad(events, pads)).next)
    decreases |events|
  {
    if events != [] {
      var e := events[0];
      var gap := CharacterEvents(pads[0]);
      var later := Pad(events[1..], pads[1..]);
      assert Pad(events, pads) == [e] + (gap + later);
      RunCons(s', ts, e, gap + later);
      var t, t' := Step(s, ts, e), Step(s', ts, e);
      if s != s' {
        StepIgnoresText(s, s', ts, e);
      }
      if t.outcome.Pass? {
        RunAppend(t'.next, ts, gap, later);
        CharactersKeepSameButText(t.next, t'.next, ts, pads[0]);
        var u' := Run(t'.next, ts, gap).next;
        if pads[0] != [] {
          assert TextResetBeforeRead(events[1..]);
        } else {
          assert u' == t'.next;
        }
        assert t.next == u' || TextResetBeforeRead(events[1..]);
        forall i | 0 <= i < |events[1..]| && pads[1..][i] != []
          ensures TextResetBeforeRead(events[1..][i + 1..])
        {
          assert events[1..][i + 1..] == events[i + 2..];
        }
        PaddingIgnored(t.next, u', ts, events[1..], pads[1..]);
      }
    }
  }

  /**
    The document theorem with text delivered after any event where the
    accumulator is reset before it is read: the same file, row count,
    types, names and outcome as DocumentToCsv states.
   */
  lemma PaddedDocumentToCsv(classes: seq<Option<string>>, headerTexts: seq<string>, rows: seq<seq<string>>,
                            ts: string, pads: seq<seq<string>>)
    requires |pads| == |DocumentEvents(classes, headerTexts, rows)|
    requires forall i :: 0 <= i < |pads| && pads[i] != [] ==>
      TextResetBeforeRead(DocumentEvents(classes, headerTexts, rows)[i + 1..])
    ensures var t := Run(Initial, ts, Pad(DocumentEvents(classes, headerTexts, rows), pads));
      && t.next.csvPrinter == Some(CsvSink(HeaderLine(headerTexts), Records(rows, ts), false))
      && t.next.bodyRowCounter == |rows|
      && t.next.bodyElementStarted
      && t.next.columnTypeInfo == Some(ColumnTypes(classes) + [TypeMapper.TIMESTAMP])
      && t.next.columnNameInfo == Some(HeaderLine(headerTexts))
      && (t.outcome == Pass <==> |headerTexts| <= |classes|)
      && (t.outcome.Fail? ==> t.outcome == Fail(IndexOutOfBounds(|classes| + 1)))
  {
    var events := DocumentEvents(classes, headerTexts, rows);
    DocumentToCsv(classes, headerTexts, rows, ts);
    PaddingIgnored(Initial, Initial, ts, events, pads);
    var a, b := Run(Initial, ts, events).next, Run(Initial, ts, Pad(events, pads)).next;
    assert a.csvPrinter == b.csvPrinter && a.columnTypeInfo == b.columnTypeInfo;
    assert a.columnNameInfo == b.columnNameInfo && a.bodyRowCounter == b.bodyRowCounter;
    assert a.bodyElementStarted == b.bodyElementStarted;
  }

  /** Text is discarded unread before a run of cells. */
  lemma TextResetBeforeCells(tag: string, texts: seq<string>, rest: seq<Event>)
    requires tag == "th" || tag == "td"
    requires TextResetBeforeRead(rest)
    ensures TextResetBeforeRead(CellEvents(tag, texts) + rest)
  {
    if texts != [] {
      assert (CellEvents(tag, texts) + rest)[0] == StartElement(tag, None);
    } else {
      assert CellEvents(tag, texts) + rest == rest;
    }
  }

  /** An event that neither opens nor reads the accumulator passes the question on. */
  lemma TextResetSkip(e: Event, rest: seq<Event>)
    requires !OpensText(e) && !ReadsText(e)
    ensures TextResetBeforeRead([e] + rest) == TextResetBeforeRead(rest)
  {
    assert ([e] + rest)[1..] == rest;
  }

  /** Text is discarded unread before a run of body rows, and so anywhere between rows. */
  lemma {:induction false} TextResetBeforeRows(rows: seq<seq<string>>, rest: seq<Event>)
    requires TextResetBeforeRead(rest)
    ensures TextResetBeforeRead(RowEvents(rows) + rest)
    decreases |rows|
  {
    if rows == [] {
      assert RowEvents(rows) + rest == rest;
    } else {
      var later := RowEvents(rows[1..]) + rest;
      TextResetBeforeRows(rows[1..], rest);
      TextResetSkip(EndElement("tr"), later);
      var after := [EndElement("tr")] + later;
      TextResetBeforeCells("td", rows[0], after);
      var inner := CellEvents("td", rows[0]) + after;
      TextResetSkip(StartElement("tr", None), inner);
      assert RowEvents(rows) + rest == [StartElement("tr", None)] + inner;
    }
  }

  /** From the start of the body to the end of the document, text between rows is never read. */
  lemma TextResetInBody(rows: seq<seq<string>>)
    ensures TextResetBeforeRead(BodySection(rows) + Epilogue)
    ensures TextResetBeforeRead(RowEvents(rows) + ([EndElement("tbody")] + Epilogue))
  {
    var tail := [EndElement("tbody")] + Epilogue;
    TextResetSkip(EndDocument, []);
    TextResetSkip(EndElement("table"), [EndDocument]);
    assert Epilogue == [EndElement("table")] + [EndDocument];
    TextResetSkip(EndElement("tbody"), Epilogue);
    TextResetBeforeRows(rows, tail);
    TextResetSkip(StartElement("tbody", None), RowEvents(rows) + tail);
    assert BodySection(rows) + Epilogue == [StartElement("tbody", None)] + (RowEvents(rows) + tail);
  }

  /**
    Splitting one text into several callbacks, anywhere in a run, changes
    nothing: the pieces are appended in order.
   */
  lemma SplitTextSameRun(s: HandlerState, ts: string, before: seq<Event>, pieces: seq<string>, after: seq<Event>)
    ensures Run(s, ts, before + CharacterEvents(pieces) + after)
         == Run(s, ts, before + [Characters(Concat(pieces))] + after)
  {
    var split, whole := CharacterEvents(pieces), [Characters(Concat(pieces))];
    RunAppend(s, ts, before + split, after);
    RunAppend(s, ts, before + whole, after);
    RunAppend(s, ts, before, split);
    RunAppend(s, ts, before, whole);
    var t := Run(s, ts, before);
    if t.outcome.Pass? {
      CharactersAccumulate(t.next, ts, pieces);
      RunCons(t.next, ts, Characters(Concat(pieces)), []);
    }
  }

  // ---------------------------------------------------------------------
  // Elements the handler does not react to, such as `html` and `body`

  /** A tag none of the callbacks tests for. */
  predicate NeutralTag(qName: string) {
    qName != "col" && qName != "colgroup" && qName != "thead" && qName != "tbody"
    && qName != "tr" && qName != "th" && qName != "td"
  }

  predicate NeutralEvent(e: Event) {
    (e.StartElement? || e.EndElement?) && NeutralTag(e.qName)
  }

  /** The start and the end of any other element change nothing, whatever the state. */
  lemma OtherElementIgnored(s: HandlerState, ts: string, qName: string, classAttr: Option<string>)
    requires NeutralTag(qName)
    ensures Step(s, ts, StartElement(qName, classAttr)) == Transition(s, Pass)
    ensures Step(s, ts, EndElement(qName)) == Transition(s, Pass)
  {
  }

  lemma {:induction false} NeutralEventsRun(s: HandlerState, ts: string, extra: seq<Event>)
    requires forall i :: 0 <= i < |extra| ==> NeutralEvent(extra[i])
    ensures Run(s, ts, extra) == Transition(s, Pass)
    decreases |extra|
  {
    if extra != [] {
      OtherElementIgnored(s, ts, extra[0].qName, if extra[0].StartElement? then extra[0].classAttr else None);
      NeutralEventsRun(s, ts, extra[1..]);
    }
  }

  /** The events with the events `extras[i]` delivered right after `events[i]`. */
  function Weave(events: seq<Event>, extras: seq<seq<Event>>): seq<Event>
    requires |extras| == |events|
  {
    if events == [] then []
    else [events[0]] + extras[0] + Weave(events[1..], extras[1..])
  }

  /** Inserting starts and ends of other elements anywhere changes neither the outcome nor the state. */
  lemma {:induction false} NeutralElementsIgnored(s: HandlerState, ts: string, events: seq<Event>,
                                                   extras: seq<seq<Event>>)
    requires |extras| == |events|
    requires forall i, j :: 0 <= i < |extras| && 0 <= j < |extras[i]| ==> NeutralEvent(extras[i][j])
    ensures Run(s, ts, Weave(events, extras)) == Run(s, ts, events)
    decreases |events|
  {
    if events != [] {
      var later := Weave(events[1..], extras[1..]);
      assert Weave(events, extras) == [events[0]] + (extras[0] + later);
      RunCons(s, ts, events[0], extras[0] + later);
      RunCons(s, ts, events[0], events[1..]);
      assert [events[0]] + events[1..] == events;
      var t := Step(s, ts, events[0]);
      if t.outcome.Pass? {
        RunAppend(t.next, ts, extras[0], later);
        NeutralEventsRun(t.next, ts, extras[0]);
        NeutralElementsIgnored(t.next, ts, events[1..], extras[1..]);
      }
    }
  }

  /**
    The document theorem for the stream a parser delivers for a whole page:
    the table's events with text outside the cells and the starts and ends
    of the surrounding elements (`html`, `body`, ...) anywhere after the
    document start. The printer, row count, types, names and outcome are
    those DocumentToCsv states.
   */
  lemma PageToCsv(classes: seq<Option<string>>, headerTexts: seq<string>, rows: seq<seq<string>>,
                  ts: string, pads: seq<seq<string>>, extras: seq<seq<Event>>)
    requires |pads| == |DocumentEvents(classes, headerTexts, rows)|
    requires forall i :: 0 <= i < |pads| && pads[i] != [] ==>
      TextResetBeforeRead(DocumentEvents(classes, headerTexts, rows)[i + 1..])
    requires |extras| == |Pad(DocumentEvents(classes, headerTexts, rows), pads)|
    requires forall i, j :: 0 <= i < |extras| && 0 <= j < |extras[i]| ==> NeutralEvent(extras[i][j])
    ensures var t := Run(Initial, ts, Weave(Pad(DocumentEvents(classes, headerTexts, rows), pads), extras));
      && t.next.csvPrinter == Some(CsvSink(HeaderLine(headerTexts), Records(rows, ts), false))
      && t.next.bodyRowCounter == |rows|
      && t.next.bodyElementStarted
      && t.next.columnTypeInfo == Some(ColumnTypes(classes) + [TypeMapper.TIMESTAMP])
      && t.next.columnNameInfo == Some(HeaderLine(headerTexts))
      && (t.outcome == Pass <==> |headerTexts| <= |classes|)
      && (t.outcome.Fail? ==> t.outcome == Fail(IndexOutOfBounds(|classes| + 1)))
  {
    var padded := Pad(DocumentEvents(classes, headerTexts, rows), pads);
    PaddedDocumentToCsv(classes, headerTexts, rows, ts, pads);
    NeutralElementsIgnored(Initial, ts, padded, extras);
  }
}
