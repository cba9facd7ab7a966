/** The viewer's own copy of the parser (it compares LineType strings where the
    LogLines model compares kinds), the field-equality drill-down filters of the
    detail pane, the row arithmetic of setTable and the choice of the record a
    selected table row stands for. */
module Explorer {
  import opened Results
  import opened Text
  import LogLines

  type LogLine = LogLines.LogLine
  type ParseError = LogLines.ParseError
  type TimeParser = LogLines.TimeParser

  /** The LineType constants, declared a second time for the viewer. */
  const Blocked := "gravity blocked"
  const Read := "read"
  const AAAA := "query[AAAA[]"
  const A := "query[A[]"
  const Ptr := "query[PTR[]"
  const Cached := "cached"
  const Forwarded := "forwarded"
  const Reply := "reply"
  const Unknown := "unknown"

  /** The switch on tokens[4], yielding the LineType string directly. It picks
      the constant of the kind that LogLines.Classify picks, so it always
      yields one of the nine constants. */
  function Dispatch(token: string): (lineType: string)
    ensures lineType == LogLines.LineType(LogLines.Classify(token))
    ensures LogLines.KindNamed(lineType) == Some(LogLines.Classify(token))
  {
    LogLines.LineTypeNamesKind(LogLines.Classify(token));
    match token
    case "gravity" => Blocked
    case "read" => Read
    case "query[AAAA]" => AAAA
    case "query[A]" => A
    case "query[PTR]" => Ptr
    case "cached" => Cached
    case "forwarded" => Forwarded
    case "reply" => Reply
    case _ => Unknown
  }

  /** The field reads of unmarshalLogLine, each guarded by string comparisons
      of the LineType as the viewer writes them. */
  function ReadFields(tokens: seq<string>, lineType: string, timestamp: LogLines.Instant, line: string)
    : Result<LogLine, ParseError>
  {
    var result :-
      if lineType == Cached || lineType == Reply then LogLines.At(tokens, 7)
      else if lineType == Blocked then LogLines.At(tokens, 8)
      else Ok("");
    var domain :-
      if lineType == Blocked then LogLines.At(tokens, 6)
      else if lineType == Cached || lineType == Reply || lineType == AAAA
        || lineType == A || lineType == Ptr || lineType == Forwarded
      then LogLines.At(tokens, 5)
      else Ok("");
    var requester :- if lineType == A || lineType == AAAA || lineType == Ptr then LogLines.At(tokens, 7) else Ok("");
    var upstream :- if lineType == Forwarded then LogLines.At(tokens, 7) else Ok("");
    Ok(LogLines.LogLine(timestamp, lineType, result, domain, requester, upstream, Escape(line)))
  }

  /** Comparing the LineType strings reads the same tokens, and fails at the
      same place, as comparing kinds: the nine constants are pairwise distinct. */
  lemma ReadFieldsAgree(tokens: seq<string>, k: LogLines.Kind, timestamp: LogLines.Instant, line: string)
    ensures ReadFields(tokens, LogLines.LineType(k), timestamp, line)
      == LogLines.ReadFields(tokens, k, timestamp, line)
  {
    LogLines.LineTypeNamesKind(k);
  }

  /** unmarshalLogLine: the viewer's parser agrees with UnmarshalLogLine on
      every line, field for field and panic for panic. */
  function UnmarshalLogLine(line: string, parseTime: TimeParser): (r: Result<LogLine, ParseError>)
    ensures r == LogLines.UnmarshalLogLine(line, parseTime)
  {
    var tokens := Fields(line);
    var t0 :- LogLines.At(tokens, 0);
    var t1 :- LogLines.At(tokens, 1);
    var t2 :- LogLines.At(tokens, 2);
    var timestamp :- LogLines.ParseTimestamp(parseTime, t0 + " " + t1 + " " + t2);
    var t4 :- LogLines.At(tokens, 4);
    ReadFieldsAgree(tokens, LogLines.Classify(t4), timestamp, line);
    ReadFields(tokens, Dispatch(t4), timestamp, line)
  }

  /** The stored lines of the records in the order the table shows them: the
      newest record first. */
  function Shown(lines: seq<LogLine>): (r: seq<string>)
    ensures |r| == |lines|
  {
    if lines == [] then []
    else [lines[|lines| - 1].line] + Shown(lines[..|lines| - 1])
  }

  /** Row r of the table (1-based: setTable never writes row 0, the empty row
      that SetFixed(1, 1) pins and that holds the initial selection) shows
      record rows - r. */
  lemma {:induction false} ShownRow(lines: seq<LogLine>, r: nat)
    requires 1 <= r <= |lines|
    ensures Shown(lines)[r - 1] == lines[|lines| - r].line
  {
    if r > 1 {
      ShownRow(lines[..|lines| - 1], r - 1);
    }
  }

  /** The stored lines of the records, in record order. */
  function Texts(lines: seq<LogLine>): (r: seq<string>)
    ensures |r| == |lines|
  {
    if lines == [] then [] else Texts(lines[..|lines| - 1]) + [lines[|lines| - 1].line]
  }

  /** The table shows every record exactly once: its rows are a permutation of
      the stored lines. */
  lemma {:induction false} ShownIsPermutation(lines: seq<LogLine>)
    ensures multiset(Shown(lines)) == multiset(Texts(lines))
  {
    if lines != [] {
      ShownIsPermutation(lines[..|lines| - 1]);
    }
  }

  /** The table order is the record order reversed. */
  lemma ShownIsReversed(lines: seq<LogLine>)
    ensures forall i :: 0 <= i < |lines| ==> Shown(lines)[i] == Texts(lines)[|lines| - 1 - i]
  {
    forall i | 0 <= i < |lines| ensures Shown(lines)[i] == Texts(lines)[|lines| - 1 - i] {
      ShownRow(lines, i + 1);
      TextsIndex(lines, |lines| - 1 - i);
    }
  }

  lemma {:induction false} TextsIndex(lines: seq<LogLine>, i: nat)
    requires i < |lines|
    ensures Texts(lines)[i] == lines[i].line
  {
    if i < |lines| - 1 {
      TextsIndex(lines[..|lines| - 1], i);
    }
  }

  /** setTable: the cells of column 0 after clearing the table and writing row
      r for r from 1 to rows. Rows 1 to rows hold the records newest first. */
  method SetTable(logLines: seq<LogLine>) returns (cells: map<int, string>)
    ensures forall r :: r in cells <==> 1 <= r <= |logLines|
    ensures forall r :: 1 <= r <= |logLines| ==> cells[r] == Shown(logLines)[r - 1]
  {
    cells := map[];
    var rows := |logLines|;
    var r := 1;
    while r <= rows
      invariant 1 <= r <= rows + 1
      invariant forall i :: i in cells <==> 1 <= i < r
      invariant forall i :: 1 <= i < r ==> cells[i] == logLines[rows - i].line
    {
      cells := cells[r := logLines[rows - r].line];
      r := r + 1;
    }
    forall i | 1 <= i <= rows ensures cells[i] == Shown(logLines)[i - 1] {
      ShownRow(logLines, i);
    }
  }

  /** The detail-pane entries that filter the table: by the selected record's
      LineType, or by one of its positional fields. */
  datatype Facet = ByLineType | ByField(field: LogLines.Field)

  /** The value of a record a drill-down compares. */
  function FacetValue(ll: LogLine, facet: Facet): string {
    match facet
    case ByLineType => ll.lineType
    case ByField(f) => LogLines.FieldOf(ll, f)
  }

  /** The closure a detail-pane entry passes to filterLogLine: the records whose
      value equals the selected record's. */
  function DrillDown(selected: LogLine, facet: Facet): LogLine -> bool {
    (ll: LogLine) => FacetValue(ll, facet) == FacetValue(selected, facet)
  }

  /** The filtering entries the detail pane offers for a record, in order: the
      entry type always, each positional field only when it is non-empty. */
  function DetailFacets(selected: LogLine): (r: seq<Facet>)
    ensures ByLineType in r
    ensures forall f :: ByField(f) in r <==> LogLines.FieldOf(selected, f) != ""
  {
    [ByLineType]
    + (if selected.result != "" then [ByField(LogLines.ResultField)] else [])
    + (if selected.domain != "" then [ByField(LogLines.DomainField)] else [])
    + (if selected.requester != "" then [ByField(LogLines.RequesterField)] else [])
    + (if selected.upstream != "" then [ByField(LogLines.UpstreamField)] else [])
  }

  /** The filter indicator's text for an entry-type drill-down: the LineType
      with the bracket escape undone. */
  function EntryTypeLabel(lineType: string): string {
    Unescape(lineType)
  }

  /** The indicator shows each kind's dispatch token ("query[A]" for the
      "query[A[]" constant); the blocked and unknown constants show as stored. */
  lemma EntryTypeLabelOfKind(k: LogLines.Kind)
    ensures EntryTypeLabel(LogLines.LineType(k)) ==
      if k == LogLines.Blocked || k == LogLines.Unknown then LogLines.LineType(k)
      else LogLines.DispatchToken(k).value
  {
    if k == LogLines.Blocked || k == LogLines.Unknown {
      var t := LogLines.LineType(k);
      assert t == Blocked || t == Unknown;
      EscapeWithoutBracket(t);
      UnescapeEscape(t);
    } else {
      LogLines.LineTypeIsEscapedToken(k);
    }
  }

  /** A drill-down keeps exactly the records of logLines whose value equals the
      selected record's, in order. */
  lemma DrillDownExact(logLines: seq<LogLine>, selected: LogLine, facet: Facet)
    ensures forall x :: (x in LogLines.Filter(logLines, DrillDown(selected, facet))
      <==> x in logLines && FacetValue(x, facet) == FacetValue(selected, facet))
    ensures LogLines.Subsequence(LogLines.Filter(logLines, DrillDown(selected, facet)), logLines)
  {
    LogLines.FilterMembers(logLines, DrillDown(selected, facet));
    LogLines.FilterIsSubsequence(logLines, DrillDown(selected, facet));
  }

  /** A record drawn from logLines matches its own drill-downs, so the drilled
      table is never empty. */
  lemma DrillDownKeepsSelected(logLines: seq<LogLine>, selected: LogLine, facet: Facet)
    requires selected in logLines
    ensures selected in LogLines.Filter(logLines, DrillDown(selected, facet))
    ensures LogLines.Filter(logLines, DrillDown(selected, facet)) != []
  {
    DrillDownExact(logLines, selected, facet);
  }

  /** A consistent record with a requester is a query. */
  lemma RequesterMeansQuery(x: LogLine)
    requires LogLines.Consistent(x) && x.requester != ""
    ensures x.lineType in {AAAA, A, Ptr}
  {
    LogLines.ConsistentExclusivity(x);
  }

  /** A consistent record with an upstream is a forwarded line. */
  lemma UpstreamMeansForwarded(x: LogLine)
    requires LogLines.Consistent(x) && x.upstream != ""
    ensures x.lineType == Forwarded
  {
    LogLines.ConsistentExclusivity(x);
  }

  /** With every record consistent, a requester drill-down (offered only for a
      non-empty requester) keeps only query records. */
  lemma RequesterDrillDownKeepsQueries(logLines: seq<LogLine>, selected: LogLine)
    requires forall x :: x in logLines ==> LogLines.Consistent(x)
    requires selected.requester != ""
    ensures forall x :: (x in LogLines.Filter(logLines, DrillDown(selected, ByField(LogLines.RequesterField)))
      ==> x.lineType in {AAAA, A, Ptr})
  {
    var facet := ByField(LogLines.RequesterField);
    DrillDownExact(logLines, selected, facet);
    forall x | x in LogLines.Filter(logLines, DrillDown(selected, facet)) ensures x.lineType in {AAAA, A, Ptr} {
      assert x in logLines && FacetValue(x, facet) == FacetValue(selected, facet);
      RequesterMeansQuery(x);
    }
  }

  /** With every record consistent, an upstream drill-down (offered only for a
      non-empty upstream) keeps only forwarded records. */
  lemma UpstreamDrillDownKeepsForwarded(logLines: seq<LogLine>, selected: LogLine)
    requires forall x :: x in logLines ==> LogLines.Consistent(x)
    requires selected.upstream != ""
    ensures forall x :: (x in LogLines.Filter(logLines, DrillDown(selected, ByField(LogLines.UpstreamField)))
      ==> x.lineType == Forwarded)
  {
    var facet := ByField(LogLines.UpstreamField);
    DrillDownExact(logLines, selected, facet);
    forall x | x in LogLines.Filter(logLines, DrillDown(selected, facet)) ensures x.lineType == Forwarded {
      assert x in logLines && FacetValue(x, facet) == FacetValue(selected, facet);
      UpstreamMeansForwarded(x);
    }
  }

  /** Submitting an empty search text shows every record again. */
  lemma EmptySearchShowsAll(logLines: seq<LogLine>)
    ensures LogLines.Filter(logLines, LogLines.TextSearchLogLine("")) == logLines
  {
    forall i | 0 <= i < |logLines| ensures LogLines.TextSearchLogLine("")(logLines[i]) {
      LogLines.TextSearchMatches("", logLines[i]);
    }
    LogLines.FilterKeepsAll(logLines, LogLines.TextSearchLogLine(""));
  }

  /** The selection handler as written: the record at rows - row of the full
      list, where rows is the length of the full list, whatever the table shows. */
  function SelectedAsWritten(logLines: seq<LogLine>, row: int): (ll: LogLine)
    requires 1 <= row <= |logLines|
    ensures ll in logLines
  {
    logLines[|logLines| - row]
  }

  /** After a text search for "x" over the records "x" and "y", the table shows
      the one record "x" on row 1, yet selecting row 1 picks record "y". */
  lemma SelectionAfterSearchPicksWrongRecord(stamp: LogLines.Instant)
    ensures var a := LogLines.LogLine(stamp, Unknown, "", "", "", "", "x");
      var b := LogLines.LogLine(stamp, Unknown, "", "", "", "", "y");
      var displayed := LogLines.Filter([a, b], LogLines.TextSearchLogLine("x"));
      displayed == [a] && Shown(displayed)[0] == "x" && SelectedAsWritten([a, b], 1) == b
  {
    var a := LogLines.LogLine(stamp, Unknown, "", "", "", "", "x");
    var b := LogLines.LogLine(stamp, Unknown, "", "", "", "", "y");
    assert [a, b][..1] == [a];
    assert LogLines.TextSearchLogLine("x")(a);
    assert "x"[0] != "y"[0];
    assert !("x" <= "y") && "y"[1..] == "";
    assert !Contains("", "x");
    assert !LogLines.TextSearchLogLine("x")(b);
    assert LogLines.Filter([a, b], LogLines.TextSearchLogLine("x")) == [a];
  }

  /** The record a selected row stands for: the one the table shows on that row,
      counted in the list the table was last filled from. */
  function SelectedRecord(displayed: seq<LogLine>, row: int): (ll: LogLine)
    requires 1 <= row <= |displayed|
    ensures ll in displayed
    ensures ll.line == Shown(displayed)[row - 1]
  {
    ShownRow(displayed, row);
    displayed[|displayed| - row]
  }

  /** Selecting a row of a filtered table yields a record of logLines, so each
      drill-down from it keeps that record. */
  lemma DrillDownFromTable(logLines: seq<LogLine>, f: LogLine -> bool, row: int, facet: Facet)
    requires 1 <= row <= |LogLines.Filter(logLines, f)|
    ensures var selected := SelectedRecord(LogLines.Filter(logLines, f), row);
      selected in logLines && f(selected)
      && selected in LogLines.Filter(logLines, DrillDown(selected, facet))
  {
    var displayed := LogLines.Filter(logLines, f);
    var selected := SelectedRecord(displayed, row);
    LogLines.FilterMembers(logLines, f);
    DrillDownKeepsSelected(logLines, selected, facet);
  }

  /** On the unfiltered table the handler as written picks the right record. */
  lemma SelectionAgreesUnfiltered(logLines: seq<LogLine>, row: int)
    requires 1 <= row <= |logLines|
    ensures SelectedAsWritten(logLines, row) == SelectedRecord(logLines, row)
  {
  }
}
