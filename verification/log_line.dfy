/** LogLine.go: the record kinds, the record, the line parser and the filter. */
module LogLines {
  import opened Results
  import opened Text

  /** The instant time.Parse(time.Stamp, …) yields; the model treats it as opaque. */
  type Instant = int

  /** time.Parse(time.Stamp, ·), supplied by the caller: None where Go reports an error. */
  type TimeParser = string -> Option<Instant>

  /** The nine interpreted line types. */
  datatype Kind = Blocked | Read | AAAA | A | Ptr | Cached | Forwarded | Reply | Unknown {
    predicate IsQuery() {
      this == AAAA || this == A || this == Ptr
    }
  }

  /** The LineType constant of each kind; a ']' is stored as "[]" so that tview
      does not read the text as a style tag. */
  function LineType(k: Kind): string {
    match k
    case Blocked => "gravity blocked"
    case Read => "read"
    case AAAA => "query[AAAA[]"
    case A => "query[A[]"
    case Ptr => "query[PTR[]"
    case Cached => "cached"
    case Forwarded => "forwarded"
    case Reply => "reply"
    case Unknown => "unknown"
  }

  /** The value of token 4 that selects each kind; Unknown is the fallback and has none. */
  function DispatchToken(k: Kind): Option<string> {
    match k
    case Blocked => Some("gravity")
    case Read => Some("read")
    case AAAA => Some("query[AAAA]")
    case A => Some("query[A]")
    case Ptr => Some("query[PTR]")
    case Cached => Some("cached")
    case Forwarded => Some("forwarded")
    case Reply => Some("reply")
    case Unknown => None
  }

  /** The kind whose LineType constant is s, if any. */
  function KindNamed(s: string): (k: Option<Kind>)
    ensures k.Some? ==> LineType(k.value) == s
  {
    match s
    case "gravity blocked" => Some(Blocked)
    case "read" => Some(Read)
    case "query[AAAA[]" => Some(AAAA)
    case "query[A[]" => Some(A)
    case "query[PTR[]" => Some(Ptr)
    case "cached" => Some(Cached)
    case "forwarded" => Some(Forwarded)
    case "reply" => Some(Reply)
    case "unknown" => Some(Unknown)
    case _ => None
  }

  /** The nine LineType constants are pairwise distinct: the string names the kind. */
  lemma LineTypeNamesKind(k: Kind)
    ensures KindNamed(LineType(k)) == Some(k)
  {
  }

  /** Escaping a ']'-free text followed by ']' appends "[]" instead. */
  lemma EscapeClosing(body: string)
    requires ']' !in body
    ensures Escape(body + "]") == body + "[]"
  {
    EscapeAppend(body, "]");
    EscapeWithoutBracket(body);
  }

  /** Each query constant is its dispatch token with ']' escaped; the other kinds
      except Blocked store their dispatch token unchanged. */
  lemma LineTypeIsEscapedToken(k: Kind)
    requires k != Blocked && k != Unknown
    ensures LineType(k) == Escape(DispatchToken(k).value)
    ensures Unescape(LineType(k)) == DispatchToken(k).value
  {
    var t := DispatchToken(k).value;
    if k == AAAA {
      assert t == "query[AAAA" + "]" && LineType(k) == "query[AAAA" + "[]";
      EscapeClosing("query[AAAA");
    } else if k == A {
      assert t == "query[A" + "]" && LineType(k) == "query[A" + "[]";
      EscapeClosing("query[A");
    } else if k == Ptr {
      assert t == "query[PTR" + "]" && LineType(k) == "query[PTR" + "[]";
      EscapeClosing("query[PTR");
    } else {
      assert LineType(k) == t;
      EscapeWithoutBracket(t);
    }
    UnescapeEscape(t);
  }

  /** The switch on tokens[4]: an exact match against the dispatch tokens. */
  function Classify(token: string): (k: Kind)
    ensures k != Unknown ==> DispatchToken(k) == Some(token)
    ensures k == Unknown <==> forall k' :: DispatchToken(k') != Some(token)
  {
    match token
    case "gravity" => Blocked
    case "read" => Read
    case "query[AAAA]" => AAAA
    case "query[A]" => A
    case "query[PTR]" => Ptr
    case "cached" => Cached
    case "forwarded" => Forwarded
    case "reply" => Reply
    case _ => Unknown
  }

  /** One interpreted log line. */
  datatype LogLine = LogLine(
    timestamp: Instant,
    lineType: string,
    result: string,
    domain: string,
    requester: string,
    upstream: string,
    line: string)

  /** The fields taken from a fixed token position. */
  datatype Field = ResultField | DomainField | RequesterField | UpstreamField

  /** The order in which the parser reads the positional fields. */
  const ReadOrder: seq<Field> := [ResultField, DomainField, RequesterField, UpstreamField]

  function FieldOf(ll: LogLine, f: Field): string {
    match f
    case ResultField => ll.result
    case DomainField => ll.domain
    case RequesterField => ll.requester
    case UpstreamField => ll.upstream
  }

  /** The token layout of each kind: which token index holds which field. A
      blocked line carries two keywords ("gravity blocked"), so its fields sit
      one place further right. */
  function Offset(k: Kind, f: Field): Option<nat> {
    match k
    case Blocked =>
      (match f case DomainField => Some(6) case ResultField => Some(8) case _ => None)
    case Cached | Reply =>
      (match f case DomainField => Some(5) case ResultField => Some(7) case _ => None)
    case AAAA | A | Ptr =>
      (match f case DomainField => Some(5) case RequesterField => Some(7) case _ => None)
    case Forwarded =>
      (match f case DomainField => Some(5) case UpstreamField => Some(7) case _ => None)
    case Read | Unknown => None
  }

  /** The number of tokens a line of kind k needs so that no read is out of range. */
  function MinTokens(k: Kind): nat {
    match k
    case Blocked => 9
    case Cached | Reply | AAAA | A | Ptr | Forwarded => 8
    case Read | Unknown => 5
  }

  /** Every offset of a kind lies below its token count. */
  lemma OffsetWithinMinTokens(k: Kind, f: Field)
    ensures Offset(k, f).Some? ==> Offset(k, f).value < MinTokens(k)
  {
  }

  /** The first token index, among the fields read in the given order, that a
      line of n tokens does not have: where Go's indexing panics. */
  function FirstOutOfRange(k: Kind, order: seq<Field>, n: nat): (i: Option<nat>)
  {
    if order == [] then None
    else
      match Offset(k, order[0])
      case Some(j) =>
        if j >= n then Some(j) else FirstOutOfRange(k, order[1..], n)
      case None => FirstOutOfRange(k, order[1..], n)
  }

  /** The token at the optional offset, or "" where the kind has no such field. */
  function Extract(tokens: seq<string>, o: Option<nat>): string {
    if o.Some? && o.value < |tokens| then tokens[o.value] else ""
  }

  /** The timestamp text: tokens 0 to 2 joined by single spaces. */
  function Stamp(tokens: seq<string>): string
    requires |tokens| >= 3
  {
    tokens[0] + " " + tokens[1] + " " + tokens[2]
  }

  /** Where Go panics: a token index out of range, or a timestamp time.Parse rejects. */
  datatype ParseError = IndexOutOfRange(index: nat, length: nat) | BadTimestamp(text: string)

  /** tokens[i], or the index panic. */
  function At(tokens: seq<string>, i: nat): (r: Result<string, ParseError>)
    ensures r.Ok? <==> i < |tokens|
  {
    if i < |tokens| then Ok(tokens[i]) else Err(IndexOutOfRange(i, |tokens|))
  }

  function ParseTimestamp(parseTime: TimeParser, text: string): Result<Instant, ParseError> {
    match parseTime(text)
    case Some(t) => Ok(t)
    case None => Err(BadTimestamp(text))
  }

  /** UnmarshalLogLine, with each Go panic as an Err. */
  function UnmarshalLogLine(line: string, parseTime: TimeParser): (r: Result<LogLine, ParseError>)
    ensures r.Ok? ==> r.value.line == Escape(line)
  {
    UnmarshalTokens(Fields(line), line, parseTime)
  }

  /** UnmarshalLogLine once the line is split into its tokens. */
  function UnmarshalTokens(tokens: seq<string>, line: string, parseTime: TimeParser)
    : (r: Result<LogLine, ParseError>)
    ensures r.Ok? ==> r.value.line == Escape(line)
  {
    var t0 :- At(tokens, 0);
    var t1 :- At(tokens, 1);
    var t2 :- At(tokens, 2);
    var timeStr := t0 + " " + t1 + " " + t2;
    var timestamp :- ParseTimestamp(parseTime, timeStr);
    var t4 :- At(tokens, 4);
    // Go compares the LineType strings; the constants are distinct (LineTypeNamesKind),
    // so comparing kinds is the same test.
    var kind := Classify(t4);
    ReadFields(tokens, kind, timestamp, line)
  }

  /** The second half of UnmarshalLogLine: the field reads of each kind, in the
      order the Go code performs them, and the record they make. */
  function ReadFields(tokens: seq<string>, kind: Kind, timestamp: Instant, line: string)
    : (r: Result<LogLine, ParseError>)
    ensures r.Ok? ==> r.value.line == Escape(line)
  {
    var result :-
      if kind == Cached || kind == Reply then At(tokens, 7)
      else if kind == Blocked then At(tokens, 8)
      else Ok("");
    var domain :-
      if kind == Blocked then At(tokens, 6)
      else if kind == Cached || kind == Reply || kind == AAAA || kind == A || kind == Ptr || kind == Forwarded
      then At(tokens, 5)
      else Ok("");
    var requester :- if kind == A || kind == AAAA || kind == Ptr then At(tokens, 7) else Ok("");
    var upstream :- if kind == Forwarded then At(tokens, 7) else Ok("");
    Ok(LogLine(timestamp, LineType(kind), result, domain, requester, upstream, Escape(line)))
  }

  /** The panic index in closed form: none once the line has its kind's token
      count, else the kind's last token, except that the query and forwarded
      kinds read token 5 first. */
  lemma FirstOutOfRangeOfKind(k: Kind, n: nat)
    requires n >= 5
    ensures FirstOutOfRange(k, ReadOrder, n) ==
      if n >= MinTokens(k) then None
      else if (k.IsQuery() || k == Forwarded) && n <= 5 then Some(5)
      else Some(MinTokens(k) - 1)
  {
    var upstream := [UpstreamField];
    var requester := [RequesterField] + upstream;
    var domain := [DomainField] + requester;
    assert ReadOrder == [ResultField] + domain;
    assert ReadOrder[1..] == domain && domain[1..] == requester && requester[1..] == upstream;
    assert upstream[1..] == [];
    assert FirstOutOfRange(k, upstream, n) == if Offset(k, UpstreamField).Some? && Offset(k, UpstreamField).value >= n then Offset(k, UpstreamField) else None;
    assert FirstOutOfRange(k, requester, n) == if Offset(k, RequesterField).Some? && Offset(k, RequesterField).value >= n then Offset(k, RequesterField) else FirstOutOfRange(k, upstream, n);
    assert FirstOutOfRange(k, domain, n) == if Offset(k, DomainField).Some? && Offset(k, DomainField).value >= n then Offset(k, DomainField) else FirstOutOfRange(k, requester, n);
    assert FirstOutOfRange(k, ReadOrder, n) == if Offset(k, ResultField).Some? && Offset(k, ResultField).value >= n then Offset(k, ResultField) else FirstOutOfRange(k, domain, n);
  }

  /** A line with the tokens its kind needs yields each field from its kind's
      offset, and "" for the fields the kind does not have. */
  lemma ReadFieldsSucceed(tokens: seq<string>, k: Kind, timestamp: Instant, line: string)
    requires |tokens| >= MinTokens(k)
    ensures ReadFields(tokens, k, timestamp, line) == Ok(LogLine(timestamp, LineType(k),
      Extract(tokens, Offset(k, ResultField)), Extract(tokens, Offset(k, DomainField)),
      Extract(tokens, Offset(k, RequesterField)), Extract(tokens, Offset(k, UpstreamField)),
      Escape(line)))
  {
  }

  /** A shorter line panics at the first token, in reading order, that it lacks. */
  lemma ReadFieldsPanic(tokens: seq<string>, k: Kind, timestamp: Instant, line: string)
    requires 5 <= |tokens| < MinTokens(k)
    ensures FirstOutOfRange(k, ReadOrder, |tokens|).Some?
    ensures ReadFields(tokens, k, timestamp, line)
      == Err(IndexOutOfRange(FirstOutOfRange(k, ReadOrder, |tokens|).value, |tokens|))
  {
    FirstOutOfRangeOfKind(k, |tokens|);
    if k == Blocked {
    } else if k == Cached || k == Reply {
    } else if k.IsQuery() || k == Forwarded {
      if |tokens| > 5 {
        assert At(tokens, 5) == Ok(tokens[5]);
      }
    }
  }

  /** Each panic of the Go code is an Err naming the same index or timestamp text:
      the first of tokens 0 to 2 that is missing, then the timestamp, then token 4,
      then the first missing token in the order the fields are read. A success
      follows the token layout of the kind that token 4 selects. */
  lemma UnmarshalFollowsLayout(line: string, parseTime: TimeParser)
    ensures var r := UnmarshalLogLine(line, parseTime);
      var toks := Fields(line); var n := |toks|;
      if n < 3 then r == Err(IndexOutOfRange(n, n))
      else if parseTime(Stamp(toks)).None? then r == Err(BadTimestamp(Stamp(toks)))
      else if n < 5 then r == Err(IndexOutOfRange(4, n))
      else
        var k := Classify(toks[4]);
        var missing := FirstOutOfRange(k, ReadOrder, n);
        if missing.Some? then r == Err(IndexOutOfRange(missing.value, n))
        else r == Ok(LogLine(parseTime(Stamp(toks)).value, LineType(k),
          Extract(toks, Offset(k, ResultField)), Extract(toks, Offset(k, DomainField)),
          Extract(toks, Offset(k, RequesterField)), Extract(toks, Offset(k, UpstreamField)),
          Escape(line)))
  {
    var toks := Fields(line);
    if |toks| >= 5 && parseTime(Stamp(toks)).Some? {
      var k, t := Classify(toks[4]), parseTime(Stamp(toks)).value;
      FirstOutOfRangeOfKind(k, |toks|);
      if |toks| >= MinTokens(k) {
        ReadFieldsSucceed(toks, k, t, line);
      } else {
        ReadFieldsPanic(toks, k, t, line);
      }
    }
  }

  /** A line parses exactly when it has a valid timestamp and at least five tokens,
      and as many as its kind reads: nine for Blocked, eight for Cached, Reply,
      the queries and Forwarded, five for Read and Unknown. */
  lemma {:induction false} ParseSucceedsExactly(line: string, parseTime: TimeParser)
    ensures var toks := Fields(line);
      UnmarshalLogLine(line, parseTime).Ok? <==>
        |toks| >= 5 && parseTime(Stamp(toks)).Some? && |toks| >= MinTokens(Classify(toks[4]))
  {
    UnmarshalFollowsLayout(line, parseTime);
    var toks := Fields(line);
    if |toks| >= 5 {
      FirstOutOfRangeOfKind(Classify(toks[4]), |toks|);
    }
  }

  /** A record satisfies its kind's field rules: its LineType is one of the nine
      constants, and a positional field is non-empty exactly when the kind has it. */
  predicate Consistent(ll: LogLine) {
    match KindNamed(ll.lineType)
    case None => false
    case Some(k) => forall f :: FieldOf(ll, f) != "" <==> Offset(k, f).Some?
  }

  /** Every parsed record is consistent: no field leaks into a kind without it. */
  lemma ParsedIsConsistent(line: string, parseTime: TimeParser)
    requires UnmarshalLogLine(line, parseTime).Ok?
    ensures Consistent(UnmarshalLogLine(line, parseTime).value)
  {
    ParseSucceedsExactly(line, parseTime);
    UnmarshalFollowsLayout(line, parseTime);
    var toks := Fields(line);
    FieldsAreWords(line);
    var k := Classify(toks[4]);
    LineTypeNamesKind(k);
    var ll := UnmarshalLogLine(line, parseTime).value;
    forall f ensures FieldOf(ll, f) != "" <==> Offset(k, f).Some? {
      OffsetWithinMinTokens(k, f);
      if Offset(k, f).Some? {
        assert IsWord(toks[Offset(k, f).value]);
      }
    }
  }

  /** Field exclusivity in the terms of the Go comments: Result only for cached,
      reply and blocked lines, Requester only for queries, Upstream only for
      forwarded lines, and Domain for every kind but read and unknown. */
  lemma ConsistentExclusivity(ll: LogLine)
    requires Consistent(ll)
    ensures ll.result != "" <==> ll.lineType in {LineType(Cached), LineType(Reply), LineType(Blocked)}
    ensures ll.requester != "" <==> ll.lineType in {LineType(AAAA), LineType(A), LineType(Ptr)}
    ensures ll.upstream != "" <==> ll.lineType == LineType(Forwarded)
    ensures ll.domain == "" <==> ll.lineType in {LineType(Read), LineType(Unknown)}
  {
    var k := KindNamed(ll.lineType).value;
    assert FieldOf(ll, ResultField) == ll.result;
    assert FieldOf(ll, DomainField) == ll.domain;
    assert FieldOf(ll, RequesterField) == ll.requester;
    assert FieldOf(ll, UpstreamField) == ll.upstream;
  }

  /** The stored line is the raw line escaped: no stray ']', one extra character
      per ']', and unescaping gives the raw line back. */
  lemma ParsedLineIsEscaped(line: string, parseTime: TimeParser)
    requires UnmarshalLogLine(line, parseTime).Ok?
    ensures var shown := UnmarshalLogLine(line, parseTime).value.line;
      && BracketsEscaped(shown)
      && |shown| == |line| + multiset(line)[']']
      && Unescape(shown) == line
  {
    EscapedBracketsFollowOpen(line);
    EscapeLength(line);
    UnescapeEscape(line);
  }

  /** A non-empty run of visible ASCII characters is a strings.Fields token. */
  lemma VisibleIsWord(w: string)
    requires w != [] && forall i :: 0 <= i < |w| ==> '!' <= w[i] <= '~'
    ensures IsWord(w)
  {
  }

  /** Visible ASCII words joined by single spaces split back into those words. */
  lemma VisibleWordsSplit(ws: seq<string>)
    requires forall i :: 0 <= i < |ws| ==> ws[i] != [] && forall j :: 0 <= j < |ws[i]| ==> '!' <= ws[i][j] <= '~'
    ensures Fields(JoinSpace(ws)) == ws
  {
    forall i | 0 <= i < |ws| ensures IsWord(ws[i]) {
      VisibleIsWord(ws[i]);
    }
    FieldsJoinSpace(ws);
  }

  /** Sample lines of the log format, as the tokens strings.Fields yields for them. */
  const QueryLine := ["Jan", "2", "03:04:05", "dnsmasq[1]:", "query[A]", "host.lan", "from", "10.0.0.5"]
  const BlockedLine := ["Jan", "2", "03:04:05", "dnsmasq[1]:", "gravity", "blocked", "ads.lan", "is", "0.0.0.0"]
  const ForwardedLine := ["Jan", "2", "03:04:05", "dnsmasq[1]:", "forwarded", "host.lan", "to", "1.1.1.1"]
  const OtherLine := ["Jan", "2", "03:04:05", "dnsmasq[1]:", "started,", "version", "2.80"]

  /** Each sample token list is what strings.Fields makes of its words joined
      by single spaces. */
  lemma QueryLineSplits()
    ensures Fields(JoinSpace(QueryLine)) == QueryLine
  {
    VisibleIsWord("Jan"); VisibleIsWord("2"); VisibleIsWord("03:04:05"); VisibleIsWord("dnsmasq[1]:");
    VisibleIsWord("query[A]"); VisibleIsWord("host.lan"); VisibleIsWord("from"); VisibleIsWord("10.0.0.5");
    FieldsJoinSpace(QueryLine);
  }

  lemma BlockedLineSplits()
    ensures Fields(JoinSpace(BlockedLine)) == BlockedLine
  {
    VisibleIsWord("Jan"); VisibleIsWord("2"); VisibleIsWord("03:04:05"); VisibleIsWord("dnsmasq[1]:");
    VisibleIsWord("gravity"); VisibleIsWord("blocked"); VisibleIsWord("ads.lan"); VisibleIsWord("is"); VisibleIsWord("0.0.0.0");
    FieldsJoinSpace(BlockedLine);
  }

  lemma ForwardedLineSplits()
    ensures Fields(JoinSpace(ForwardedLine)) == ForwardedLine
  {
    VisibleIsWord("Jan"); VisibleIsWord("2"); VisibleIsWord("03:04:05"); VisibleIsWord("dnsmasq[1]:");
    VisibleIsWord("forwarded"); VisibleIsWord("host.lan"); VisibleIsWord("to"); VisibleIsWord("1.1.1.1");
    FieldsJoinSpace(ForwardedLine);
  }

  lemma OtherLineSplits()
    ensures Fields(JoinSpace(OtherLine)) == OtherLine
  {
    VisibleIsWord("Jan"); VisibleIsWord("2"); VisibleIsWord("03:04:05"); VisibleIsWord("dnsmasq[1]:");
    VisibleIsWord("started,"); VisibleIsWord("version"); VisibleIsWord("2.80");
    FieldsJoinSpace(OtherLine);
  }

  /** dnsmasq pads a one-digit day with a space ("Jan  2"); strings.Fields drops
      the extra space, so the query line splits into the same tokens. */
  lemma PaddedDaySplits()
    ensures Fields("Jan" + "  " + JoinSpace(QueryLine[1..])) == QueryLine
  {
    VisibleWordsSplit(QueryLine[1..]);
    VisibleIsWord("Jan");
    FieldsAfterWord("Jan", "  ", JoinSpace(QueryLine[1..]));
    assert QueryLine == ["Jan"] + QueryLine[1..];
  }

  /** The padded query line parses like the single-spaced one. */
  lemma SamplePadded(parseTime: TimeParser)
    requires parseTime("Jan 2 03:04:05").Some?
    ensures var line := "Jan" + "  " + JoinSpace(QueryLine[1..]);
      var r := UnmarshalLogLine(line, parseTime);
      r.Ok? && r.value.lineType == "query[A[]" && r.value.domain == "host.lan"
      && r.value.requester == "10.0.0.5" && r.value.line == Escape(line)
  {
    PaddedDaySplits();
    SampleQuery("Jan" + "  " + JoinSpace(QueryLine[1..]), parseTime);
  }

  /** A query line yields its domain and requester. */
  lemma SampleQuery(line: string, parseTime: TimeParser)
    requires Fields(line) == QueryLine && parseTime("Jan 2 03:04:05").Some?
    ensures var r := UnmarshalLogLine(line, parseTime);
      r.Ok? && r.value.lineType == "query[A[]" && r.value.domain == "host.lan"
      && r.value.requester == "10.0.0.5" && r.value.result == "" && r.value.upstream == ""
      && r.value.line == Escape(line)
  {
    assert Stamp(QueryLine) == "Jan 2 03:04:05";
  }

  /** A blocked line yields its domain and the address it was answered with. */
  lemma SampleBlocked(line: string, parseTime: TimeParser)
    requires Fields(line) == BlockedLine && parseTime("Jan 2 03:04:05").Some?
    ensures var r := UnmarshalLogLine(line, parseTime);
      r.Ok? && r.value.lineType == "gravity blocked" && r.value.domain == "ads.lan"
      && r.value.result == "0.0.0.0" && r.value.requester == "" && r.value.upstream == ""
      && r.value.line == Escape(line)
  {
    assert Stamp(BlockedLine) == "Jan 2 03:04:05";
  }

  /** A forwarded line yields its domain and upstream server. */
  lemma SampleForwarded(line: string, parseTime: TimeParser)
    requires Fields(line) == ForwardedLine && parseTime("Jan 2 03:04:05").Some?
    ensures var r := UnmarshalLogLine(line, parseTime);
      r.Ok? && r.value.lineType == "forwarded" && r.value.domain == "host.lan"
      && r.value.upstream == "1.1.1.1" && r.value.result == "" && r.value.requester == ""
      && r.value.line == Escape(line)
  {
    assert Stamp(ForwardedLine) == "Jan 2 03:04:05";
  }

  /** Any other dnsmasq line is kept as "unknown" with no fields, its text escaped. */
  lemma SampleOther(line: string, parseTime: TimeParser)
    requires Fields(line) == OtherLine && parseTime("Jan 2 03:04:05").Some?
    ensures var r := UnmarshalLogLine(line, parseTime);
      r.Ok? && r.value.lineType == "unknown" && r.value.domain == "" && r.value.result == ""
      && r.value.requester == "" && r.value.upstream == ""
      && r.value.line == Escape(line)
  {
    assert Stamp(OtherLine) == "Jan 2 03:04:05";
  }

  /** The lines FilterLogLine keeps: those satisfying f, in input order. */
  function Filter(lines: seq<LogLine>, f: LogLine -> bool): (r: seq<LogLine>)
    ensures |r| <= |lines|
  {
    if lines == [] then []
    else
      var last := lines[|lines| - 1];
      Filter(lines[..|lines| - 1], f) + (if f(last) then [last] else [])
  }

  /** FilterLogLine: appends, in order, every line that f accepts. */
  method FilterLogLine(lines: seq<LogLine>, f: LogLine -> bool) returns (filtered: seq<LogLine>)
    ensures filtered == Filter(lines, f)
  {
    filtered := [];
    for i := 0 to |lines|
      invariant filtered == Filter(lines[..i], f)
    {
      assert lines[..i + 1][..i] == lines[..i];
      if f(lines[i]) {
        filtered := filtered + [lines[i]];
      }
    }
    assert lines[..|lines|] == lines;
  }

  /** A record is kept exactly when it is in the input and f accepts it. */
  lemma {:induction false} FilterMembers(lines: seq<LogLine>, f: LogLine -> bool)
    ensures forall x :: x in Filter(lines, f) <==> x in lines && f(x)
  {
    if lines != [] {
      var init := lines[..|lines| - 1];
      FilterMembers(init, f);
      assert lines == init + [lines[|lines| - 1]];
    }
  }

  /** Each accepted record is kept as often as it occurs; the others never. */
  lemma {:induction false} FilterCounts(lines: seq<LogLine>, f: LogLine -> bool, x: LogLine)
    ensures multiset(Filter(lines, f))[x] == if f(x) then multiset(lines)[x] else 0
  {
    if lines != [] {
      var init := lines[..|lines| - 1];
      FilterCounts(init, f, x);
      assert lines == init + [lines[|lines| - 1]];
    }
  }

  /** r is an order-preserving selection from s. */
  ghost predicate Subsequence(r: seq<LogLine>, s: seq<LogLine>)
    decreases |s|
  {
    if r == [] then true
    else if s == [] then false
    else
      (r[|r| - 1] == s[|s| - 1] && Subsequence(r[..|r| - 1], s[..|s| - 1]))
      || Subsequence(r, s[..|s| - 1])
  }

  /** Sanity check of Subsequence: every list is a selection from itself. */
  lemma {:induction false} SubsequenceOfSelf(s: seq<LogLine>)
    ensures Subsequence(s, s)
  {
    if s != [] {
      SubsequenceOfSelf(s[..|s| - 1]);
    }
  }

  /** Sanity check of Subsequence: a selection stays one when the source grows. */
  lemma {:induction false} SubsequenceAppend(r: seq<LogLine>, s: seq<LogLine>, x: LogLine)
    requires Subsequence(r, s)
    ensures Subsequence(r, s + [x])
    decreases |s|
  {
    if r != [] {
      assert (s + [x])[..|s|] == s;
    }
  }

  /** Sanity check of Subsequence: it respects order, so swapping two distinct
      records is not a selection. */
  lemma SubsequenceNotTrivial(a: LogLine, b: LogLine)
    requires a != b
    ensures !Subsequence([a, b], [b, a])
  {
    assert [a, b][..1] == [a] && [b, a][..1] == [b] && [b][..0] == [];
    assert !Subsequence([a], []) && !Subsequence([a, b], []);
    assert !Subsequence([a, b], [b]);
  }

  /** The filter keeps the input order. */
  lemma {:induction false} FilterIsSubsequence(lines: seq<LogLine>, f: LogLine -> bool)
    ensures Subsequence(Filter(lines, f), lines)
  {
    if lines != [] {
      var init, last := lines[..|lines| - 1], lines[|lines| - 1];
      FilterIsSubsequence(init, f);
      var r := Filter(lines, f);
      if f(last) {
        assert r[..|r| - 1] == Filter(init, f);
      } else {
        assert r == Filter(init, f);
      }
    }
  }

  /** Filtering twice with the same predicate is filtering once. */
  lemma {:induction false} FilterIdempotent(lines: seq<LogLine>, f: LogLine -> bool)
    ensures Filter(Filter(lines, f), f) == Filter(lines, f)
  {
    if lines != [] {
      var init, last := lines[..|lines| - 1], lines[|lines| - 1];
      FilterIdempotent(init, f);
      var r := Filter(lines, f);
      if f(last) {
        assert r == Filter(init, f) + [last];
        assert r[..|r| - 1] == Filter(init, f) && r[|r| - 1] == last;
        assert Filter(r, f) == Filter(Filter(init, f), f) + [last];
      } else {
        assert r == Filter(init, f);
      }
    }
  }

  /** The result is empty exactly when f accepts no line. */
  lemma FilterEmptyIff(lines: seq<LogLine>, f: LogLine -> bool)
    ensures Filter(lines, f) == [] <==> forall i :: 0 <= i < |lines| ==> !f(lines[i])
  {
    FilterMembers(lines, f);
    var r := Filter(lines, f);
    if r != [] {
      assert r[0] in r;
    }
  }

  /** When f accepts every line the filter returns its input. */
  lemma {:induction false} FilterKeepsAll(lines: seq<LogLine>, f: LogLine -> bool)
    requires forall i :: 0 <= i < |lines| ==> f(lines[i])
    ensures Filter(lines, f) == lines
  {
    if lines != [] {
      FilterKeepsAll(lines[..|lines| - 1], f);
    }
  }

  /** TextSearchLogLine: accept the records whose stored (escaped) line contains s. */
  function TextSearchLogLine(s: string): LogLine -> bool {
    (ll: LogLine) => Contains(ll.line, s)
  }

  /** A text search accepts a record exactly when s occurs in its stored line;
      the empty string occurs in every line. */
  lemma TextSearchMatches(s: string, ll: LogLine)
    ensures TextSearchLogLine(s)(ll) <==> exists i: nat :: OccursAt(ll.line, s, i)
    ensures s == "" ==> TextSearchLogLine(s)(ll)
  {
    ContainsOccurs(ll.line, s);
    if s == "" {
      assert OccursAt(ll.line, s, 0);
    }
  }

  /** A search text with a ']' that does not follow a '[' (such as "query[A]")
      matches no parsed record, because stored lines are escaped. */
  lemma TextSearchMissesStrayBracket(s: string, j: nat, line: string, parseTime: TimeParser)
    requires 0 < j < |s| && s[j] == ']' && s[j - 1] != '['
    requires UnmarshalLogLine(line, parseTime).Ok?
    ensures !TextSearchLogLine(s)(UnmarshalLogLine(line, parseTime).value)
  {
    StrayBracketNeverInEscaped(line, s, j);
  }
}
