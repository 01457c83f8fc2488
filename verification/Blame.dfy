/** Blame attribution: joining Git's line porcelain into runs, checked against the
    selected source lines (src/history/blame.rs). Recognising a header line is an
    arbitrary function of its bytes. */
module Blame {
  import opened Basics
  import Lines
  import SourceRead
  import SourceSpan

  const HUNK_BYTES: nat := 8 * 1024 * 1024
  const RUN_BYTES: nat := 3 * 1024
  const TAB: Byte := 9
  const IGNORED: seq<Byte> := [105, 103, 110, 111, 114, 101, 100]
  const UNBLAMABLE: seq<Byte> := [117, 110, 98, 108, 97, 109, 97, 98, 108, 101]

  type Oid = seq<Byte>

  datatype Header = Header(commit: Oid, original: nat, final_: nat)

  /** What a porcelain line is read as; a header with a bad number fails the whole blame. */
  datatype Parsed = Plain | BadNumber | Opens(header: Header)

  datatype Token = Source(text: seq<Byte>) | Ignored | Unblamable | Head(header: Header) | Bad | Other

  function Classify(line: seq<Byte>, parse: seq<Byte> -> Parsed): Token {
    if line != [] && line[0] == TAB then Source(line[1..])
    else if line == IGNORED then Ignored
    else if line == UNBLAMABLE then Unblamable
    else match parse(line)
      case Plain => Other
      case BadNumber => Bad
      case Opens(h) => Head(h)
  }

  // ------------------------------------------------------------ what the porcelain says

  datatype Attr = Attr(commit: Oid, original: nat, line: nat, ignored: bool, unblamable: bool)

  datatype Record = Record(attr: Attr, text: seq<Byte>)

  /** The last header since the last source line. */
  function Pending(tokens: seq<Token>): Option<Header> {
    if tokens == [] then None
    else match tokens[|tokens| - 1]
      case Source(_) => None
      case Head(h) => Some(h)
      case _ => Pending(tokens[..|tokens| - 1])
  }

  /** Whether `mark` occurs since the last source line. */
  predicate Marked(tokens: seq<Token>, mark: Token) {
    && tokens != []
    && !tokens[|tokens| - 1].Source?
    && (tokens[|tokens| - 1] == mark || Marked(tokens[..|tokens| - 1], mark))
  }

  /** No malformed header, and a header before every source line. */
  predicate WellFormed(tokens: seq<Token>) {
    tokens != [] ==>
      var front, last := tokens[..|tokens| - 1], tokens[|tokens| - 1];
      WellFormed(front) && !last.Bad? && (last.Source? ==> Pending(front).Some?)
  }

  function RecordAfter(front: seq<Token>, text: seq<Byte>): Record
    requires Pending(front).Some?
  {
    var h := Pending(front).value;
    Record(Attr(h.commit, h.original, h.final_, Marked(front, Ignored), Marked(front, Unblamable)), text)
  }

  /** One record for each source line: its header and marks are those since the line before. */
  function Records(tokens: seq<Token>): seq<Record>
    requires WellFormed(tokens)
  {
    if tokens == [] then []
    else
      var front, last := tokens[..|tokens| - 1], tokens[|tokens| - 1];
      if last.Source? then Records(front) + [RecordAfter(front, last.text)] else Records(front)
  }

  function Attrs(records: seq<Record>): (r: seq<Attr>)
    ensures |r| == |records| && forall i :: 0 <= i < |r| ==> r[i] == records[i].attr
  {
    seq(|records|, i requires 0 <= i < |records| => records[i].attr)
  }

  // ------------------------------------------------------------ runs

  datatype Run = Run(commit: Oid, original: nat, start: nat, lines: nat, ignored: bool, unblamable: bool)

  function AttrOf(r: Run, i: nat): Attr {
    Attr(r.commit, r.original + i, r.start + i, r.ignored, r.unblamable)
  }

  function Expand(r: Run): (s: seq<Attr>)
    ensures |s| == r.lines && forall i :: 0 <= i < |s| ==> s[i] == AttrOf(r, i)
  {
    seq(r.lines, i requires 0 <= i < r.lines => AttrOf(r, i))
  }

  /** The lines the runs stand for. */
  function ExpandAll(runs: seq<Run>): seq<Attr> {
    if runs == [] then [] else ExpandAll(runs[..|runs| - 1]) + Expand(runs[|runs| - 1])
  }

  /** Two adjacent lines belong to one run. */
  predicate Joins(a: Attr, b: Attr) {
    && a.commit == b.commit && a.original + 1 == b.original && a.line + 1 == b.line
    && a.ignored == b.ignored && a.unblamable == b.unblamable
  }

  /** How many runs a list of lines falls into. */
  function RunCount(attrs: seq<Attr>): nat {
    if attrs == [] then 0
    else
      var n := |attrs| - 1;
      RunCount(attrs[..n]) + (if n > 0 && Joins(attrs[n - 1], attrs[n]) then 0 else 1)
  }

  /** Neighbouring runs `k - 1` and `k` could not be one. */
  predicate Apart(runs: seq<Run>, k: nat)
    requires 0 < k < |runs|
  {
    var a, b := runs[k - 1], runs[k];
    a.lines > 0 ==> !Joins(AttrOf(a, a.lines - 1), AttrOf(b, 0))
  }

  ghost predicate Longest(runs: seq<Run>) {
    && (forall k :: 0 <= k < |runs| ==> runs[k].lines > 0)
    && (forall k :: 0 < k < |runs| ==> Apart(runs, k))
  }

  /** The runs stand for exactly `attrs`, none is empty, and no two neighbours could be one. */
  ghost predicate Grouped(runs: seq<Run>, attrs: seq<Attr>) {
    ExpandAll(runs) == attrs && |runs| == RunCount(attrs) && Longest(runs)
  }

  predicate CanJoin(runs: seq<Run>, a: Attr) {
    && runs != []
    && var r := runs[|runs| - 1];
       && r.commit == a.commit && r.original + r.lines == a.original && r.start + r.lines == a.line
       && r.ignored == a.ignored && r.unblamable == a.unblamable
  }

  function Joined(runs: seq<Run>, a: Attr): seq<Run>
  {
    if CanJoin(runs, a) then
      var n := |runs| - 1;
      runs[..n] + [runs[n].(lines := runs[n].lines + 1)]
    else runs + [Run(a.commit, a.original, a.line, 1, a.ignored, a.unblamable)]
  }

  lemma {:induction false} LastLine(runs: seq<Run>, attrs: seq<Attr>)
    requires Grouped(runs, attrs)
    ensures (runs == []) == (attrs == [])
    ensures runs != [] ==> var r := runs[|runs| - 1]; attrs[|attrs| - 1] == AttrOf(r, r.lines - 1)
  {
  }

  lemma {:induction false} JoinExpands(runs: seq<Run>, a: Attr)
    ensures ExpandAll(Joined(runs, a)) == ExpandAll(runs) + [a]
  {
    var all := Joined(runs, a);
    if CanJoin(runs, a) {
      var n := |runs| - 1;
      assert all[..n] == runs[..n];
      assert Expand(all[n]) == Expand(runs[n]) + [a];
    } else {
      assert all[..|runs|] == runs;
      assert Expand(all[|runs|]) == [a];
    }
  }

  lemma {:induction false} CountOneMore(attrs: seq<Attr>, a: Attr)
    ensures RunCount(attrs + [a])
         == RunCount(attrs) + (if attrs != [] && Joins(attrs[|attrs| - 1], a) then 0 else 1)
  {
    assert (attrs + [a])[..|attrs|] == attrs;
  }

  /** Taking one more line keeps the runs exact and as long as they can be. */
  lemma {:induction false} JoinGroups(runs: seq<Run>, attrs: seq<Attr>, a: Attr)
    requires Grouped(runs, attrs)
    ensures Grouped(Joined(runs, a), attrs + [a])
  {
    LastLine(runs, attrs);
    JoinExpands(runs, a);
    CountOneMore(attrs, a);
    JoinLongest(runs, a);
  }

  lemma {:induction false} JoinLongest(runs: seq<Run>, a: Attr)
    requires Longest(runs)
    ensures Longest(Joined(runs, a))
  {
    var all := Joined(runs, a);
    forall k | 0 < k < |all|
      ensures Apart(all, k)
    {
      if k < |runs| {
        assert Apart(runs, k);
      }
    }
  }

  // ------------------------------------------------------------ the selected lines

  /** The records are the first of the expected lines, in order and byte for byte. */
  ghost predicate Covers(records: seq<Record>, expected: seq<seq<Byte>>, first: nat) {
    && |records| <= |expected|
    && forall i :: 0 <= i < |records| ==>
         records[i].text == Lines.Stripped(expected[i]) && records[i].attr.line == first + i
  }

  ghost predicate Affordable(records: seq<Record>) {
    RunCount(Attrs(records)) * RUN_BYTES <= HUNK_BYTES
  }

  /** The porcelain so far matches the lines so far. */
  ghost predicate Good(tokens: seq<Token>, expected: seq<seq<Byte>>, first: nat) {
    WellFormed(tokens) && Covers(Records(tokens), expected, first) && Affordable(Records(tokens))
  }

  /** When the blame succeeds: every selected line is attributed once, in order, with the
      very bytes selected, and the runs fit the staging budget. */
  ghost predicate Accepts(tokens: seq<Token>, expected: seq<seq<Byte>>, first: nat) {
    Good(tokens, expected, first) && Pending(tokens).None? && |Records(tokens)| == |expected|
  }

  lemma {:induction false} FewerRuns(attrs: seq<Attr>, k: nat)
    requires k <= |attrs|
    ensures RunCount(attrs[..k]) <= RunCount(attrs)
  {
    if k < |attrs| {
      FewerRuns(attrs[..|attrs| - 1], k);
      assert attrs[..|attrs| - 1][..k] == attrs[..k];
    } else {
      assert attrs[..k] == attrs;
    }
  }

  lemma {:induction false} GoodFront(tokens: seq<Token>, expected: seq<seq<Byte>>, first: nat)
    requires tokens != [] && Good(tokens, expected, first)
    ensures Good(tokens[..|tokens| - 1], expected, first)
  {
    var all, few := Records(tokens), Records(tokens[..|tokens| - 1]);
    assert |few| <= |all| && few == all[..|few|];
    FewerRecords(all, |few|, expected, first);
  }

  lemma {:induction false} FewerRecords(records: seq<Record>, k: nat, expected: seq<seq<Byte>>, first: nat)
    requires k <= |records| && Covers(records, expected, first) && Affordable(records)
    ensures Covers(records[..k], expected, first) && Affordable(records[..k])
  {
    AffordablePrefix(records, k);
    CoversPrefix(records, k, expected, first);
  }

  lemma {:induction false} AffordablePrefix(records: seq<Record>, k: nat)
    requires k <= |records| && Affordable(records)
    ensures Affordable(records[..k])
  {
    AttrsPrefix(records, k);
    FewerRuns(Attrs(records), k);
  }

  lemma {:induction false} AttrsPrefix(records: seq<Record>, k: nat)
    requires k <= |records|
    ensures Attrs(records[..k]) == Attrs(records)[..k]
  {
  }

  lemma {:induction false} CoversPrefix(records: seq<Record>, k: nat, expected: seq<seq<Byte>>, first: nat)
    requires k <= |records| && Covers(records, expected, first)
    ensures Covers(records[..k], expected, first)
  {
  }

  lemma {:induction false} GoodPrefix(tokens: seq<Token>, expected: seq<seq<Byte>>, first: nat, k: nat)
    requires k <= |tokens| && Good(tokens, expected, first)
    ensures Good(tokens[..k], expected, first)
  {
    if k == |tokens| {
      assert tokens[..k] == tokens;
    } else {
      GoodFront(tokens, expected, first);
      var front := tokens[..|tokens| - 1];
      GoodPrefix(front, expected, first, k);
      assert front[..k] == tokens[..k];
    }
  }

  lemma {:induction false} OneRecordMore(records: seq<Record>, r: Record, expected: seq<seq<Byte>>, first: nat)
    requires Covers(records, expected, first)
    ensures Covers(records + [r], expected, first) <==>
              var n := |records|;
              n < |expected| && r.text == Lines.Stripped(expected[n]) && r.attr.line == first + n
    ensures Attrs(records + [r]) == Attrs(records) + [r.attr]
  {
    var all, n := records + [r], |records|;
    assert all[n] == r;
    assert forall i :: 0 <= i < n ==> all[i] == records[i];
  }

  // ------------------------------------------------------------ the loop

  /** What the loop carries: the runs and what it has seen since the last source line. */
  datatype State = State(runs: seq<Run>, pending: Option<Header>, ignored: bool, unblamable: bool, seen: nat)

  ghost predicate Tracks(s: State, tokens: seq<Token>) {
    && WellFormed(tokens)
    && s.pending == Pending(tokens) && s.ignored == Marked(tokens, Ignored) && s.unblamable == Marked(tokens, Unblamable)
    && s.seen == |Records(tokens)| && Grouped(s.runs, Attrs(Records(tokens)))
  }

  /** One source line: checked against the next expected line, then joined or staged. */
  method TakeSource(s: State, text: seq<Byte>, expected: seq<seq<Byte>>, first: nat, ghost tokens: seq<Token>)
    returns (r: Result<State>)
    requires Tracks(s, tokens) && Good(tokens, expected, first)
    ensures r.Ok? <==> Good(tokens + [Source(text)], expected, first)
    ensures r.Ok? ==> Tracks(r.value, tokens + [Source(text)])
  {
    ghost var all := tokens + [Source(text)];
    assert all[..|tokens|] == tokens;
    if s.pending.None? {
      return Err;
    }
    var h := s.pending.value;
    var attr := Attr(h.commit, h.original, h.final_, s.ignored, s.unblamable);
    assert Records(all) == Records(tokens) + [Record(attr, text)];
    OneRecordMore(Records(tokens), Record(attr, text), expected, first);
    if s.seen == |expected| {
      return Err;
    }
    if text != Lines.Stripped(expected[s.seen]) || h.final_ != first + s.seen {
      return Err;
    }
    JoinGroups(s.runs, Attrs(Records(tokens)), attr);
    var runs := Joined(s.runs, attr);
    if |runs| * RUN_BYTES > HUNK_BYTES {
      return Err;
    }
    r := Ok(State(runs, None, false, false, s.seen + 1));
  }

  /** Any other line. */
  method TakeOther(s: State, token: Token, ghost expected: seq<seq<Byte>>, ghost first: nat, ghost tokens: seq<Token>)
    returns (r: Result<State>)
    requires Tracks(s, tokens) && Good(tokens, expected, first) && !token.Source?
    ensures r.Ok? <==> Good(tokens + [token], expected, first)
    ensures r.Ok? ==> Tracks(r.value, tokens + [token])
  {
    ghost var all := tokens + [token];
    assert all[..|tokens|] == tokens;
    match token
    case Ignored => r := Ok(s.(ignored := true));
    case Unblamable => r := Ok(s.(unblamable := true));
    case Head(h) => r := Ok(s.(pending := Some(h)));
    case Bad => r := Err;
    case Other => r := Ok(s);
  }

  ghost predicate OnTrack(s: State, tokens: seq<Token>, expected: seq<seq<Byte>>, first: nat) {
    Tracks(s, tokens) && Good(tokens, expected, first)
  }

  method Take(s: State, token: Token, expected: seq<seq<Byte>>, first: nat, ghost tokens: seq<Token>)
    returns (r: Result<State>)
    requires OnTrack(s, tokens, expected, first)
    ensures r.Ok? ==> OnTrack(r.value, tokens + [token], expected, first)
    ensures r.Err? ==> !Good(tokens + [token], expected, first)
  {
    if token.Source? {
      r := TakeSource(s, token.text, expected, first, tokens);
    } else {
      r := TakeOther(s, token, expected, first, tokens);
    }
  }

  lemma {:induction false} StartOnTrack(expected: seq<seq<Byte>>, first: nat)
    ensures OnTrack(State([], None, false, false, 0), [], expected, first)
  {
  }

  lemma {:induction false} EndOfTrack(s: State, tokens: seq<Token>, expected: seq<seq<Byte>>, first: nat)
    requires OnTrack(s, tokens, expected, first)
    ensures Accepts(tokens, expected, first) <==> s.seen == |expected| && s.pending.None?
    ensures Grouped(s.runs, Attrs(Records(tokens)))
  {
  }

  lemma {:induction false} NotGood(front: seq<Token>, rest: seq<Token>, expected: seq<seq<Byte>>, first: nat)
    requires !Good(front, expected, first)
    ensures !Good(front + rest, expected, first)
  {
    assert (front + rest)[..|front|] == front;
    if Good(front + rest, expected, first) {
      GoodPrefix(front + rest, expected, first, |front|);
    }
  }

  lemma {:induction false} CutAt(tokens: seq<Token>, i: nat)
    requires i < |tokens|
    ensures tokens[..i + 1] == tokens[..i] + [tokens[i]] && tokens == tokens[..i + 1] + tokens[i + 1..]
  {
  }

  /** The porcelain loop. */
  method ScanTokens(tokens: seq<Token>, expected: seq<seq<Byte>>, first: nat) returns (r: Result<State>)
    ensures r.Ok? ==> OnTrack(r.value, tokens, expected, first)
    ensures r.Err? ==> !Good(tokens, expected, first)
  {
    var s := State([], None, false, false, 0);
    StartOnTrack(expected, first);
    assert tokens[..0] == [];
    for i := 0 to |tokens|
      invariant OnTrack(s, tokens[..i], expected, first)
    {
      var next := Take(s, tokens[i], expected, first, tokens[..i]);
      CutAt(tokens, i);
      if next.Err? {
        NotGood(tokens[..i + 1], tokens[i + 1..], expected, first);
        return Err;
      }
      s := next.value;
    }
    assert tokens[..|tokens|] == tokens;
    r := Ok(s);
  }

  /** The blame succeeds exactly when the porcelain covers the expected lines, and its runs
      then stand for exactly the attributed lines. */
  method JoinRuns(tokens: seq<Token>, expected: seq<seq<Byte>>, first: nat) returns (r: Result<seq<Run>>)
    ensures r.Ok? <==> Accepts(tokens, expected, first)
    ensures r.Ok? ==> Grouped(r.value, Attrs(Records(tokens)))
  {
    var s := ScanTokens(tokens, expected, first);
    if s.Err? {
      return Err;
    }
    EndOfTrack(s.value, tokens, expected, first);
    if s.value.seen != |expected| || s.value.pending.Some? {
      return Err;
    }
    r := Ok(s.value.runs);
  }

  // ------------------------------------------------------------ the whole blame

  /** The selected lines: `skip(first - 1).take(count)` of the file's lines. */
  function Selected(bytes: seq<Byte>, start: nat, end: nat): seq<seq<Byte>> {
    var (first, last) := SourceSpan.LineSpan(bytes, start, end);
    var lines := Lines.Split(bytes);
    var count := if start >= end || last < first then 0 else last - first + 1;
    var rest := if first - 1 <= |lines| then lines[first - 1..] else [];
    if count <= |rest| then rest[..count] else rest
  }

  lemma {:induction false} BreaksShift(bytes: seq<Byte>, n: nat, k: nat)
    requires n + k <= |bytes|
    ensures SourceSpan.Breaks(bytes, n + k) == SourceSpan.Breaks(bytes, n) + SourceSpan.Breaks(bytes[n..], k)
  {
    if k > 0 {
      BreaksShift(bytes, n, k - 1);
    }
  }

  /** Newlines, and one more when the last line has none. */
  function LinesIn(bytes: seq<Byte>): nat {
    SourceSpan.Breaks(bytes, |bytes|) + if bytes != [] && bytes[|bytes| - 1] != NEWLINE then 1 else 0
  }

  lemma {:induction false} LinesInTail(bytes: seq<Byte>, n: nat)
    requires bytes != [] && n == Lines.FirstEnd(bytes)
    ensures LinesIn(bytes) == 1 + LinesIn(bytes[n..])
  {
    BreaksShift(bytes, n, |bytes| - n);
    FirstLineBreaks(bytes, n);
    LastOfTail(bytes, n);
  }

  /** A file has a line for each newline, and one more when it does not end in one. */
  lemma {:induction false} LineCount(bytes: seq<Byte>)
    ensures |Lines.Split(bytes)| == LinesIn(bytes)
    decreases |bytes|
  {
    if bytes != [] {
      var n := Lines.FirstEnd(bytes);
      LineCount(bytes[n..]);
      Lines.SplitUnfolds(bytes);
      LinesInTail(bytes, n);
    }
  }

  lemma {:induction false} FirstLineBreaks(bytes: seq<Byte>, n: nat)
    requires bytes != [] && n == Lines.FirstEnd(bytes)
    ensures 0 < n <= |bytes| && SourceSpan.Breaks(bytes, n) == if bytes[n - 1] == NEWLINE then 1 else 0
    ensures n < |bytes| ==> bytes[n - 1] == NEWLINE
  {
    SourceSpan.BreaksFlat(bytes, 0, n - 1);
  }

  lemma {:induction false} LastOfTail(bytes: seq<Byte>, n: nat)
    requires n <= |bytes|
    ensures n < |bytes| ==> bytes[n..] != [] && bytes[n..][|bytes| - n - 1] == bytes[|bytes| - 1]
  {
  }

  lemma {:induction false} SpanInFile(bytes: seq<Byte>, start: nat, end: nat)
    requires start < end <= |bytes|
    ensures var (first, last) := SourceSpan.LineSpan(bytes, start, end);
            1 <= first <= last <= |Lines.Split(bytes)|
  {
    SourceSpan.BreaksGrow(bytes, start, end - 1);
    SourceSpan.BreaksGrow(bytes, end - 1, |bytes| - 1);
    LineCount(bytes);
  }

  lemma {:induction false} SkipTake(lines: seq<seq<Byte>>, a: nat, b: nat)
    requires a <= b <= |lines|
    ensures |lines[a..]| >= b - a && lines[a..][..b - a] == lines[a..b]
  {
  }

  /** Every line of a nonempty span is among the file's lines, so all are selected. */
  lemma {:induction false} SelectsTheSpan(bytes: seq<Byte>, start: nat, end: nat)
    requires start < end <= |bytes|
    ensures var (first, last) := SourceSpan.LineSpan(bytes, start, end);
            && 1 <= first <= last <= |Lines.Split(bytes)|
            && Selected(bytes, start, end) == Lines.Split(bytes)[first - 1..last]
  {
    SpanInFile(bytes, start, end);
    var (first, last) := SourceSpan.LineSpan(bytes, start, end);
    SkipTake(Lines.Split(bytes), first - 1, last);
  }

  function Tokens(lines: seq<seq<Byte>>, parse: seq<Byte> -> Parsed): (r: seq<Token>)
    ensures |r| == |lines| && forall i :: 0 <= i < |r| ==> r[i] == Classify(lines[i], parse)
  {
    seq(|lines|, i requires 0 <= i < |lines| => Classify(lines[i], parse))
  }

  lemma {:induction false} ExpandPrefix(runs: seq<Run>, k: nat)
    requires k <= |runs|
    ensures ExpandAll(runs[..k]) <= ExpandAll(runs)
  {
    if k == |runs| {
      assert runs[..k] == runs;
    } else {
      var front := runs[..|runs| - 1];
      ExpandPrefix(front, k);
      assert front[..k] == runs[..k];
    }
  }

  // ------------------------------------------------------------ what Git writes

  /** One record of the porcelain: a header line, lines about the commit, and the record. */
  datatype Written = Written(head: seq<Byte>, about: seq<seq<Byte>>, record: Record)

  /** Neither a source line nor a mark. */
  predicate IsText(line: seq<Byte>) {
    !(line != [] && line[0] == 9) && line != IGNORED && line != UNBLAMABLE
  }

  ghost predicate Proper(w: Written, parse: seq<Byte> -> Parsed) {
    && IsText(w.head)
    && parse(w.head) == Opens(Header(w.record.attr.commit, w.record.attr.original, w.record.attr.line))
    && forall i :: 0 <= i < |w.about| ==> IsText(w.about[i]) && parse(w.about[i]) == Plain
  }

  /** The lines Git writes for a record. */
  function LinesOf(w: Written): seq<seq<Byte>> {
    [w.head] + w.about + (if w.record.attr.ignored then [IGNORED] else [])
    + (if w.record.attr.unblamable then [UNBLAMABLE] else []) + [[9] + w.record.text]
  }

  function Porcelain(ws: seq<Written>): seq<seq<Byte>> {
    if ws == [] then [] else Porcelain(ws[..|ws| - 1]) + LinesOf(ws[|ws| - 1])
  }

  function RecordsIn(ws: seq<Written>): seq<Record> {
    seq(|ws|, i requires 0 <= i < |ws| => ws[i].record)
  }

  /** Where the reading of tokens stands. */
  ghost predicate Stands(tokens: seq<Token>, pending: Option<Header>, ignored: bool, unblamable: bool, records: seq<Record>) {
    && WellFormed(tokens) && Pending(tokens) == pending && Records(tokens) == records
    && Marked(tokens, Ignored) == ignored && Marked(tokens, Unblamable) == unblamable
  }

  lemma {:induction false} ReadOneMore(
    tokens: seq<Token>, t: Token, pending: Option<Header>, ignored: bool, unblamable: bool, records: seq<Record>)
    requires Stands(tokens, pending, ignored, unblamable, records)
    ensures t.Head? ==> Stands(tokens + [t], Some(t.header), ignored, unblamable, records)
    ensures t == Other ==> Stands(tokens + [t], pending, ignored, unblamable, records)
    ensures t == Ignored ==> Stands(tokens + [t], pending, true, unblamable, records)
    ensures t == Unblamable ==> Stands(tokens + [t], pending, ignored, true, records)
    ensures t.Source? && pending.Some? ==>
              var h := pending.value;
              Stands(tokens + [t], None, false, false,
                     records + [Record(Attr(h.commit, h.original, h.final_, ignored, unblamable), t.text)])
  {
    assert (tokens + [t])[..|tokens|] == tokens;
  }

  function Others(n: nat): (r: seq<Token>)
    ensures |r| == n && forall i :: 0 <= i < n ==> r[i] == Other
  {
    seq(n, i => Other)
  }

  lemma {:induction false} ReadOthers(tokens: seq<Token>, n: nat, pending: Option<Header>, records: seq<Record>)
    requires Stands(tokens, pending, false, false, records)
    ensures Stands(tokens + Others(n), pending, false, false, records)
    decreases n
  {
    if n == 0 {
      assert tokens + Others(n) == tokens;
    } else {
      ReadOthers(tokens, n - 1, pending, records);
      var front := tokens + Others(n - 1);
      ReadOneMore(front, Other, pending, false, false, records);
      assert tokens + Others(n) == front + [Other];
    }
  }

  lemma {:induction false} ReadMarks(tokens: seq<Token>, pending: Option<Header>, records: seq<Record>, a: bool, b: bool)
    requires Stands(tokens, pending, false, false, records)
    ensures Stands(tokens + (if a then [Ignored] else []) + (if b then [Unblamable] else []), pending, a, b, records)
  {
    var next := tokens + if a then [Ignored] else [];
    if a {
      ReadOneMore(tokens, Ignored, pending, false, false, records);
    } else {
      assert next == tokens;
    }
    if b {
      ReadOneMore(next, Unblamable, pending, a, false, records);
    } else {
      assert next + [] == next;
    }
  }

  function TokensOf(w: Written): seq<Token> {
    [Head(Header(w.record.attr.commit, w.record.attr.original, w.record.attr.line))] + Others(|w.about|)
    + (if w.record.attr.ignored then [Ignored] else [])
    + (if w.record.attr.unblamable then [Unblamable] else []) + [Source(w.record.text)]
  }

  lemma {:induction false} ReadWritten(tokens: seq<Token>, w: Written, records: seq<Record>)
    requires Stands(tokens, None, false, false, records)
    ensures Stands(tokens + TokensOf(w), None, false, false, records + [w.record])
  {
    var a := w.record.attr;
    var h := Header(a.commit, a.original, a.line);
    var t1 := tokens + [Head(h)];
    ReadOneMore(tokens, Head(h), None, false, false, records);
    var t2 := t1 + Others(|w.about|);
    ReadOthers(t1, |w.about|, Some(h), records);
    var t3 := t2 + (if a.ignored then [Ignored] else []) + (if a.unblamable then [Unblamable] else []);
    ReadMarks(t2, Some(h), records, a.ignored, a.unblamable);
    ReadOneMore(t3, Source(w.record.text), Some(h), a.ignored, a.unblamable, records);
    Regroup(tokens, [Head(h)], Others(|w.about|), if a.ignored then [Ignored] else [],
            if a.unblamable then [Unblamable] else [], [Source(w.record.text)]);
  }

  lemma {:induction false} Regroup<T>(a: seq<T>, b: seq<T>, c: seq<T>, d: seq<T>, e: seq<T>, f: seq<T>)
    ensures a + (b + c + d + e + f) == a + b + c + d + e + f
  {
  }

  lemma {:induction false} TokensJoin(a: seq<seq<Byte>>, b: seq<seq<Byte>>, parse: seq<Byte> -> Parsed)
    ensures Tokens(a + b, parse) == Tokens(a, parse) + Tokens(b, parse)
  {
  }

  lemma {:induction false} LinesClassify(w: Written, parse: seq<Byte> -> Parsed)
    requires Proper(w, parse)
    ensures Tokens(LinesOf(w), parse) == TokensOf(w)
  {
    var a := w.record.attr;
    var marks1: seq<seq<Byte>> := if a.ignored then [IGNORED] else [];
    var marks2: seq<seq<Byte>> := if a.unblamable then [UNBLAMABLE] else [];
    var last := [[9] + w.record.text];
    assert Classify([9] + w.record.text, parse) == Source(w.record.text) by {
      assert ([9] + w.record.text)[1..] == w.record.text;
    }
    MarksClassify(a.ignored, a.unblamable, parse);
    assert Tokens(w.about, parse) == Others(|w.about|);
    assert Tokens([w.head], parse) == [Head(Header(a.commit, a.original, a.line))];
    assert Tokens(last, parse) == [Source(w.record.text)];
    TokensJoin([w.head] + w.about + marks1 + marks2, last, parse);
    TokensJoin([w.head] + w.about + marks1, marks2, parse);
    TokensJoin([w.head] + w.about, marks1, parse);
    TokensJoin([w.head], w.about, parse);
  }

  lemma {:induction false} MarksClassify(a: bool, b: bool, parse: seq<Byte> -> Parsed)
    ensures Tokens(if a then [IGNORED] else [], parse) == if a then [Ignored] else []
    ensures Tokens(if b then [UNBLAMABLE] else [], parse) == if b then [Unblamable] else []
  {
    assert IGNORED[0] == 105 && UNBLAMABLE[0] == 117;
  }

  lemma {:induction false} PorcelainStands(ws: seq<Written>, parse: seq<Byte> -> Parsed)
    requires forall i :: 0 <= i < |ws| ==> Proper(ws[i], parse)
    ensures Stands(Tokens(Porcelain(ws), parse), None, false, false, RecordsIn(ws))
  {
    if ws != [] {
      var n := |ws| - 1;
      PorcelainStands(ws[..n], parse);
      StandsAfter(Porcelain(ws[..n]), ws[n], parse, RecordsIn(ws[..n]));
      LastRecord(ws);
    }
  }

  lemma {:induction false} StandsAfter(front: seq<seq<Byte>>, w: Written, parse: seq<Byte> -> Parsed, records: seq<Record>)
    requires Proper(w, parse) && Stands(Tokens(front, parse), None, false, false, records)
    ensures Stands(Tokens(front + LinesOf(w), parse), None, false, false, records + [w.record])
  {
    LinesClassify(w, parse);
    TokensJoin(front, LinesOf(w), parse);
    ReadWritten(Tokens(front, parse), w, records);
  }

  lemma {:induction false} LastRecord(ws: seq<Written>)
    requires ws != []
    ensures RecordsIn(ws) == RecordsIn(ws[..|ws| - 1]) + [ws[|ws| - 1].record]
  {
  }

  /** The porcelain reads back: what Git writes for some records, with any lines about their
      commits in between, is read as exactly those records. */
  lemma {:induction false} PorcelainReadsBack(ws: seq<Written>, parse: seq<Byte> -> Parsed)
    requires forall i :: 0 <= i < |ws| ==> Proper(ws[i], parse)
    ensures var tokens := Tokens(Porcelain(ws), parse);
            WellFormed(tokens) && Pending(tokens).None? && Records(tokens) == RecordsIn(ws)
  {
    PorcelainStands(ws, parse);
  }

  /** A header line with a bad number fails the whole blame. */
  lemma {:induction false} BadNumberRefused(
    porcelain: seq<seq<Byte>>, parse: seq<Byte> -> Parsed, i: nat, expected: seq<seq<Byte>>, first: nat)
    requires i < |porcelain| && IsText(porcelain[i]) && parse(porcelain[i]) == BadNumber
    ensures !Accepts(Tokens(porcelain, parse), expected, first)
  {
    var tokens := Tokens(porcelain, parse);
    assert tokens[i] == Bad;
    BadIsMalformed(tokens, i);
  }

  lemma {:induction false} BadIsMalformed(tokens: seq<Token>, i: nat)
    requires i < |tokens| && tokens[i] == Bad
    ensures !WellFormed(tokens)
  {
    if i < |tokens| - 1 {
      BadIsMalformed(tokens[..|tokens| - 1], i);
    }
  }

  datatype Answer = Shown(runs: seq<Run>, total: nat) | Unavailable | TooSmall

  /** What an answer says about the records: its runs stand for their first lines, and for
      all of them when none was dropped. */
  ghost predicate Describes(a: Answer, attrs: seq<Attr>)
    requires a.Shown?
  {
    && ExpandAll(a.runs) <= attrs && |a.runs| <= a.total == RunCount(attrs)
    && (|a.runs| == a.total ==> ExpandAll(a.runs) == attrs)
    && (a.runs != [] || a.total == 0)
  }

  /** `blame` on given porcelain lines: checks and joins them, then drops trailing runs until
      the response fits. */
  method Attribute(
    bytes: seq<Byte>, start: nat, end: nat, porcelain: seq<seq<Byte>>,
    parse: seq<Byte> -> Parsed, fits: nat -> Result<bool>)
    returns (r: Answer)
    ensures !r.Unavailable? ==>
              Accepts(Tokens(porcelain, parse), Selected(bytes, start, end), SourceSpan.LineSpan(bytes, start, end).0)
    ensures r.Unavailable? ==>
              || !Accepts(Tokens(porcelain, parse), Selected(bytes, start, end), SourceSpan.LineSpan(bytes, start, end).0)
              || exists k: nat :: k <= RunCount(Attrs(Records(Tokens(porcelain, parse)))) && fits(k).Err?
    ensures r.Shown? ==>
              && Describes(r, Attrs(Records(Tokens(porcelain, parse)))) && fits(|r.runs|) == Ok(true)
              && forall k: nat :: |r.runs| < k <= r.total ==> fits(k) == Ok(false)
    ensures r.TooSmall? ==>
              var total := RunCount(Attrs(Records(Tokens(porcelain, parse))));
              forall k: nat :: k <= total && (k > 0 || total == 0) ==> fits(k) == Ok(false)
  {
    var tokens := Tokens(porcelain, parse);
    var expected := Selected(bytes, start, end);
    var runs := JoinRuns(tokens, expected, SourceSpan.LineSpan(bytes, start, end).0);
    if runs.Err? {
      return Unavailable;
    }
    var total := |runs.value|;
    var kept := SourceRead.DropRows(total, total == 0, fits);
    if kept.Err? {
      return Unavailable;
    }
    if kept.value.None? {
      return TooSmall;
    }
    var shown := runs.value[..kept.value.value];
    ExpandPrefix(runs.value, |shown|);
    assert |shown| == total ==> shown == runs.value;
    r := Shown(shown, total);
  }
}
