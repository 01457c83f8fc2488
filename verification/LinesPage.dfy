/** The `lines` rendering of a result page (src/results/lines.rs) and the reader
    that finds the handles in it again (src/output/lines.rs). */
module LinesPage {
  import opened Basics
  import opened Text
  import opened Identity

  datatype Snippet = Snippet(line: nat, text: string)

  datatype Entry =
    | Live(handle: string, path: string, startLine: nat, endLine: nat, name: string,
           resolution: Option<string>, repeats: Option<nat>, snippet: Option<Snippet>, regex: bool)
    | CommitEntry(handle: string, commit: string, summary: string)
    | ChangeEntry(handle: string, status: string, path: string, name: string)

  datatype Detail = Detail(names: bool, snippets: bool)

  const COVERAGE_KEY := "coverage: "
  const NEXT_KEY := "next: "
  const HINT_KEY := "hint: "
  const TRUNCATED_LINE := "truncated: true"
  const TIMES := '\U{00D7}'
  const NAME_LIMIT := 96

  datatype Next = Next(verb: string, cursor: string, hint: Option<string>)

  // ------------------------------------------------------------ rendering

  predicate ConciseName(name: string) {
    name != "" && |name| <= NAME_LIMIT
  }

  function Prefix(member: Option<string>): string {
    if member.Some? then member.value + "/" else ""
  }

  /** The part of a text before its first line break, as `lines().next()` gives it. */
  function FirstLine(s: string): string {
    if s == "" then "" else HeadLine(s)
  }

  function HeadLine(s: string): string {
    var n := First(s, '\n');
    if n < |s| && n > 0 && s[n - 1] == '\r' then s[..n - 1] else s[..n]
  }

  /** The optional fields after a live hit's location. */
  function LiveFields(e: Entry, detail: Detail): string
    requires e.Live?
  {
    var previewed := detail.snippets && e.snippet.Some? && e.regex;
    Concat([
      if detail.names && ConciseName(e.name) && e.name != e.path && !previewed then "\t" + e.name else "",
      if e.resolution.Some? then "\tresolution=" + e.resolution.value else "",
      if e.repeats.Some? then "\t" + ([TIMES] + Decimal(e.repeats.value)) else ""])
  }

  /** What follows the handle on an entry's first line. */
  function Fields(e: Entry, member: Option<string>, detail: Detail): string {
    match e
    case Live(_, path, first, last, _, _, _, _, _) =>
      Concat([Prefix(member), path, ":", Decimal(first), "-", Decimal(last), LiveFields(e, detail)])
    case CommitEntry(_, commit, summary) => Concat(["commit:", commit, "\t", FirstLine(summary)])
    case ChangeEntry(_, status, path, name) =>
      Concat(["change:", status, "\t", Prefix(member), path, "\t", name])
  }

  /** The indented preview line of a live hit. */
  function Preview(e: Entry, detail: Detail): Option<string> {
    if e.Live? && detail.snippets && e.snippet.Some? then
      Some("  " + (Decimal(e.snippet.value.line) + ": " + e.snippet.value.text))
    else None
  }

  function EntryLine(e: Entry, member: Option<string>, detail: Detail): string {
    var line := e.handle + "\t" + Fields(e, member, detail);
    var preview := Preview(e, detail);
    if preview.Some? then line + "\n" + preview.value else line
  }

  function Footer(next: Option<Next>, truncated: bool): string {
    (if next.Some? then
       NEXT_KEY + next.value.verb + " " + next.value.cursor + "\n"
       + (if next.value.hint.Some? then HINT_KEY + next.value.hint.value + "\n" else "")
     else "")
    + (if truncated then TRUNCATED_LINE + "\n" else "")
  }

  datatype Shown = Shown(member: Option<string>, entry: Entry)

  function EntriesText(entries: seq<Shown>, detail: Detail): string {
    if entries == [] then ""
    else
      var n := |entries| - 1;
      EntriesText(entries[..n], detail) + EntryLine(entries[n].entry, entries[n].member, detail) + "\n"
  }

  /** Renders a page: the entries, the coverage line, then the footer. */
  method PageText(entries: seq<Shown>, detail: Detail, coverage: string, next: Option<Next>, truncated: bool)
    returns (out: string)
    ensures (forall k :: 0 <= k < |entries| ==> Readable(entries[k])) ==> EmittedHandles(out) == Handles(entries)
    ensures out == EntriesText(entries, detail) + COVERAGE_KEY + coverage + "\n" + Footer(next, truncated)
  {
    out := "";
    for k := 0 to |entries|
      invariant out == EntriesText(entries[..k], detail)
    {
      assert entries[..k + 1][..k] == entries[..k];
      out := out + EntryLine(entries[k].entry, entries[k].member, detail);
      out := out + "\n";
    }
    assert entries[..|entries|] == entries;
    var footer := Footer(next, truncated);
    out := out + COVERAGE_KEY;
    out := out + coverage;
    out := out + "\n";
    out := out + footer;
    Regroup5(EntriesText(entries, detail), COVERAGE_KEY, coverage, "\n", footer);
    Regroup(EntriesText(entries, detail), COVERAGE_KEY, coverage + "\n" + footer);
    if forall k :: 0 <= k < |entries| ==> Readable(entries[k]) {
      PageEmitsHandles(entries, detail, coverage + "\n" + footer);
    }
  }

  // ------------------------------------------------------------ reading back

  /** `str::lines` */
  function TextLines(s: string): seq<string>
    decreases |s|
  {
    if s == "" then []
    else
      var n := First(s, '\n');
      [HeadLine(s)] + TextLines(if n < |s| then s[n + 1..] else "")
  }

  function Field(line: string): string {
    line[..First(line, '\t')]
  }

  /** The handles of lines before the coverage line. */
  function HandlesIn(lines: seq<string>): seq<string> {
    if lines == [] || COVERAGE_KEY <= lines[0] then []
    else (if ParseHandle(Field(lines[0])).Some? then [Field(lines[0])] else []) + HandlesIn(lines[1..])
  }

  /** `emitted_handles` */
  function EmittedHandles(text: string): seq<string> {
    HandlesIn(TextLines(text))
  }

  function Handles(entries: seq<Shown>): seq<string> {
    seq(|entries|, k requires 0 <= k < |entries| => entries[k].entry.handle)
  }

  predicate NoBreak(s: string) {
    forall i :: 0 <= i < |s| ==> s[i] != '\n'
  }

  /** No printed field holds a line break; a commit summary may. */
  predicate Unbroken(shown: Shown) {
    && (shown.member.Some? ==> NoBreak(shown.member.value))
    && match shown.entry
       case Live(_, path, _, _, name, resolution, _, snippet, _) =>
         && NoBreak(path) && NoBreak(name) && (resolution.Some? ==> NoBreak(resolution.value))
         && (snippet.Some? ==> NoBreak(snippet.value.text))
       case CommitEntry(_, commit, _) => NoBreak(commit)
       case ChangeEntry(_, status, path, name) => NoBreak(status) && NoBreak(path) && NoBreak(name)
  }

  /** The entry has a real handle and no printed field holds a line break. */
  predicate Readable(shown: Shown) {
    ParseHandle(shown.entry.handle).Some? && Unbroken(shown)
  }

  lemma {:induction false} Assoc<T>(a: seq<T>, b: seq<T>, c: seq<T>)
    ensures a + (b + c) == a + b + c
  {
  }

  lemma {:induction false} NoBreakJoins(a: string, b: string)
    ensures NoBreak(a + b) <==> NoBreak(a) && NoBreak(b)
  {
    assert forall i :: 0 <= i < |a| ==> (a + b)[i] == a[i];
    assert forall i :: 0 <= i < |b| ==> (a + b)[|a| + i] == b[i];
  }

  lemma {:induction false} NoBreakConcat(parts: seq<string>)
    requires forall k :: 0 <= k < |parts| ==> NoBreak(parts[k])
    ensures NoBreak(Concat(parts))
  {
    if parts != [] {
      NoBreakConcat(parts[1..]);
      NoBreakJoins(parts[0], Concat(parts[1..]));
    }
  }

  lemma {:induction false} LiveFieldsUnbroken(e: Entry, detail: Detail)
    requires e.Live? && NoBreak(e.name) && (e.resolution.Some? ==> NoBreak(e.resolution.value))
    ensures NoBreak(LiveFields(e, detail))
  {
    var previewed := detail.snippets && e.snippet.Some? && e.regex;
    var name := if detail.names && ConciseName(e.name) && e.name != e.path && !previewed then "\t" + e.name else "";
    var resolution := if e.resolution.Some? then "\tresolution=" + e.resolution.value else "";
    var repeats := if e.repeats.Some? then "\t" + ([TIMES] + Decimal(e.repeats.value)) else "";
    NoBreakConcat([name, resolution, repeats]);
  }

  lemma {:induction false} FieldsUnbroken(shown: Shown, detail: Detail)
    requires Unbroken(shown)
    ensures NoBreak(Fields(shown.entry, shown.member, detail))
  {
    var prefix := Prefix(shown.member);
    assert NoBreak(prefix);
    match shown.entry {
      case Live(_, path, first, last, _, _, _, _, _) =>
        var fields := LiveFields(shown.entry, detail);
        LiveFieldsUnbroken(shown.entry, detail);
        NoBreakConcat([prefix, path, ":", Decimal(first), "-", Decimal(last), fields]);
      case CommitEntry(_, commit, summary) =>
        NoBreakConcat(["commit:", commit, "\t", FirstLine(summary)]);
      case ChangeEntry(_, status, path, name) =>
        NoBreakConcat(["change:", status, "\t", prefix, path, "\t", name]);
    }
  }

  /** One rendered row and its break read back as one line. */
  lemma {:induction false} RowReadsBack(row: string, rest: string)
    requires NoBreak(row)
    ensures TextLines(row + "\n" + rest) == [HeadLine(row + "\n" + rest)] + TextLines(rest)
    ensures var line := HeadLine(row + "\n" + rest);
            line == row || (row != "" && row[|row| - 1] == '\r' && line == row[..|row| - 1])
  {
    var s := row + "\n" + rest;
    assert First(s, '\n') == |row| by {
      assert s[|row|] == '\n';
      assert forall k :: 0 <= k < |row| ==> s[k] == row[k];
    }
    assert s[|row| + 1..] == rest;
  }

  /** A row that starts with a handle and a tab yields that handle. */
  lemma {:induction false} HandleRow(handle: string, fields: string, rest: string)
    requires ParseHandle(handle).Some? && NoBreak(fields)
    ensures EmittedHandles(handle + "\t" + fields + "\n" + rest) == [handle] + EmittedHandles(rest)
  {
    var row := handle + "\t" + fields;
    forall i | 0 <= i < |handle|
      ensures handle[i] != '\n' && handle[i] != '\t' && handle[i] != ' '
    {
      HandleChars(handle, i);
    }
    NoBreakJoins(handle, "\t");
    NoBreakJoins(handle + "\t", fields);
    RowReadsBack(row, rest);
    var line := HeadLine(row + "\n" + rest);
    FieldOf(handle, line);
    HandlesAfter(line, TextLines(rest));
  }

  lemma {:induction false} FieldOf(handle: string, line: string)
    requires ParseHandle(handle).Some?
    requires forall i :: 0 <= i < |handle| ==> handle[i] != '\t'
    requires handle + "\t" <= line
    ensures Field(line) == handle && !(COVERAGE_KEY <= line)
  {
    assert forall i :: 0 <= i < |handle| ==> line[i] == handle[i];
    assert line[|handle|] == '\t';
    HandleLongEnough(handle);
    HandleChars(handle, 1);
    assert COVERAGE_KEY[1] == 'o';
  }

  lemma {:induction false} HandleLongEnough(handle: string)
    requires ParseHandle(handle).Some?
    ensures |handle| > 32
  {
  }

  lemma {:induction false} IndentedLine(line: string)
    requires line != "" && line[0] == ' '
    ensures ParseHandle(Field(line)).None? && !(COVERAGE_KEY <= line)
  {
    assert COVERAGE_KEY[0] == 'c';
    var field := Field(line);
    assert field != "" && field[0] == ' ';
    if ParseHandle(field).Some? {
      HandleChars(field, 0);
    }
  }

  lemma {:induction false} HandlesAfter(line: string, lines: seq<string>)
    requires !(COVERAGE_KEY <= line)
    ensures HandlesIn([line] + lines)
            == (if ParseHandle(Field(line)).Some? then [Field(line)] else []) + HandlesIn(lines)
  {
    assert ([line] + lines)[1..] == lines;
  }

  /** An indented row yields nothing. */
  lemma {:induction false} PreviewRow(text: string, rest: string)
    requires NoBreak(text)
    ensures EmittedHandles("  " + text + "\n" + rest) == EmittedHandles(rest)
  {
    var row := "  " + text;
    NoBreakJoins("  ", text);
    RowReadsBack(row, rest);
    var line := HeadLine(row + "\n" + rest);
    assert row[0] == ' ' && row[1] == ' ';
    IndentedLine(line);
    HandlesAfter(line, TextLines(rest));
  }

  /** One entry, however it is rendered, yields its handle and nothing else. */
  lemma {:induction false} EntryEmits(shown: Shown, detail: Detail, rest: string)
    requires Readable(shown)
    ensures EmittedHandles(EntryLine(shown.entry, shown.member, detail) + "\n" + rest)
            == [shown.entry.handle] + EmittedHandles(rest)
  {
    var e := shown.entry;
    var fields := Fields(e, shown.member, detail);
    var line := e.handle + "\t" + fields;
    var preview := Preview(e, detail);
    FieldsUnbroken(shown, detail);
    if preview.Some? {
      var text := Decimal(e.snippet.value.line) + ": " + e.snippet.value.text;
      PreviewRow(text, rest);
      HandleRow(e.handle, fields, "  " + text + "\n" + rest);
      Regroup5(line, "\n", "  " + text, "\n", rest);
    } else {
      HandleRow(e.handle, fields, rest);
    }
  }

  lemma {:induction false} Regroup5(a: string, b: string, c: string, d: string, e: string)
    ensures a + b + c + d + e == a + b + (c + d + e)
  {
  }

  lemma {:induction false} EntriesEmit(entries: seq<Shown>, detail: Detail, rest: string)
    requires forall k :: 0 <= k < |entries| ==> Readable(entries[k])
    ensures EmittedHandles(EntriesText(entries, detail) + rest) == Handles(entries) + EmittedHandles(rest)
  {
    if entries == [] {
      assert EntriesText(entries, detail) + rest == rest;
    } else {
      var n := |entries| - 1;
      var line := EntryLine(entries[n].entry, entries[n].member, detail);
      assert Readable(entries[n]);
      EntryEmits(entries[n], detail, rest);
      EntriesEmit(entries[..n], detail, line + "\n" + rest);
      Regroup4(EntriesText(entries[..n], detail), line, "\n", rest);
      assert EntriesText(entries, detail) == EntriesText(entries[..n], detail) + line + "\n";
      HandlesSplit(entries, n);
      Assoc(Handles(entries[..n]), [entries[n].entry.handle], EmittedHandles(rest));
    }
  }

  lemma {:induction false} HandlesSplit(entries: seq<Shown>, n: nat)
    requires |entries| == n + 1
    ensures Handles(entries) == Handles(entries[..n]) + [entries[n].entry.handle]
  {
  }

  lemma {:induction false} CoverageEnds(tail: string)
    ensures EmittedHandles(COVERAGE_KEY + tail) == []
  {
    var s := COVERAGE_KEY + tail;
    assert forall i :: 0 <= i < |COVERAGE_KEY| ==> s[i] == COVERAGE_KEY[i];
    assert COVERAGE_KEY <= HeadLine(s);
  }

  /** A page's handles read back exactly, in order: snippet lines, the coverage text
      and the footer yield none, and no entry is skipped. */
  lemma {:induction false} PageEmitsHandles(entries: seq<Shown>, detail: Detail, tail: string)
    requires forall k :: 0 <= k < |entries| ==> Readable(entries[k])
    ensures EmittedHandles(EntriesText(entries, detail) + (COVERAGE_KEY + tail)) == Handles(entries)
  {
    CoverageEnds(tail);
    EntriesEmit(entries, detail, COVERAGE_KEY + tail);
  }

  // ------------------------------------------------------------ exactly when an entry reads back

  function Chomp(row: string): string {
    if row != "" && row[|row| - 1] == '\r' then row[..|row| - 1] else row
  }

  lemma {:induction false} RowHead(row: string, rest: string)
    requires NoBreak(row)
    ensures TextLines(row + "\n" + rest) == [Chomp(row)] + TextLines(rest)
  {
    RowReadsBack(row, rest);
    var s := row + "\n" + rest;
    assert s[|row|] == '\n';
    assert forall k :: 0 <= k < |row| ==> s[k] == row[k];
    assert First(s, '\n') == |row|;
    assert s[..|row|] == row;
    assert row != "" ==> s[..|row| - 1] == row[..|row| - 1];
  }

  lemma {:induction false} Regroup3Breaks(row: string, more: string, rest: string)
    ensures row + "\n" + more + "\n" + rest == row + "\n" + (more + "\n" + rest)
    ensures row + "\n" + more + "\n" == row + "\n" + (more + "\n")
  {
  }

  /** A text is its first row, alone or followed by a break and the rest. */
  lemma {:induction false} FirstRow(text: string) returns (row: string, more: Option<string>)
    ensures NoBreak(row) && |row| == First(text, '\n')
    ensures text == if more.Some? then row + "\n" + more.value else row
    ensures more.Some? ==> |more.value| < |text|
  {
    var n := First(text, '\n');
    row := text[..n];
    more := if n < |text| then Some(text[n + 1..]) else None;
  }

  /** Lines that end in a break do not run into what follows. */
  lemma {:induction false} LinesSplit(text: string, rest: string)
    ensures TextLines(text + "\n" + rest) == TextLines(text + "\n") + TextLines(rest)
    decreases |text|
  {
    var row, more := FirstRow(text);
    if more.None? {
      RowHead(row, rest);
      RowAlone(row);
    } else {
      LinesSplit(more.value, rest);
      SplitAfterRow(row, more.value, rest);
    }
  }

  lemma {:induction false} SplitAfterRow(row: string, more: string, rest: string)
    requires NoBreak(row)
    requires TextLines(more + "\n" + rest) == TextLines(more + "\n") + TextLines(rest)
    ensures TextLines(row + "\n" + more + "\n" + rest) == TextLines(row + "\n" + more + "\n") + TextLines(rest)
  {
    var a, b := more + "\n" + rest, more + "\n";
    Regroup3Breaks(row, more, rest);
    RowHead(row, a);
    RowHead(row, b);
    Assoc([Chomp(row)], TextLines(b), TextLines(rest));
  }

  lemma {:induction false} RowAlone(row: string)
    requires NoBreak(row)
    ensures TextLines(row + "\n") == [Chomp(row)]
  {
    RowHead(row, "");
    assert row + "\n" + "" == row + "\n";
  }

  predicate Ends(line: string) {
    COVERAGE_KEY <= line
  }

  /** The line neither carries a handle nor ends the page. */
  predicate Quiet(line: string) {
    !Ends(line) && ParseHandle(Field(line)).None?
  }

  predicate AllQuiet(lines: seq<string>) {
    forall i :: 0 <= i < |lines| ==> Quiet(lines[i])
  }

  ghost predicate Stops(lines: seq<string>) {
    exists i :: 0 <= i < |lines| && Ends(lines[i])
  }

  function Own(line: string): seq<string> {
    if ParseHandle(Field(line)).Some? then [Field(line)] else []
  }

  lemma {:induction false} HandlesUnfold(lines: seq<string>)
    requires lines != []
    ensures HandlesIn(lines) == if Ends(lines[0]) then [] else Own(lines[0]) + HandlesIn(lines[1..])
  {
  }

  lemma {:induction false} HandlesJoin(a: seq<string>, b: seq<string>)
    ensures HandlesIn(a + b) == HandlesIn(a) + if Stops(a) then [] else HandlesIn(b)
  {
    if a == [] {
      assert a + b == b;
    } else {
      var all := a + b;
      assert all[0] == a[0] && all[1..] == a[1..] + b;
      HandlesUnfold(a);
      HandlesUnfold(all);
      if !Ends(a[0]) {
        HandlesJoin(a[1..], b);
        StopsTail(a);
        Assoc(Own(a[0]), HandlesIn(a[1..]), if Stops(a) then [] else HandlesIn(b));
      }
    }
  }

  lemma {:induction false} StopsTail(a: seq<string>)
    requires a != [] && !Ends(a[0])
    ensures Stops(a) <==> Stops(a[1..])
  {
    if Stops(a) {
      var i :| 0 <= i < |a| && Ends(a[i]);
      assert Ends(a[1..][i - 1]);
    }
    if Stops(a[1..]) {
      var i :| 0 <= i < |a[1..]| && Ends(a[1..][i]);
      assert Ends(a[i + 1]);
    }
  }

  lemma {:induction false} QuietLines(a: seq<string>)
    ensures AllQuiet(a) <==> !Stops(a) && HandlesIn(a) == []
  {
    if a != [] {
      assert a == [a[0]] + a[1..];
      QuietLines(a[1..]);
      if !Ends(a[0]) {
        StopsTail(a);
      }
      assert AllQuiet(a) <==> Quiet(a[0]) && AllQuiet(a[1..]);
    }
  }

  /** The entry's lines after its first are quiet. */
  predicate Harmless(shown: Shown, detail: Detail) {
    var lines := TextLines(EntryLine(shown.entry, shown.member, detail) + "\n");
    lines != [] && AllQuiet(lines[1..])
  }

  /** Wherever the entry stands on a page, it yields its handle and nothing else. */
  ghost predicate ReadsBack(shown: Shown, detail: Detail) {
    forall rest :: EmittedHandles(EntryLine(shown.entry, shown.member, detail) + "\n" + rest)
      == [shown.entry.handle] + EmittedHandles(rest)
  }

  lemma {:induction false} HandleStaysInRow(handle: string, text: string, row: string)
    requires ParseHandle(handle).Some? && handle + "\t" <= text && |row| == First(text, '\n') && row <= text
    ensures handle + "\t" <= Chomp(row)
    ensures forall i :: 0 <= i < |handle| ==> handle[i] != '\t'
  {
    HandlePlain(handle);
    StartStaysInRow(handle, text, row);
  }

  lemma {:induction false} HandlePlain(handle: string)
    requires ParseHandle(handle).Some?
    ensures forall i :: 0 <= i < |handle| ==> handle[i] != '\n' && handle[i] != '\t'
  {
    forall i | 0 <= i < |handle|
      ensures handle[i] != '\n' && handle[i] != '\t'
    {
      HandleChars(handle, i);
    }
  }

  lemma {:induction false} StartStaysInRow(handle: string, text: string, row: string)
    requires forall i :: 0 <= i < |handle| ==> handle[i] != '\n'
    requires handle + "\t" <= text && |row| == First(text, '\n') && row <= text
    ensures handle + "\t" <= Chomp(row)
  {
    var start := handle + "\t";
    assert forall i :: 0 <= i < |start| ==> text[i] == start[i] && start[i] != '\n';
  }

  /** Any text that starts with a handle and a tab has that handle on its first line. */
  lemma {:induction false} FirstLineOf(handle: string, text: string)
    requires ParseHandle(handle).Some? && handle + "\t" <= text
    ensures var lines := TextLines(text + "\n");
            lines != [] && !Ends(lines[0]) && Field(lines[0]) == handle
  {
    var row, more := FirstRow(text);
    HandleStaysInRow(handle, text, row);
    FieldOf(handle, Chomp(row));
    if more.None? {
      RowAlone(row);
    } else {
      Regroup3Breaks(row, more.value, "");
      RowHead(row, more.value + "\n");
    }
  }

  lemma {:induction false} HeadAndTail(handle: string, lines: seq<string>)
    requires lines != [] && !Ends(lines[0]) && Field(lines[0]) == handle && ParseHandle(handle).Some?
    ensures HandlesIn(lines) == [handle] + HandlesIn(lines[1..]) && (Stops(lines) <==> Stops(lines[1..]))
  {
    StopsTail(lines);
  }

  /** What the reader finds in an entry followed by `rest`. */
  lemma {:induction false} EntryThenRest(shown: Shown, detail: Detail, rest: string) returns (tail: seq<string>)
    requires ParseHandle(shown.entry.handle).Some?
    ensures Harmless(shown, detail) <==> AllQuiet(tail)
    ensures tail == TextLines(EntryLine(shown.entry, shown.member, detail) + "\n")[1..]
    ensures EmittedHandles(EntryLine(shown.entry, shown.member, detail) + "\n" + rest)
            == [shown.entry.handle] + (HandlesIn(tail) + if Stops(tail) then [] else EmittedHandles(rest))
  {
    var handle, text := shown.entry.handle, EntryLine(shown.entry, shown.member, detail);
    EntryStarts(shown, detail);
    FirstLineOf(handle, text);
    var lines := TextLines(text + "\n");
    tail := lines[1..];
    LinesSplit(text, rest);
    HandlesJoin(lines, TextLines(rest));
    HeadAndTail(handle, lines);
    Assoc([handle], HandlesIn(tail), if Stops(tail) then [] else EmittedHandles(rest));
  }

  lemma {:induction false} EntryStarts(shown: Shown, detail: Detail)
    ensures shown.entry.handle + "\t" <= EntryLine(shown.entry, shown.member, detail)
  {
  }

  lemma {:induction false} HarmlessReadsBack(shown: Shown, detail: Detail, rest: string)
    requires ParseHandle(shown.entry.handle).Some? && Harmless(shown, detail)
    ensures EmittedHandles(EntryLine(shown.entry, shown.member, detail) + "\n" + rest)
            == [shown.entry.handle] + EmittedHandles(rest)
  {
    var tail := EntryThenRest(shown, detail, rest);
    QuietRest(shown.entry.handle, tail, EmittedHandles(rest));
  }

  lemma {:induction false} QuietRest(h: string, tail: seq<string>, found: seq<string>)
    requires AllQuiet(tail)
    ensures [h] + (HandlesIn(tail) + if Stops(tail) then [] else found) == [h] + found
  {
    QuietLines(tail);
    assert [] + found == found;
  }

  lemma {:induction false} SeenFrom(shown: Shown, detail: Detail, rest: string) returns (tail: seq<string>)
    requires ParseHandle(shown.entry.handle).Some? && ReadsBack(shown, detail)
    ensures Harmless(shown, detail) <==> AllQuiet(tail)
    ensures tail == TextLines(EntryLine(shown.entry, shown.member, detail) + "\n")[1..]
    ensures var found := EmittedHandles(rest);
            [shown.entry.handle] + (HandlesIn(tail) + if Stops(tail) then [] else found) == [shown.entry.handle] + found
  {
    tail := EntryThenRest(shown, detail, rest);
  }

  lemma {:induction false} LoneHandle(h: string) returns (text: string)
    requires ParseHandle(h).Some?
    ensures EmittedHandles(text) == [h] && EmittedHandles("") == []
  {
    text := h + "\t" + "" + "\n" + "";
    HandleRow(h, "", "");
  }

  /** Exactly when: an entry with a real handle reads back on every page if and only if no
      line of its rendering after the first carries a handle or begins the coverage line. */
  lemma {:induction false} ReadsBackExactly(shown: Shown, detail: Detail)
    requires ParseHandle(shown.entry.handle).Some?
    ensures ReadsBack(shown, detail) <==> Harmless(shown, detail)
  {
    if Harmless(shown, detail) {
      forall rest
        ensures EmittedHandles(EntryLine(shown.entry, shown.member, detail) + "\n" + rest)
             == [shown.entry.handle] + EmittedHandles(rest)
      {
        HarmlessReadsBack(shown, detail, rest);
      }
    }
    if ReadsBack(shown, detail) {
      var again := LoneHandle(shown.entry.handle);
      var tail := SeenFrom(shown, detail, "");
      var _ := SeenFrom(shown, detail, again);
      OnlyWhenQuiet(shown.entry.handle, tail);
    }
  }

  lemma {:induction false} OnlyWhenQuiet(h: string, tail: seq<string>)
    requires [h] + (HandlesIn(tail) + if Stops(tail) then [] else []) == [h] + []
    requires [h] + (HandlesIn(tail) + if Stops(tail) then [] else [h]) == [h] + [h]
    ensures AllQuiet(tail)
  {
    QuietLines(tail);
  }

  // ------------------------------------------------------------ columns and footer

  /** The tab-separated columns of a line. */
  function Columns(line: string): (r: seq<string>)
    ensures r != []
    decreases |line|
  {
    var n := First(line, '\t');
    if n == |line| then [line] else [line[..n]] + Columns(line[n + 1..])
  }

  predicate NoTab(s: string) {
    forall i :: 0 <= i < |s| ==> s[i] != '\t'
  }

  lemma {:induction false} OneColumn(s: string)
    requires NoTab(s)
    ensures Columns(s) == [s]
  {
  }

  lemma {:induction false} FirstOfBoth(a: string, rest: string)
    ensures First(a + ("\t" + rest), '\t') == First(a, '\t')
  {
    var all := a + ("\t" + rest);
    assert forall k :: 0 <= k < |a| ==> all[k] == a[k];
    assert all[|a|] == '\t';
  }

  lemma {:induction false} FirstColumn(a: string, rest: string)
    requires NoTab(a)
    ensures Columns(a + ("\t" + rest)) == [a] + Columns(rest)
  {
    var all := a + ("\t" + rest);
    FirstOfBoth(a, rest);
    assert all[..|a|] == a && all[|a| + 1..] == rest;
  }

  lemma {:induction false} TailOfBoth(s: string, x: string, n: nat)
    requires n < |s|
    ensures var all := s + ("\t" + x); all[..n] == s[..n] && all[n + 1..] == s[n + 1..] + ("\t" + x)
  {
  }

  lemma {:induction false} LastColumn(s: string, x: string)
    requires NoTab(x)
    ensures Columns(s + ("\t" + x)) == Columns(s) + [x]
    decreases |s|
  {
    var n := First(s, '\t');
    if n == |s| {
      FirstColumn(s, x);
      OneColumn(x);
    } else {
      var rest := s[n + 1..];
      FirstOfBoth(s, x);
      TailOfBoth(s, x, n);
      LastColumn(rest, x);
      Assoc([s[..n]], Columns(rest), [x]);
    }
  }

  /** A column that a row may lack. */
  function Maybe(shown: bool, column: string): seq<string> {
    if shown then [column] else []
  }

  function MaybeText(shown: bool, column: string): string {
    if shown then "\t" + column else ""
  }

  lemma {:induction false} MaybeColumn(s: string, shown: bool, column: string)
    requires shown ==> NoTab(column)
    ensures Columns(s + MaybeText(shown, column)) == Columns(s) + Maybe(shown, column)
  {
    if shown {
      LastColumn(s, column);
    } else {
      assert s + "" == s;
    }
  }

  lemma {:induction false} RowOfThree(a: string, b: string, c: string)
    requires NoTab(a) && NoTab(b) && NoTab(c)
    ensures Columns(a + "\t" + (b + ("\t" + c))) == [a, b, c]
  {
    RowStart(a, b + ("\t" + c));
    FirstColumn(b, c);
    OneColumn(c);
  }

  lemma {:induction false} RowStart(a: string, rest: string)
    requires NoTab(a)
    ensures Columns(a + "\t" + rest) == [a] + Columns(rest)
  {
    Assoc(a, "\t", rest);
    FirstColumn(a, rest);
  }

  lemma {:induction false} RowOfFour(a: string, b: string, c: string, d: string)
    requires NoTab(a) && NoTab(b) && NoTab(c) && NoTab(d)
    ensures Columns(a + "\t" + (b + ("\t" + (c + ("\t" + d))))) == [a, b, c, d]
  {
    ThreeColumns(b, c, d);
    RowStart(a, b + ("\t" + (c + ("\t" + d))));
    FourInAll(a, b, c, d);
  }

  lemma {:induction false} FourInAll(a: string, b: string, c: string, d: string)
    ensures [a] + [b, c, d] == [a, b, c, d]
  {
  }

  lemma {:induction false} ThreeColumns(a: string, b: string, c: string)
    requires NoTab(a) && NoTab(b) && NoTab(c)
    ensures Columns(a + ("\t" + (b + ("\t" + c)))) == [a, b, c]
  {
    FirstColumn(a, b + ("\t" + c));
    FirstColumn(b, c);
    OneColumn(c);
  }

  lemma {:induction false} ConcatPair(a: string, b: string)
    ensures Concat([a, b]) == a + b
  {
    assert [a, b][1..] == [b] && [b][1..] == [];
    assert Concat([b]) == b;
  }

  lemma {:induction false} ConcatFour(a: string, b: string, c: string, d: string)
    ensures Concat([a, b, c, d]) == (a + b) + (c + d)
  {
    ConcatPair(c, d);
    assert [a, b, c, d][1..] == [b, c, d] && [b, c, d][1..] == [c, d];
    assert Concat([b, c, d]) == b + (c + d);
    Assoc(a, b, c + d);
  }

  lemma {:induction false} ConcatSeven(a: string, b: string, c: string, d: string, e: string, f: string, g: string)
    ensures Concat([a, b, c, d, e, f, g]) == (a + b) + (c + ((d + e) + (f + g)))
  {
    ConcatFour(d, e, f, g);
    assert [a, b, c, d, e, f, g][1..] == [b, c, d, e, f, g];
    assert [b, c, d, e, f, g][1..] == [c, d, e, f, g];
    assert [c, d, e, f, g][1..] == [d, e, f, g];
    assert Concat([c, d, e, f, g]) == c + ((d + e) + (f + g));
    assert Concat([b, c, d, e, f, g]) == b + (c + ((d + e) + (f + g)));
    Assoc(a, b, c + ((d + e) + (f + g)));
  }

  /** The row of a change: its handle, status, path and name, each in its own column. */
  lemma {:induction false} ChangeColumns(
    handle: string, member: Option<string>, status: string, path: string, name: string, detail: Detail)
    requires NoTab(handle) && NoTab(status) && NoTab(path) && NoTab(name) && (member.Some? ==> NoTab(member.value))
    ensures Columns(EntryLine(ChangeEntry(handle, status, path, name), member, detail))
         == [handle, "change:" + status, (if member.Some? then member.value + "/" else "") + path, name]
  {
    ConcatSeven("change:", status, "\t", Prefix(member), path, "\t", name);
    RowOfFour(handle, "change:" + status, Prefix(member) + path, name);
  }

  /** The row of a commit: its handle, name and the first line of its summary. */
  lemma {:induction false} CommitColumns(handle: string, member: Option<string>, commit: string, summary: string, detail: Detail)
    requires NoTab(handle) && NoTab(commit) && NoTab(summary)
    ensures Columns(EntryLine(CommitEntry(handle, commit, summary), member, detail))
         == [handle, "commit:" + commit, if summary == "" then "" else TextLines(summary)[0]]
  {
    ConcatFour("commit:", commit, "\t", FirstLine(summary));
    RowOfThree(handle, "commit:" + commit, FirstLine(summary));
  }

  lemma {:induction false} RowWithOptions(
    handle: string, place: string, named: bool, name: string, resolved: bool, resolution: string, repeated: bool, repeats: string)
    requires NoTab(handle) && NoTab(place) && (named ==> NoTab(name))
    requires (resolved ==> NoTab(resolution)) && (repeated ==> NoTab(repeats))
    ensures var x, y, z := MaybeText(named, name), MaybeText(resolved, resolution), MaybeText(repeated, repeats);
            Columns(handle + "\t" + (place + (x + (y + z))))
              == [handle, place] + Maybe(named, name) + Maybe(resolved, resolution) + Maybe(repeated, repeats)
  {
    var x, y, z := MaybeText(named, name), MaybeText(resolved, resolution), MaybeText(repeated, repeats);
    Assoc(handle + "\t", place, x + (y + z));
    RowOfTwo(handle, place);
    ThreeOptions(handle + "\t" + place, named, name, resolved, resolution, repeated, repeats);
  }

  lemma {:induction false} RowOfTwo(a: string, b: string)
    requires NoTab(a) && NoTab(b)
    ensures Columns(a + "\t" + b) == [a, b]
  {
    RowStart(a, b);
    OneColumn(b);
  }

  lemma {:induction false} ThreeOptions(
    row: string, named: bool, name: string, resolved: bool, resolution: string, repeated: bool, repeats: string)
    requires (named ==> NoTab(name)) && (resolved ==> NoTab(resolution)) && (repeated ==> NoTab(repeats))
    ensures var x, y, z := MaybeText(named, name), MaybeText(resolved, resolution), MaybeText(repeated, repeats);
            Columns(row + (x + (y + z)))
              == Columns(row) + Maybe(named, name) + Maybe(resolved, resolution) + Maybe(repeated, repeats)
  {
    var x, y, z := MaybeText(named, name), MaybeText(resolved, resolution), MaybeText(repeated, repeats);
    Assoc(row, x, y + z);
    Assoc(row + x, y, z);
    MaybeColumn(row, named, name);
    MaybeColumn(row + x, resolved, resolution);
    MaybeColumn(row + x + y, repeated, repeats);
  }

  lemma {:induction false} LocationNoTab(shown: Shown)
    requires shown.entry.Live? && NoTab(shown.entry.path) && (shown.member.Some? ==> NoTab(shown.member.value))
    ensures NoTab(Location(shown))
  {
    NoTabConcat(LocationParts(shown));
  }

  lemma {:induction false} NoTabConcat(parts: seq<string>)
    requires forall i :: 0 <= i < |parts| ==> NoTab(parts[i])
    ensures NoTab(Concat(parts))
  {
    if parts != [] {
      NoTabConcat(parts[1..]);
    }
  }

  /** A live hit's name is shown when asked for, short, unlike its path, and not repeated by a
      preview of the match. */
  predicate NameShown(e: Entry, detail: Detail)
    requires e.Live?
  {
    detail.names && 0 < |e.name| <= 96 && e.name != e.path && !(e.regex && detail.snippets && e.snippet.Some?)
  }

  function ResolutionText(e: Entry): string
    requires e.Live?
  {
    if e.resolution.Some? then "resolution=" + e.resolution.value else ""
  }

  function RepeatsText(e: Entry): string
    requires e.Live?
  {
    if e.repeats.Some? then [TIMES] + Decimal(e.repeats.value) else ""
  }

  lemma {:induction false} LiveOptions(e: Entry, detail: Detail)
    requires e.Live?
    ensures LiveFields(e, detail)
         == MaybeText(NameShown(e, detail), e.name)
            + (MaybeText(e.resolution.Some?, ResolutionText(e)) + MaybeText(e.repeats.Some?, RepeatsText(e)))
  {
    var x := MaybeText(NameShown(e, detail), e.name);
    var y, z := MaybeText(e.resolution.Some?, ResolutionText(e)), MaybeText(e.repeats.Some?, RepeatsText(e));
    if e.resolution.Some? {
      TabThen(e.resolution.value);
    }
    assert LiveFields(e, detail) == Concat([x, y, z]);
    assert [x, y, z][1..] == [y, z];
    ConcatPair(y, z);
  }

  lemma {:induction false} TabThen(value: string)
    ensures "\tresolution=" + value == "\t" + ("resolution=" + value)
  {
    assert "\t" + "resolution=" == "\tresolution=";
    Assoc("\t", "resolution=", value);
  }

  /** The row of a live hit: its handle and location, then its name, resolution and repeats
      when it has them to show. */
  lemma {:induction false} LiveColumns(shown: Shown, detail: Detail)
    requires shown.entry.Live? && NoTab(shown.entry.handle) && NoTab(shown.entry.path) && NoTab(shown.entry.name)
    requires shown.entry.resolution.Some? ==> NoTab(shown.entry.resolution.value)
    requires shown.member.Some? ==> NoTab(shown.member.value)
    ensures var e := shown.entry;
            Columns(e.handle + "\t" + Fields(e, shown.member, detail))
              == [e.handle, Location(shown)] + Maybe(NameShown(e, detail), e.name)
                 + Maybe(e.resolution.Some?, ResolutionText(e)) + Maybe(e.repeats.Some?, RepeatsText(e))
  {
    var e := shown.entry;
    FieldsText(shown, detail);
    LiveOptions(e, detail);
    LocationNoTab(shown);
    RowWithOptions(e.handle, Location(shown), NameShown(e, detail), e.name,
                   e.resolution.Some?, ResolutionText(e), e.repeats.Some?, RepeatsText(e));
  }

  lemma {:induction false} FieldsText(shown: Shown, detail: Detail)
    requires shown.entry.Live?
    ensures Fields(shown.entry, shown.member, detail) == Location(shown) + LiveFields(shown.entry, detail)
  {
    var e := shown.entry;
    var front, fields := LocationParts(shown), LiveFields(e, detail);
    ConcatSplit(front, [fields]);
    assert front + [fields]
        == [Prefix(shown.member), e.path, ":", Decimal(e.startLine), "-", Decimal(e.endLine), fields];
    assert Concat([fields]) == fields by {
      assert [fields][1..] == [];
    }
  }

  /** The preview line gives back its line number and its text. */
  lemma {:induction false} PreviewReadsBack(e: Entry, detail: Detail)
    requires e.Live? && detail.snippets && e.snippet.Some? && e.snippet.value.line <= USIZE_MAX
    ensures Preview(e, detail).Some?
    ensures var line := Preview(e, detail).value;
            var n := First(line, ':');
            && 2 <= n < |line| - 1 && line[..2] == "  " && line[n..n + 2] == ": "
            && ParseUsize(line[2..n]) == Some(e.snippet.value.line) && line[n + 2..] == e.snippet.value.text
  {
    var number, text := Decimal(e.snippet.value.line), e.snippet.value.text;
    ParsePrinted(e.snippet.value.line);
    PreviewParts(number, text);
  }

  lemma {:induction false} PreviewParts(number: string, text: string)
    requires forall i :: 0 <= i < |number| ==> '0' <= number[i] <= '9'
    ensures var line := "  " + (number + ": " + text);
            var n := First(line, ':');
            n == 2 + |number| && line[..2] == "  " && line[2..n] == number && line[n..n + 2] == ": " && line[n + 2..] == text
  {
    var line := "  " + (number + ": " + text);
    var n := 2 + |number|;
    assert line[2..n] == number && line[n..n + 2] == ": ";
    assert forall i :: 0 <= i < |number| ==> line[2 + i] == number[i];
    assert line[n] == ':';
  }

  /** One line of text, as `str::lines` gives it back. */
  predicate OneLine(s: string) {
    NoBreak(s) && !(s != "" && s[|s| - 1] == '\r')
  }

  lemma {:induction false} LineBefore(line: string, rest: string)
    requires OneLine(line)
    ensures TextLines(line + "\n" + rest) == [line] + TextLines(rest)
  {
    RowReadsBack(line, rest);
  }

  lemma {:induction false} KeyedLine(key: string, value: string)
    requires NoBreak(key) && key != "" && key[|key| - 1] == ' ' && OneLine(value)
    ensures OneLine(key + value)
  {
  }

  function MaybeLine(shown: bool, line: string): string {
    if shown then line + "\n" else ""
  }

  lemma {:induction false} LineMaybe(shown: bool, line: string, rest: string)
    requires shown ==> OneLine(line)
    ensures TextLines(MaybeLine(shown, line) + rest) == Maybe(shown, line) + TextLines(rest)
  {
    if shown {
      LineBefore(line, rest);
    } else {
      assert "" + rest == rest;
    }
  }

  lemma {:induction false} ThreeLines(a: bool, x: string, b: bool, y: string, c: bool, z: string)
    requires (a ==> OneLine(x)) && (b ==> OneLine(y)) && (c ==> OneLine(z))
    ensures TextLines(MaybeLine(a, x) + MaybeLine(b, y) + MaybeLine(c, z)) == Maybe(a, x) + Maybe(b, y) + Maybe(c, z)
  {
    var p, q, r := MaybeLine(a, x), MaybeLine(b, y), MaybeLine(c, z);
    Assoc(p, q, r);
    LineMaybe(a, x, q + r);
    LineMaybe(b, y, r);
    LineAlone(c, z);
    Assoc(Maybe(a, x), Maybe(b, y), Maybe(c, z));
  }

  lemma {:induction false} LineAlone(shown: bool, line: string)
    requires shown ==> OneLine(line)
    ensures TextLines(MaybeLine(shown, line)) == Maybe(shown, line)
  {
    LineMaybe(shown, line, "");
    assert MaybeLine(shown, line) + "" == MaybeLine(shown, line);
  }

  function NextText(next: Option<Next>): string {
    if next.Some? then "next: " + next.value.verb + " " + next.value.cursor else ""
  }

  function HintText(next: Option<Next>): string {
    if next.Some? && next.value.hint.Some? then "hint: " + next.value.hint.value else ""
  }

  lemma {:induction false} FooterText(next: Option<Next>, truncated: bool)
    ensures Footer(next, truncated)
         == MaybeLine(next.Some?, NextText(next)) + MaybeLine(next.Some? && next.value.hint.Some?, HintText(next))
            + MaybeLine(truncated, "truncated: true")
  {
  }

  /** The footer reads back as its lines: how to go on and the hint if there is more, and the
      truncation marker if the set was cut. */
  lemma {:induction false} FooterLines(next: Option<Next>, truncated: bool)
    requires next.Some? ==> NoBreak(next.value.verb) && OneLine(next.value.cursor)
    requires next.Some? && next.value.hint.Some? ==> OneLine(next.value.hint.value)
    ensures TextLines(Footer(next, truncated))
         == Maybe(next.Some?, NextText(next)) + Maybe(next.Some? && next.value.hint.Some?, HintText(next))
            + Maybe(truncated, "truncated: true")
  {
    FooterText(next, truncated);
    if next.Some? {
      NoBreakJoins("next: ", next.value.verb);
      NoBreakJoins("next: " + next.value.verb, " ");
      KeyedLine("next: " + next.value.verb + " ", next.value.cursor);
      if next.value.hint.Some? {
        KeyedLine("hint: ", next.value.hint.value);
      }
    }
    ThreeLines(next.Some?, NextText(next), next.Some? && next.value.hint.Some?, HintText(next), truncated, "truncated: true");
  }

  // ------------------------------------------------------------ a forged handle

  /** A hit as the live regular-expression lane makes it: its name is the matched text. */
  predicate RegexHit(e: Entry) {
    e.Live? && e.regex && e.resolution.None? && e.repeats.None?
  }

  lemma {:induction false} RegexRow(shown: Shown, detail: Detail)
    requires var e := shown.entry;
             && RegexHit(e) && detail.names && !(detail.snippets && e.snippet.Some?)
             && ConciseName(e.name) && e.name != e.path
    ensures EntryLine(shown.entry, shown.member, detail)
            == shown.entry.handle + "\t" + (Location(shown) + ("\t" + shown.entry.name))
  {
    var e := shown.entry;
    assert LiveFields(e, detail) == "\t" + e.name by {
      NameAlone("\t" + e.name);
    }
    FieldsText(shown, detail);
  }

  lemma {:induction false} NameAlone(name: string)
    ensures Concat([name, "", ""]) == name
  {
    assert [name, "", ""][1..] == ["", ""] && ["", ""][1..] == [""] && [""][1..] == [];
  }

  function LocationParts(shown: Shown): seq<string>
    requires shown.entry.Live?
  {
    [Prefix(shown.member), shown.entry.path, ":", Decimal(shown.entry.startLine), "-", Decimal(shown.entry.endLine)]
  }

  function Location(shown: Shown): string
    requires shown.entry.Live?
  {
    Concat(LocationParts(shown))
  }

  /** Two rows, each starting with a handle and a tab, yield both handles. */
  lemma {:induction false} TwoHandles(a: string, fields: string, b: string, more: string, rest: string)
    requires ParseHandle(a).Some? && ParseHandle(b).Some? && NoBreak(fields)
    ensures var found := EmittedHandles(a + "\t" + fields + "\n" + (b + "\t" + more + "\n" + rest));
            |found| >= 2 && found[0] == a && found[1] == b
  {
    var second := b + "\t" + more;
    HandleRow(a, fields, second + "\n" + rest);
    FirstLineOf(b, second);
    LinesSplit(second, rest);
    HandlesJoin(TextLines(second + "\n"), TextLines(rest));
    HeadAndTail(b, TextLines(second + "\n"));
  }

  lemma {:induction false} ForgedText(handle: string, place: string, x: string, forged: string, y: string, rest: string)
    ensures handle + "\t" + (place + ("\t" + (x + "\n" + (forged + "\t" + y)))) + "\n" + rest
         == handle + "\t" + (place + "\t" + x) + "\n" + (forged + "\t" + y + "\n" + rest)
  {
  }

  /** A line break does forge a handle: on every page, a live regular-expression hit printed
      with its name and no preview, whose matched text goes on after a break with a handle and
      a tab, makes the reader report that handle next to the hit's own. */
  lemma {:induction false} LineBreakForgesHandle(
    shown: Shown, detail: Detail, x: string, forged: string, y: string, rest: string)
    requires var e := shown.entry;
             && RegexHit(e) && detail.names && !(detail.snippets && e.snippet.Some?)
             && ConciseName(e.name) && e.name == x + "\n" + (forged + "\t" + y)
             && ParseHandle(e.handle).Some? && ParseHandle(forged).Some?
             && NoBreak(x) && NoBreak(e.path) && (shown.member.Some? ==> NoBreak(shown.member.value))
    ensures var found := EmittedHandles(EntryLine(shown.entry, shown.member, detail) + "\n" + rest);
            |found| >= 2 && found[0] == shown.entry.handle && found[1] == forged
  {
    ForgedRow(shown, detail, x, forged, y);
    PlaceUnbroken(shown, x);
    TwoRows(shown.entry.handle, Location(shown), x, forged, y, rest);
  }

  lemma {:induction false} ForgedRow(shown: Shown, detail: Detail, x: string, forged: string, y: string)
    requires var e := shown.entry;
             && RegexHit(e) && detail.names && !(detail.snippets && e.snippet.Some?)
             && ConciseName(e.name) && e.name == x + "\n" + (forged + "\t" + y) && NoBreak(e.path)
    ensures EntryLine(shown.entry, shown.member, detail)
         == shown.entry.handle + "\t" + (Location(shown) + ("\t" + (x + "\n" + (forged + "\t" + y))))
  {
    assert shown.entry.name[|x|] == '\n';
    RegexRow(shown, detail);
  }

  lemma {:induction false} PlaceUnbroken(shown: Shown, x: string)
    requires shown.entry.Live? && NoBreak(x)
    requires NoBreak(shown.entry.path) && (shown.member.Some? ==> NoBreak(shown.member.value))
    ensures NoBreak(Location(shown) + "\t" + x)
  {
    NoBreakConcat(LocationParts(shown));
    NoBreakJoins(Location(shown), "\t");
    NoBreakJoins(Location(shown) + "\t", x);
  }

  lemma {:induction false} TwoRows(handle: string, place: string, x: string, forged: string, y: string, rest: string)
    requires ParseHandle(handle).Some? && ParseHandle(forged).Some? && NoBreak(place + "\t" + x)
    ensures var row := handle + "\t" + (place + ("\t" + (x + "\n" + (forged + "\t" + y))));
            var found := EmittedHandles(row + "\n" + rest);
            |found| >= 2 && found[0] == handle && found[1] == forged
  {
    ForgedText(handle, place, x, forged, y, rest);
    TwoHandles(handle, place + "\t" + x, forged, y, rest);
  }

  /** Such matched texts exist, well within the length a name may have. */
  lemma {:induction false} ForgingTextFits(set_: Uuid) returns (forged: string, name: string)
    ensures ParseHandle(forged).Some? && name == "" + "\n" + (forged + "\t" + "") && ConciseName(name)
  {
    forged := PrintHandle(Handle(set_, 1));
    HandleReadsBack(Handle(set_, 1));
    name := "" + "\n" + (forged + "\t" + "");
    assert |Decimal(1)| == 1;
  }
}
