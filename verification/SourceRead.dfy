/** Source pages: rows of a span, their display, and continuation cursors
    (src/source.rs, src/source/acquisition.rs). Text is held as the bytes of its UTF-8
    encoding; whether a page of so many rows fits is an arbitrary predicate. */
module SourceRead {
  import opened Basics
  import opened Text
  import opened Identity
  import opened SourceSpan
  import Lines
  import Utf8

  const MAX_ROWS: nat := 200
  const BACKSLASH: Byte := 0x5c

  // ------------------------------------------------------------ displaying bytes

  predicate Printable(b: Byte) {
    0x20 <= b <= 0x7e && b != BACKSLASH
  }

  /** A lower-case hexadecimal digit as a byte of text. */
  function HexByte(n: Nibble): (c: Byte)
    ensures c < 0x80 && HexValue(c as char) == Some(n)
  {
    HexReadsBack(n);
    HexDigit(n) as int
  }

  function EscapeByte(b: Byte): seq<Byte> {
    if Printable(b) then [b] else [BACKSLASH, 0x78, HexByte(b / 16), HexByte(b % 16)]
  }

  function Escape(bytes: seq<Byte>): seq<Byte> {
    if bytes == [] then [] else EscapeByte(bytes[0]) + Escape(bytes[1..])
  }

  lemma {:induction false} EscapeSnoc(bytes: seq<Byte>, b: Byte)
    ensures Escape(bytes + [b]) == Escape(bytes) + EscapeByte(b)
  {
    if bytes == [] {
      assert bytes + [b] == [b];
      assert Escape([b]) == EscapeByte(b) + Escape([]);
    } else {
      assert (bytes + [b])[1..] == bytes[1..] + [b];
      EscapeSnoc(bytes[1..], b);
    }
  }

  /** `display_bytes` */
  method DisplayBytes(bytes: seq<Byte>) returns (text: seq<Byte>, utf8: bool)
    ensures utf8 == Utf8.Valid(bytes) && text == if utf8 then bytes else Escape(bytes)
  {
    utf8 := Utf8.Valid(bytes);
    if utf8 {
      return bytes, true;
    }
    text := [];
    for i := 0 to |bytes|
      invariant text == Escape(bytes[..i])
    {
      EscapeSnoc(bytes[..i], bytes[i]);
      assert bytes[..i + 1] == bytes[..i] + [bytes[i]];
      text := text + EscapeByte(bytes[i]);
    }
    assert bytes[..|bytes|] == bytes;
  }

  /** Reads displayed text back: itself when it is marked UTF-8, else with its escapes undone. */
  function Undisplay(text: seq<Byte>, utf8: bool): seq<Byte> {
    if utf8 then text else Unescape(text)
  }

  function Unescape(text: seq<Byte>): seq<Byte> {
    if text == [] then []
    else if text[0] == BACKSLASH && |text| >= 4 then
      var h, l := HexValue(text[2] as char), HexValue(text[3] as char);
      (if h.Some? && l.Some? then [16 * h.value + l.value] else []) + Unescape(text[4..])
    else [text[0]] + Unescape(text[1..])
  }

  lemma {:induction false} UnescapeByte(b: Byte, rest: seq<Byte>)
    ensures Unescape(EscapeByte(b) + rest) == [b] + Unescape(rest)
  {
    var text := EscapeByte(b) + rest;
    if Printable(b) {
      assert text[1..] == rest;
    } else {
      assert text[4..] == rest;
    }
  }

  lemma {:induction false} UnescapeEscape(bytes: seq<Byte>)
    ensures Unescape(Escape(bytes)) == bytes
  {
    if bytes != [] {
      UnescapeByte(bytes[0], Escape(bytes[1..]));
      UnescapeEscape(bytes[1..]);
    }
  }

  lemma {:induction false} EscapeIsAscii(bytes: seq<Byte>)
    ensures forall i :: 0 <= i < |Escape(bytes)| ==> Escape(bytes)[i] < 0x80
  {
    if bytes != [] {
      EscapeIsAscii(bytes[1..]);
    }
  }

  /** Escaped text is printable. */
  lemma {:induction false} EscapeIsPrintable(bytes: seq<Byte>)
    ensures forall i :: 0 <= i < |Escape(bytes)| ==> 0x20 <= Escape(bytes)[i] <= 0x7e
  {
    if bytes != [] {
      EscapeIsPrintable(bytes[1..]);
      HexIsPrintable(bytes[0] / 16);
      HexIsPrintable(bytes[0] % 16);
    }
  }

  lemma {:induction false} HexIsPrintable(n: Nibble)
    ensures 0x20 <= HexByte(n) <= 0x7e
  {
  }

  lemma {:induction false} EscapeLengthens(bytes: seq<Byte>)
    ensures |Escape(bytes)| >= |bytes|
    ensures |Escape(bytes)| == |bytes| ==> Escape(bytes) == bytes
    ensures |Escape(bytes)| == |bytes| <==> forall i :: 0 <= i < |bytes| ==> 0x20 <= bytes[i] <= 0x7e && bytes[i] != 0x5c
  {
    if bytes != [] {
      EscapeLengthens(bytes[1..]);
      assert bytes == [bytes[0]] + bytes[1..];
      assert forall i :: 0 < i < |bytes| ==> bytes[1..][i - 1] == bytes[i];
    }
  }

  /** Only what must be is escaped: text is left as it is if and only if every byte is
      printable ASCII other than the backslash. */
  lemma {:induction false} EscapesOnlyWhatItMust(bytes: seq<Byte>)
    ensures Escape(bytes) == bytes <==> forall i :: 0 <= i < |bytes| ==> 0x20 <= bytes[i] <= 0x7e && bytes[i] != 0x5c
  {
    EscapeLengthens(bytes);
  }

  /** Displayed text reads back to the bytes in both encodings, and is always valid UTF-8. */
  lemma {:induction false} DisplayReadsBack(bytes: seq<Byte>)
    ensures var utf8 := Utf8.Valid(bytes);
            var text := if utf8 then bytes else Escape(bytes);
            Undisplay(text, utf8) == bytes && Utf8.Valid(text)
  {
    UnescapeEscape(bytes);
    EscapeIsAscii(bytes);
    Utf8.AsciiIsValid(Escape(bytes));
  }

  // ------------------------------------------------------------ rows of a span

  datatype Row = Row(line: nat, start: nat, end: nat, text: seq<Byte>, utf8: bool)

  datatype Page = Page(rows: seq<Row>, next: Option<string>)

  datatype Failure = RenderFailed | BudgetTooSmall

  datatype Reply = Rendered(page: Page) | Failed(reason: Failure)

  ghost predicate NoBreak(bytes: seq<Byte>, i: nat, j: nat)
    requires j <= |bytes|
  {
    forall p :: i <= p < j ==> bytes[p] != NEWLINE
  }

  /** A row is one line of the span, correctly numbered and readable back. */
  ghost predicate RowOf(bytes: seq<Byte>, end: nat, row: Row) {
    && row.start < row.end <= end <= |bytes|
    && row.line == LineAt(bytes, row.start)
    && Undisplay(row.text, row.utf8) == bytes[row.start..row.end]
    && NoBreak(bytes, row.start, row.end - 1)
    && (row.end < end ==> bytes[row.end - 1] == NEWLINE)
  }

  ghost function ShownEnd(rows: seq<Row>, start: nat): nat {
    if rows == [] then start else rows[|rows| - 1].end
  }

  /** The rows are the span's first lines, one after the other. */
  ghost predicate RowsOf(bytes: seq<Byte>, start: nat, end: nat, rows: seq<Row>) {
    rows != [] ==>
      var front, last := rows[..|rows| - 1], rows[|rows| - 1];
      RowsOf(bytes, start, end, front) && RowOf(bytes, end, last) && last.start == ShownEnd(front, start)
  }

  lemma {:induction false} OneRowMore(bytes: seq<Byte>, start: nat, end: nat, rows: seq<Row>, row: Row)
    requires RowsOf(bytes, start, end, rows) && RowOf(bytes, end, row) && row.start == ShownEnd(rows, start)
    ensures RowsOf(bytes, start, end, rows + [row])
  {
    assert (rows + [row])[..|rows|] == rows;
  }

  lemma {:induction false} NextLine(bytes: seq<Byte>, start: nat, end: nat)
    requires start < end <= |bytes| && bytes[end - 1] == NEWLINE && NoBreak(bytes, start, end - 1)
    ensures LineAt(bytes, end) == LineAt(bytes, start) + 1
  {
    BreaksFlat(bytes, start, end - 1);
  }

  lemma {:induction false} LineWithin(bytes: seq<Byte>, offset: nat, end: nat, n: nat)
    requires offset < end <= |bytes| && n == Lines.FirstEnd(bytes[offset..end])
    ensures 0 < n <= end - offset && NoBreak(bytes, offset, offset + n - 1)
    ensures offset + n < end ==> bytes[offset + n - 1] == NEWLINE
  {
    var rest := bytes[offset..end];
    forall p | offset <= p < offset + n - 1
      ensures bytes[p] != NEWLINE
    {
      assert rest[p - offset] != NEWLINE;
    }
  }

  method DisplayRow(line: nat, start: nat, bytes: seq<Byte>) returns (row: Row)
    ensures row.line == line && row.start == start && row.end == start + |bytes|
    ensures Undisplay(row.text, row.utf8) == bytes && Utf8.Valid(row.text)
  {
    var text, utf8 := DisplayBytes(bytes);
    DisplayReadsBack(bytes);
    row := Row(line, start, start + |bytes|, text, utf8);
  }

  /** Where the line at `offset` ends within the span. */
  method LineEnd(bytes: seq<Byte>, offset: nat, end: nat) returns (stop: nat)
    requires offset < end <= |bytes|
    ensures offset < stop <= end && NoBreak(bytes, offset, stop - 1)
    ensures stop < end ==> bytes[stop - 1] == NEWLINE && LineAt(bytes, stop) == LineAt(bytes, offset) + 1
  {
    var n := Lines.FirstEnd(bytes[offset..end]);
    LineWithin(bytes, offset, end, n);
    stop := offset + n;
    if stop < end {
      NextLine(bytes, offset, stop);
    }
  }

  /** The next line of the span as a row. */
  method NextRow(bytes: seq<Byte>, offset: nat, end: nat, line: nat) returns (row: Row)
    requires offset < end <= |bytes| && line == LineAt(bytes, offset)
    ensures RowOf(bytes, end, row) && row.start == offset
    ensures row.end < end ==> LineAt(bytes, row.end) == line + 1
  {
    var stop := LineEnd(bytes, offset, end);
    row := DisplayRow(line, offset, bytes[offset..stop]);
  }

  /** The first rows of the span, at most `MAX_ROWS`. */
  method Rows(bytes: seq<Byte>, start: nat, end: nat) returns (rows: seq<Row>)
    requires start <= end <= |bytes|
    ensures RowsOf(bytes, start, end, rows) && |rows| <= MAX_ROWS
    ensures ShownEnd(rows, start) == end || |rows| == MAX_ROWS
    ensures rows != [] ==> start < end
  {
    var first := LineSpan(bytes, start, end).0;
    var offset := start;
    rows := [];
    while |rows| < MAX_ROWS && offset < end
      invariant start <= offset <= end && offset == ShownEnd(rows, start)
      invariant rows != [] ==> start < end
      invariant offset < end ==> first + |rows| == LineAt(bytes, offset)
      invariant RowsOf(bytes, start, end, rows) && |rows| <= MAX_ROWS
    {
      var row := NextRow(bytes, offset, end, first + |rows|);
      OneRowMore(bytes, start, end, rows, row);
      rows := rows + [row];
      offset := row.end;
    }
  }

  // ------------------------------------------------------------ pages

  function Continuation(handle: string, side: Option<Side>, shown: nat, end: nat): Option<string> {
    if shown < end then Some(PrintRead(handle, side, shown)) else None
  }

  /** A page of the span from `start`: its first lines, at least one unless the span is
      empty, and a cursor exactly when something is left. */
  ghost predicate PageOf(
    bytes: seq<Byte>, start: nat, end: nat, handle: string, side: Option<Side>, p: Page)
  {
    && start <= end <= |bytes|
    && RowsOf(bytes, start, end, p.rows) && |p.rows| <= MAX_ROWS
    && (start < end ==> p.rows != [])
    && p.next == Continuation(handle, side, ShownEnd(p.rows, start), end)
  }

  lemma {:induction false} PrefixRows(bytes: seq<Byte>, start: nat, end: nat, rows: seq<Row>, k: nat)
    requires RowsOf(bytes, start, end, rows) && k <= |rows|
    ensures RowsOf(bytes, start, end, rows[..k])
  {
    if k == |rows| {
      assert rows[..k] == rows;
    } else {
      var front := rows[..|rows| - 1];
      PrefixRows(bytes, start, end, front, k);
      assert front[..k] == rows[..k];
    }
  }

  /** Drops rows from the end until the page fits; an empty page counts only for an empty
      span. The result is the most rows that fit, for any fitting predicate. */
  method DropRows(rows: nat, empty: bool, fits: nat -> Result<bool>) returns (r: Result<Option<nat>>)
    ensures r.Ok? && r.value.Some? ==>
              && r.value.value <= rows && fits(r.value.value) == Ok(true) && (r.value.value > 0 || empty)
              && forall k: nat :: r.value.value < k <= rows ==> fits(k) == Ok(false)
    ensures r == Ok(None) ==> forall k: nat :: k <= rows && (k > 0 || empty) ==> fits(k) == Ok(false)
    ensures r.Err? ==> exists k: nat :: k <= rows && fits(k).Err? && forall m: nat :: k < m <= rows ==> fits(m) == Ok(false)
  {
    var k: nat := rows;
    while true
      invariant k <= rows
      invariant forall m: nat :: k < m <= rows ==> fits(m) == Ok(false)
      decreases k
    {
      var fit := fits(k);
      if fit.Err? {
        return Err;
      }
      if fit.value && (k > 0 || empty) {
        return Ok(Some(k));
      }
      if k == 0 {
        return Ok(None);
      }
      k := k - 1;
    }
  }

  /** `render_owned`: the most rows that fit. */
  method RenderPage(
    bytes: seq<Byte>, start: nat, end: nat, handle: string, side: Option<Side>, fits: nat -> Result<bool>)
    returns (r: Reply)
    requires start <= end <= |bytes|
    ensures r.Rendered? ==> PageOf(bytes, start, end, handle, side, r.page) && fits(|r.page.rows|) == Ok(true)
    ensures r.Rendered? && r.page.next.Some? && |r.page.rows| < MAX_ROWS ==> fits(|r.page.rows| + 1) == Ok(false)
    ensures r == Failed(BudgetTooSmall) ==> fits(if start < end then 1 else 0) == Ok(false)
    ensures r == Failed(RenderFailed) ==> exists k: nat :: k <= MAX_ROWS && (k > 0 ==> start < end) && fits(k).Err?
  {
    var rows := Rows(bytes, start, end);
    assert start < end ==> rows != [];
    var kept := DropRows(|rows|, start == end, fits);
    if kept.Err? {
      return Failed(RenderFailed);
    }
    if kept.value.None? {
      return Failed(BudgetTooSmall);
    }
    var k := kept.value.value;
    var shownEnd := if k == 0 then start else rows[k - 1].end;
    PrefixPage(bytes, start, end, handle, side, rows, k);
    r := Rendered(Page(rows[..k], Continuation(handle, side, shownEnd, end)));
  }

  /** The first `k` of the rows make a page; with all of them shown, nothing is left or the
      page is full. */
  lemma {:induction false} PrefixPage(
    bytes: seq<Byte>, start: nat, end: nat, handle: string, side: Option<Side>, rows: seq<Row>, k: nat)
    requires start <= end <= |bytes| && RowsOf(bytes, start, end, rows) && k <= |rows| <= MAX_ROWS
    requires ShownEnd(rows, start) == end || |rows| == MAX_ROWS
    requires start < end ==> k > 0
    ensures var shown := if k == 0 then start else rows[k - 1].end;
            var p := Page(rows[..k], Continuation(handle, side, shown, end));
            PageOf(bytes, start, end, handle, side, p) && (p.next.Some? && k < MAX_ROWS ==> k < |rows|)
  {
    PrefixRows(bytes, start, end, rows, k);
    assert k == |rows| ==> rows[..k] == rows;
  }

  /** How `acquire` reopens a continuation: the same source from the cursor's offset. */
  function Reopen(cursor: string, handle: string, side: Option<Side>, start: nat, end: nat): Option<nat> {
    var c := ParseRead(cursor);
    if c.None? || c.value.0 != handle || c.value.1 != side || c.value.2 < start || c.value.2 > end then None
    else Some(c.value.2)
  }

  // ------------------------------------------------------------ following continuations

  datatype Target = Target(bytes: seq<Byte>, start: nat, end: nat, handle: string, side: Option<Side>)

  ghost predicate Proper(t: Target) {
    t.start <= t.end <= |t.bytes| && |t.bytes| <= USIZE_MAX && ParseHandle(t.handle).Some?
  }

  ghost function NextStart(t: Target, pages: seq<Page>): Option<nat> {
    if pages == [] then Some(t.start)
    else
      var next := pages[|pages| - 1].next;
      if next.None? then None else Reopen(next.value, t.handle, t.side, t.start, t.end)
  }

  /** Pages read one after the other, each at the offset its predecessor's cursor names. */
  ghost predicate Follows(t: Target, pages: seq<Page>) {
    pages != [] ==>
      var front := pages[..|pages| - 1];
      && Follows(t, front) && NextStart(t, front).Some?
      && PageOf(t.bytes, NextStart(t, front).value, t.end, t.handle, t.side, pages[|pages| - 1])
  }

  /** The bytes the rows show. */
  ghost function Read(rows: seq<Row>): seq<Byte> {
    if rows == [] then []
    else Read(rows[..|rows| - 1]) + Undisplay(rows[|rows| - 1].text, rows[|rows| - 1].utf8)
  }

  ghost function ReadAll(pages: seq<Page>): seq<Byte> {
    if pages == [] then [] else ReadAll(pages[..|pages| - 1]) + Read(pages[|pages| - 1].rows)
  }

  lemma {:induction false} JoinSlices(bytes: seq<Byte>, a: nat, b: nat, c: nat)
    requires a <= b <= c <= |bytes|
    ensures bytes[a..b] + bytes[b..c] == bytes[a..c]
  {
  }

  lemma {:induction false} ReadUnfolds(rows: seq<Row>)
    requires rows != []
    ensures var row := rows[|rows| - 1];
            Read(rows) == Read(rows[..|rows| - 1]) + Undisplay(row.text, row.utf8)
  {
  }

  lemma {:induction false} LastRow(bytes: seq<Byte>, start: nat, end: nat, rows: seq<Row>)
    requires RowsOf(bytes, start, end, rows) && rows != []
    ensures var front, row := rows[..|rows| - 1], rows[|rows| - 1];
            && RowsOf(bytes, start, end, front)
            && ShownEnd(front, start) == row.start < row.end <= end <= |bytes|
            && Undisplay(row.text, row.utf8) == bytes[row.start..row.end]
  {
  }

  lemma {:induction false} RowsRead(bytes: seq<Byte>, start: nat, end: nat, rows: seq<Row>)
    requires RowsOf(bytes, start, end, rows) && start <= end <= |bytes|
    ensures start <= ShownEnd(rows, start) <= end
    ensures rows != [] ==> start < ShownEnd(rows, start)
    ensures Read(rows) == bytes[start..ShownEnd(rows, start)]
  {
    if rows != [] {
      LastRow(bytes, start, end, rows);
      var front, row := rows[..|rows| - 1], rows[|rows| - 1];
      RowsRead(bytes, start, end, front);
      ReadUnfolds(rows);
      JoinSlices(bytes, start, row.start, row.end);
    }
  }

  lemma {:induction false} Reopens(t: Target, shown: nat)
    requires Proper(t) && t.start <= shown <= t.end
    ensures Reopen(PrintRead(t.handle, t.side, shown), t.handle, t.side, t.start, t.end) == Some(shown)
  {
    ReadCursorReadsBack(t.handle, t.side, shown);
  }

  /** The cursor of a page that shows the bytes up to `shown` reopens there, if at all. */
  lemma {:induction false} NextAfter(t: Target, pages: seq<Page>, shown: nat)
    requires Proper(t) && pages != [] && t.start <= shown <= t.end
    requires pages[|pages| - 1].next == Continuation(t.handle, t.side, shown, t.end)
    ensures NextStart(t, pages) == if shown == t.end then None else Some(shown)
  {
    Reopens(t, shown);
  }

  /** What a chain of `n` pages has read: the span's first bytes, with `next` after them. */
  ghost predicate HasRead(t: Target, n: nat, read: seq<Byte>, next: Option<nat>) {
    var shown := t.start + |read|;
    && shown <= t.end <= |t.bytes| && read == t.bytes[t.start..shown]
    && next == (if shown == t.end && n > 0 then None else Some(shown))
    && (t.start < t.end ==> n <= |read|)
    && (t.start == t.end ==> n <= 1)
  }

  lemma {:induction false} OnePageMore(t: Target, n: nat, read: seq<Byte>, more: seq<Byte>, at: nat, shown: nat)
    requires HasRead(t, n, read, Some(at)) && at <= shown <= t.end && (at < t.end ==> at < shown)
    requires more == t.bytes[at..shown]
    ensures HasRead(t, n + 1, read + more, if shown == t.end then None else Some(shown))
  {
    JoinSlices(t.bytes, t.start, at, shown);
  }

  /** A page reads the bytes from `at` on; nothing but its rows and cursor matters. */
  lemma {:induction false} PageBytes(t: Target, at: nat, p: Page) returns (shown: nat, more: seq<Byte>)
    requires PageOf(t.bytes, at, t.end, t.handle, t.side, p)
    ensures at <= shown <= t.end <= |t.bytes| && (at < t.end ==> at < shown)
    ensures more == Read(p.rows) == t.bytes[at..shown]
    ensures p.next == Continuation(t.handle, t.side, shown, t.end)
  {
    RowsRead(t.bytes, at, t.end, p.rows);
    shown, more := ShownEnd(p.rows, at), Read(p.rows);
  }

  lemma {:induction false} ReadAllUnfolds(pages: seq<Page>)
    requires pages != []
    ensures ReadAll(pages) == ReadAll(pages[..|pages| - 1]) + Read(pages[|pages| - 1].rows)
  {
  }

  lemma {:induction false} FollowsUnfolds(t: Target, pages: seq<Page>) returns (at: nat)
    requires Follows(t, pages) && pages != []
    ensures var front := pages[..|pages| - 1];
            && Follows(t, front) && NextStart(t, front) == Some(at)
            && PageOf(t.bytes, at, t.end, t.handle, t.side, pages[|pages| - 1])
  {
    at := NextStart(t, pages[..|pages| - 1]).value;
  }

  lemma {:induction false} AddPage(t: Target, pages: seq<Page>, at: nat)
    requires Proper(t) && pages != [] && PageOf(t.bytes, at, t.end, t.handle, t.side, pages[|pages| - 1])
    requires HasRead(t, |pages| - 1, ReadAll(pages[..|pages| - 1]), Some(at))
    ensures HasRead(t, |pages|, ReadAll(pages), NextStart(t, pages))
  {
    var shown, more := PageBytes(t, at, pages[|pages| - 1]);
    NextAfter(t, pages, shown);
    ReadAllUnfolds(pages);
    OnePageMore(t, |pages| - 1, ReadAll(pages[..|pages| - 1]), more, at, shown);
  }

  /** Reading on from page to page shows the span's bytes exactly once and in order, stops
      exactly at its end, and takes no more pages than it has bytes. */
  lemma {:induction false} PagesReadSpanOnce(t: Target, pages: seq<Page>)
    requires Proper(t) && Follows(t, pages)
    ensures HasRead(t, |pages|, ReadAll(pages), NextStart(t, pages))
  {
    if pages != [] {
      var at := FollowsUnfolds(t, pages);
      PagesReadSpanOnce(t, pages[..|pages| - 1]);
      AddPage(t, pages, at);
    }
  }
}
