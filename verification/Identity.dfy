/** Immutable result addresses and their texts (src/identity.rs), the read-cursor
    grammar (src/source/acquisition.rs) and `base_handle` (src/cli/emitted_evidence.rs).

    A UUID is its 32 hexadecimal digits; its accepted spellings are the plain,
    hyphenated, braced and URN forms of the `uuid` crate. */
module Identity {
  import opened Basics
  import opened Text

  type Uuid = u: seq<Nibble> | |u| == 32 witness seq(32, i => 0)

  /** Lower-case digits: `Uuid::simple`. */
  function Simple(u: Uuid): (s: string)
    ensures |s| == 32 && forall i :: 0 <= i < 32 ==> s[i] == HexDigit(u[i])
  {
    seq(32, i requires 0 <= i < 32 => HexDigit(u[i]))
  }

  predicate AllHex(s: string) {
    forall i :: 0 <= i < |s| ==> IsHex(s[i])
  }

  function Nibbles(s: string): (r: seq<Nibble>)
    requires AllHex(s)
    ensures |r| == |s| && forall i :: 0 <= i < |s| ==> r[i] == HexValue(s[i]).value
  {
    seq(|s|, i requires 0 <= i < |s| => HexValue(s[i]).value)
  }

  function ParseSimple(s: string): Option<Uuid>
    requires |s| == 32
  {
    if AllHex(s) then Some(Nibbles(s)) else None
  }

  function ParseHyphenated(s: string): Option<Uuid>
    requires |s| == 36
  {
    if s[8] == '-' && s[13] == '-' && s[18] == '-' && s[23] == '-' then
      ParseSimple(s[..8] + s[9..13] + s[14..18] + s[19..23] + s[24..])
    else None
  }

  const URN := "urn:uuid:"

  /** `Uuid::parse_str` */
  function ParseUuid(s: string): Option<Uuid> {
    if |s| == 32 then ParseSimple(s)
    else if |s| == 36 then ParseHyphenated(s)
    else if |s| == 38 && s[0] == '{' && s[37] == '}' then ParseHyphenated(s[1..37])
    else if |s| == 45 && URN <= s then ParseHyphenated(s[9..])
    else None
  }

  lemma {:induction false} UuidReadsBack(u: Uuid)
    ensures ParseUuid(Simple(u)) == Some(u)
  {
    var s := Simple(u);
    forall i | 0 <= i < 32
      ensures HexValue(s[i]) == Some(u[i])
    {
      HexReadsBack(u[i]);
    }
    assert Nibbles(s) == u;
  }

  /** The hyphenated spelling. */
  function Hyphenated(u: Uuid): string {
    var s := Simple(u);
    s[..8] + "-" + s[8..12] + "-" + s[12..16] + "-" + s[16..20] + "-" + s[20..]
  }

  lemma {:induction false} HyphenatedReadsBack(u: Uuid)
    ensures |Hyphenated(u)| == 36 && ParseHyphenated(Hyphenated(u)) == Some(u)
  {
    var s, h := Simple(u), Hyphenated(u);
    assert h[..8] == s[..8] && h[9..13] == s[8..12] && h[14..18] == s[12..16];
    assert h[19..23] == s[16..20] && h[24..] == s[20..];
    assert h[..8] + h[9..13] + h[14..18] + h[19..23] + h[24..] == s;
    UuidReadsBack(u);
  }

  /** Every accepted spelling of an identifier reads back to it: plain, hyphenated, braced
      and as a URN. */
  lemma {:induction false} SpellingsReadBack(u: Uuid)
    ensures ParseUuid(Simple(u)) == Some(u)
    ensures ParseUuid(Hyphenated(u)) == Some(u)
    ensures ParseUuid("{" + Hyphenated(u) + "}") == Some(u)
    ensures ParseUuid("urn:uuid:" + Hyphenated(u)) == Some(u)
  {
    UuidReadsBack(u);
    HyphenatedReadsBack(u);
    var h := Hyphenated(u);
    var braced, urn := "{" + h + "}", "urn:uuid:" + h;
    assert |braced| == 38 && braced[1..37] == h;
    assert |urn| == 45 && urn[9..] == h && URN <= urn;
  }

  // ------------------------------------------------------------ handles and cursors

  datatype Handle = Handle(set_: Uuid, ordinal: nat)

  datatype Cursor = Cursor(set_: Uuid, offset: nat)

  function PrintHandle(h: Handle): string {
    Simple(h.set_) + ":" + Decimal(h.ordinal)
  }

  function ParseHandle(s: string): Option<Handle> {
    var parts := RSplitOnce(s, ':');
    if parts.None? then None
    else
      var u, n := ParseUuid(parts.value.0), ParseUsize(parts.value.1);
      if u.None? || n.None? || n.value == 0 then None else Some(Handle(u.value, n.value))
  }

  function PrintCursor(c: Cursor): string {
    Simple(c.set_) + "@" + Decimal(c.offset)
  }

  function ParseCursor(s: string): Option<Cursor> {
    var parts := RSplitOnce(s, '@');
    if parts.None? then None
    else
      var u, n := ParseUuid(parts.value.0), ParseUsize(parts.value.1);
      if u.None? || n.None? then None else Some(Cursor(u.value, n.value))
  }

  /** Parsing inverts printing for every positive ordinal; ordinal zero never parses. */
  lemma {:induction false} HandleReadsBack(h: Handle)
    requires h.ordinal <= USIZE_MAX
    ensures ParseHandle(PrintHandle(h)) == if h.ordinal > 0 then Some(h) else None
  {
    RSplitJoined(Simple(h.set_), ':', Decimal(h.ordinal));
    UuidReadsBack(h.set_);
    ParsePrinted(h.ordinal);
  }

  lemma {:induction false} CursorReadsBack(c: Cursor)
    requires c.offset <= USIZE_MAX
    ensures ParseCursor(PrintCursor(c)) == Some(c)
  {
    RSplitJoined(Simple(c.set_), '@', Decimal(c.offset));
    UuidReadsBack(c.set_);
    ParsePrinted(c.offset);
  }

  // ------------------------------------------------------------ what a handle looks like

  /** The characters a parseable handle is made of. */
  predicate HandleChar(c: char) {
    IsHex(c) || c in "-{}urnid:+"
  }

  lemma {:induction false} UuidChars(s: string, i: nat)
    requires ParseUuid(s).Some? && i < |s|
    ensures HandleChar(s[i])
  {
    if |s| == 36 {
      HyphenatedChars(s, i);
    } else if |s| == 38 {
      if 0 < i < 37 { HyphenatedChars(s[1..37], i - 1); }
    } else if |s| == 45 {
      if i >= 9 { HyphenatedChars(s[9..], i - 9); } else { assert s[i] == URN[i]; }
    }
  }

  lemma {:induction false} HyphenatedChars(s: string, i: nat)
    requires |s| == 36 && ParseHyphenated(s).Some? && i < 36
    ensures HandleChar(s[i])
  {
    var h := s[..8] + s[9..13] + s[14..18] + s[19..23] + s[24..];
    assert AllHex(h);
    if i < 8 { assert h[i] == s[i]; }
    else if 8 < i < 13 { assert h[i - 1] == s[i]; }
    else if 13 < i < 18 { assert h[i - 2] == s[i]; }
    else if 18 < i < 23 { assert h[i - 3] == s[i]; }
    else if 23 < i { assert h[i - 4] == s[i]; }
  }

  /** A parseable handle has no tab, line break, space or at sign. */
  lemma {:induction false} HandleChars(s: string, i: nat)
    requires ParseHandle(s).Some? && i < |s|
    ensures HandleChar(s[i])
  {
    var (set_, ordinal) := RSplitOnce(s, ':').value;
    if i < |set_| {
      UuidChars(set_, i);
    } else if i > |set_| {
      assert s[i] == ordinal[i - |set_| - 1];
      ParsedIsNumeric(ordinal, i - |set_| - 1);
    }
  }

  // ------------------------------------------------------------ read cursors

  datatype Side = Before | After

  function SideName(side: Side): string {
    match side case Before => "before" case After => "after"
  }

  function Suffix(side: Option<Side>): string {
    if side.None? then "" else ":" + SideName(side.value)
  }

  const READ := "read:"

  /** The `next` cursor of a source page. */
  function PrintRead(handle: string, side: Option<Side>, offset: nat): string {
    READ + handle + Suffix(side) + "@" + Decimal(offset)
  }

  /** Splits a trailing `:before` or `:after` off an address. */
  function TakeSide(s: string): (string, Option<Side>) {
    var parts := RSplitOnce(s, ':');
    if parts.Some? && parts.value.1 == "before" then (parts.value.0, Some(Before))
    else if parts.Some? && parts.value.1 == "after" then (parts.value.0, Some(After))
    else (s, None)
  }

  /** How `acquire` takes a read cursor apart. */
  function ParseRead(s: string): Option<(string, Option<Side>, nat)> {
    if !(READ <= s) then None
    else
      var parts := RSplitOnce(s[|READ|..], '@');
      if parts.None? then None
      else
        var offset := ParseUsize(parts.value.1);
        if offset.None? then None
        else var (handle, side) := TakeSide(parts.value.0); Some((handle, side, offset.value))
  }

  /** `base_handle` */
  function BaseHandle(target: string): Option<string> {
    var t := if READ <= target then target[|READ|..] else target;
    var at := RSplitOnce(t, '@');
    var h := TakeSide(if at.Some? then at.value.0 else t).0;
    if ParseHandle(h).Some? then Some(h) else None
  }

  /** The side comes off a parseable handle, and nothing comes off a bare one. */
  lemma {:induction false} SideComesOff(handle: string, side: Option<Side>)
    requires ParseHandle(handle).Some?
    ensures TakeSide(handle + Suffix(side)) == (handle, side)
  {
    if side.Some? {
      RSplitJoined(handle, ':', SideName(side.value));
      assert handle + Suffix(side) == handle + [':'] + SideName(side.value);
    } else {
      assert handle + Suffix(side) == handle;
      var ordinal := RSplitOnce(handle, ':').value.1;
      ParsedIsNumeric(ordinal, 0);
    }
  }

  lemma {:induction false} DropPrefix(prefix: string, s: string)
    ensures prefix <= prefix + s && (prefix + s)[|prefix|..] == s
  {
  }

  lemma {:induction false} ReadTail(handle: string, side: Option<Side>, offset: nat)
    ensures var s := PrintRead(handle, side, offset);
            READ <= s && RSplitOnce(s[|READ|..], '@') == Some((handle + Suffix(side), Decimal(offset)))
  {
    var address, digits := handle + Suffix(side), Decimal(offset);
    Regroup(READ, handle, Suffix(side));
    Regroup4(READ, address, "@", digits);
    DropPrefix(READ, address + "@" + digits);
    RSplitJoined(address, '@', digits);
  }

  /** What a source page prints as its continuation is what `acquire` reads. */
  lemma {:induction false} ReadCursorReadsBack(handle: string, side: Option<Side>, offset: nat)
    requires ParseHandle(handle).Some? && offset <= USIZE_MAX
    ensures ParseRead(PrintRead(handle, side, offset)) == Some((handle, side, offset))
  {
    ReadTail(handle, side, offset);
    ParsePrinted(offset);
    SideComesOff(handle, side);
  }

  /** `base_handle` recovers the handle from every cursor a source page prints. */
  lemma {:induction false} BaseOfReadCursor(handle: string, side: Option<Side>, offset: nat)
    requires ParseHandle(handle).Some?
    ensures BaseHandle(PrintRead(handle, side, offset)) == Some(handle)
  {
    ReadTail(handle, side, offset);
    SideComesOff(handle, side);
  }

  /** And a bare handle is its own base. */
  lemma {:induction false} BaseOfHandle(handle: string)
    requires ParseHandle(handle).Some?
    ensures BaseHandle(handle) == Some(handle)
  {
    var at := RSplitOnce(handle, '@');
    if at.Some? {
      HandleChars(handle, |at.value.0|);
    }
    HandleStart(handle);
    assert handle + Suffix(None) == handle;
    SideComesOff(handle, None);
  }

  /** A handle starts with a digit, a brace or the URN's `u`. */
  lemma {:induction false} HandleStart(handle: string)
    requires ParseHandle(handle).Some?
    ensures handle != "" && (IsHex(handle[0]) || handle[0] == '{' || handle[0] == 'u')
  {
    var set_ := RSplitOnce(handle, ':').value.0;
    assert handle[0] == set_[0];
    if |set_| == 36 {
      var h := set_[..8] + set_[9..13] + set_[14..18] + set_[19..23] + set_[24..];
      assert AllHex(h) && h[0] == set_[0];
    } else if |set_| == 45 {
      assert set_[0] == URN[0];
    }
  }
}
