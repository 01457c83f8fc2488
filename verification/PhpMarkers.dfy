/** The PHP fact markers stored in relationship rows (src/extract/php_markers.rs). A parent
    name is the bytes of its UTF-8 encoding. */
module PhpMarkers {
  import opened Basics
  import opened Text
  import Utf8

  const MARKER_KIND := "__trufflepig_php_marker_v1"
  const PREFIX := "php_fact_v1:"

  /** Class roles and parent kinds. */
  datatype Role = Ordinary | Proxy | Unknown

  datatype Visibility = Public | Protected | Private | Unseen

  datatype Marker =
    | Class(role: Role, conditional: bool)
    | Parent(kind: Role, conditional: bool, name: Option<seq<Byte>>)
    | TraitUse(conditional: bool)
    | Method(visibility: Visibility, isAbstract: bool, conditional: bool)
    | ParentCall

  /** Names are strings, so their bytes are valid UTF-8. */
  predicate Valid(m: Marker) {
    m.Parent? && m.name.Some? ==> Utf8.Valid(m.name.value)
  }

  // ------------------------------------------------------------ fields

  /** `split(':')` */
  function Split(s: string): (r: seq<string>)
    ensures r != []
    decreases |s|
  {
    var n := First(s, ':');
    if n == |s| then [s] else [s[..n]] + Split(s[n + 1..])
  }

  function Join(fields: seq<string>): string
    requires fields != []
  {
    if |fields| == 1 then fields[0] else fields[0] + ":" + Join(fields[1..])
  }

  ghost predicate Plain(s: string) {
    forall i :: 0 <= i < |s| ==> s[i] != ':'
  }

  lemma {:induction false} FirstAfter(a: string, b: string)
    requires Plain(a)
    ensures First(a, ':') == |a|
    ensures First(a + ":" + b, ':') == |a|
  {
    var s := a + ":" + b;
    var n := First(s, ':');
    assert s[|a|] == ':';
    assert forall i :: 0 <= i < |a| ==> s[i] == a[i];
  }

  lemma {:induction false} SplitJoined(fields: seq<string>)
    requires fields != [] && forall i :: 0 <= i < |fields| ==> Plain(fields[i])
    ensures Split(Join(fields)) == fields
  {
    var a := fields[0];
    assert Plain(a);
    if |fields| == 1 {
      FirstAfter(a, "");
    } else {
      var b := Join(fields[1..]);
      FirstAfter(a, b);
      SplitJoined(fields[1..]);
      var s := a + ":" + b;
      assert s[..|a|] == a && s[|a| + 1..] == b;
    }
  }

  lemma {:induction false} JoinCons(a: string, rest: seq<string>)
    requires rest != []
    ensures Join([a] + rest) == a + ":" + Join(rest)
  {
    assert ([a] + rest)[1..] == rest;
  }

  lemma {:induction false} CutAt(s: string, n: nat)
    requires n < |s| && s[n] == ':'
    ensures s == s[..n] + ":" + s[n + 1..]
  {
  }

  lemma {:induction false} JoinSplit(s: string)
    ensures Join(Split(s)) == s
    decreases |s|
  {
    var n := First(s, ':');
    if n < |s| {
      JoinSplit(s[n + 1..]);
      JoinCons(s[..n], Split(s[n + 1..]));
      CutAt(s, n);
    }
  }

  // ------------------------------------------------------------ names, flags and hex

  function RoleName(r: Role): string {
    match r case Ordinary => "ordinary" case Proxy => "proxy" case Unknown => "unknown"
  }

  function ParseRole(s: string): Option<Role> {
    if s == "ordinary" then Some(Ordinary)
    else if s == "proxy" then Some(Proxy)
    else if s == "unknown" then Some(Unknown)
    else None
  }

  function VisibilityName(v: Visibility): string {
    match v
    case Public => "public"
    case Protected => "protected"
    case Private => "private"
    case Unseen => "unknown"
  }

  function ParseVisibility(s: string): Option<Visibility> {
    if s == "public" then Some(Public)
    else if s == "protected" then Some(Protected)
    else if s == "private" then Some(Private)
    else if s == "unknown" then Some(Unseen)
    else None
  }

  function Flag(b: bool): string {
    if b then "1" else "0"
  }

  function ParseFlag(s: string): Option<bool> {
    if s == "0" then Some(false) else if s == "1" then Some(true) else None
  }

  function Hex(bytes: seq<Byte>): string {
    if bytes == [] then "" else [HexDigit(bytes[0] / 16), HexDigit(bytes[0] % 16)] + Hex(bytes[1..])
  }

  /** Byte pairs of a text of even length, if all are hexadecimal. */
  function Unhex(s: string): Option<seq<Byte>>
    requires |s| % 2 == 0
  {
    if s == "" then Some([])
    else
      var high, low, rest := HexValue(s[0]), HexValue(s[1]), Unhex(s[2..]);
      if high.None? || low.None? || rest.None? then None else Some([16 * high.value + low.value] + rest.value)
  }

  function NameField(name: Option<seq<Byte>>): string {
    if name.None? then "-" else Hex(name.value)
  }

  /** `parse_hex`: absent, a name, or a failure. */
  function ParseName(s: string): Option<Option<seq<Byte>>> {
    if s == "-" then Some(None)
    else if |s| % 2 != 0 then None
    else
      var bytes := Unhex(s);
      if bytes.None? || !Utf8.Valid(bytes.value) then None else Some(Some(bytes.value))
  }

  lemma {:induction false} HexSnoc(bytes: seq<Byte>, b: Byte)
    ensures Hex(bytes + [b]) == Hex(bytes) + [HexDigit(b / 16), HexDigit(b % 16)]
  {
    if bytes == [] {
      assert bytes + [b] == [b];
      assert Hex([b]) == [HexDigit(b / 16), HexDigit(b % 16)] + Hex([]);
    } else {
      assert (bytes + [b])[1..] == bytes[1..] + [b];
      HexSnoc(bytes[1..], b);
    }
  }

  /** `push_hex` */
  method PushHex(payload: string, bytes: seq<Byte>) returns (r: string)
    ensures r == payload + Hex(bytes)
  {
    r := payload;
    for i := 0 to |bytes|
      invariant r == payload + Hex(bytes[..i])
    {
      HexSnoc(bytes[..i], bytes[i]);
      assert bytes[..i + 1] == bytes[..i] + [bytes[i]];
      r := r + [HexDigit(bytes[i] / 16), HexDigit(bytes[i] % 16)];
    }
    assert bytes[..|bytes|] == bytes;
  }

  lemma {:induction false} HexLength(bytes: seq<Byte>)
    ensures |Hex(bytes)| == 2 * |bytes|
  {
    if bytes != [] {
      HexLength(bytes[1..]);
    }
  }

  lemma {:induction false} HexPlain(bytes: seq<Byte>)
    ensures Plain(Hex(bytes))
  {
    if bytes != [] {
      HexPlain(bytes[1..]);
    }
  }

  lemma {:induction false} UnhexPair(b: Byte, rest: string)
    requires |rest| % 2 == 0 && Unhex(rest).Some?
    ensures Unhex([HexDigit(b / 16), HexDigit(b % 16)] + rest) == Some([b] + Unhex(rest).value)
  {
    var s := [HexDigit(b / 16), HexDigit(b % 16)] + rest;
    HexReadsBack(b / 16);
    HexReadsBack(b % 16);
    assert s[2..] == rest;
  }

  lemma {:induction false} UnhexHex(bytes: seq<Byte>)
    ensures |Hex(bytes)| % 2 == 0 && Unhex(Hex(bytes)) == Some(bytes)
  {
    HexLength(bytes);
    if bytes != [] {
      var b, rest := bytes[0], bytes[1..];
      UnhexHex(rest);
      UnhexPair(b, Hex(rest));
      assert [b] + rest == bytes;
    }
  }

  lemma {:induction false} NameReadsBack(name: Option<seq<Byte>>)
    requires name.Some? ==> Utf8.Valid(name.value)
    ensures ParseName(NameField(name)) == Some(name) && Plain(NameField(name))
  {
    if name.Some? {
      UnhexHex(name.value);
      HexPlain(name.value);
    }
  }

  // ------------------------------------------------------------ payloads

  function Fields(m: Marker): (r: seq<string>)
    ensures r != []
  {
    match m
    case Class(role, conditional) => ["class", RoleName(role), Flag(conditional)]
    case Parent(kind, conditional, name) => ["parent", RoleName(kind), Flag(conditional), NameField(name)]
    case TraitUse(conditional) => ["trait_use", Flag(conditional)]
    case Method(visibility, isAbstract, conditional) =>
      ["method", VisibilityName(visibility), Flag(isAbstract), Flag(conditional)]
    case ParentCall => ["parent_call"]
  }

  function Payload(m: Marker): string {
    PREFIX + Join(Fields(m))
  }

  function Parse(f: seq<string>): Option<Marker>
    requires f != []
  {
    if f[0] == "class" then
      if |f| != 3 then None
      else
        var role, conditional := ParseRole(f[1]), ParseFlag(f[2]);
        if role.None? || conditional.None? then None else Some(Class(role.value, conditional.value))
    else if f[0] == "parent" then
      if |f| != 4 then None
      else
        var kind, conditional, name := ParseRole(f[1]), ParseFlag(f[2]), ParseName(f[3]);
        if kind.None? || conditional.None? || name.None? then None
        else Some(Parent(kind.value, conditional.value, name.value))
    else if f[0] == "trait_use" then
      if |f| != 2 then None
      else var conditional := ParseFlag(f[1]); if conditional.None? then None else Some(TraitUse(conditional.value))
    else if f[0] == "method" then
      if |f| != 4 then None
      else
        var visibility, isAbstract, conditional := ParseVisibility(f[1]), ParseFlag(f[2]), ParseFlag(f[3]);
        if visibility.None? || isAbstract.None? || conditional.None? then None
        else Some(Method(visibility.value, isAbstract.value, conditional.value))
    else if f[0] == "parent_call" then if |f| != 1 then None else Some(ParentCall)
    else None
  }

  /** `decode_payload` */
  function Decode(payload: string): Option<Marker> {
    if !(PREFIX <= payload) then None else Parse(Split(payload[|PREFIX|..]))
  }

  lemma {:induction false} Join2(p: string, a: string, b: string)
    ensures p + Join([a, b]) == p + a + ":" + b
  {
    assert [a, b][1..] == [b];
    assert Join([a, b]) == a + ":" + b;
  }

  lemma {:induction false} Join3(p: string, a: string, b: string, c: string)
    ensures p + Join([a, b, c]) == p + a + ":" + b + ":" + c
  {
    assert [a, b, c][1..] == [b, c];
    Join2(a + ":", b, c);
    assert Join([a, b, c]) == a + ":" + b + ":" + c;
    assert p + (a + ":" + b + ":" + c) == p + a + ":" + b + ":" + c;
  }

  lemma {:induction false} Join4(p: string, a: string, b: string, c: string, d: string)
    ensures p + Join([a, b, c, d]) == p + a + ":" + b + ":" + c + ":" + d
  {
    assert [a, b, c, d][1..] == [b, c, d];
    Join3(a + ":", b, c, d);
    assert Join([a, b, c, d]) == a + ":" + b + ":" + c + ":" + d;
    assert p + (a + ":" + b + ":" + c + ":" + d) == p + a + ":" + b + ":" + c + ":" + d;
  }

  /** `encode_payload` */
  method Encode(m: Marker) returns (payload: string)
    ensures payload == Payload(m)
  {
    payload := PREFIX;
    match m {
      case Class(role, conditional) =>
        Join3(payload, "class", RoleName(role), Flag(conditional));
        payload := payload + "class" + ":" + RoleName(role);
        payload := payload + ":" + Flag(conditional);
      case Parent(kind, conditional, name) =>
        Join4(payload, "parent", RoleName(kind), Flag(conditional), NameField(name));
        payload := payload + "parent" + ":" + RoleName(kind);
        payload := payload + ":" + Flag(conditional);
        payload := payload + ":";
        if name.Some? {
          payload := PushHex(payload, name.value);
        } else {
          payload := payload + "-";
        }
      case TraitUse(conditional) =>
        Join2(payload, "trait_use", Flag(conditional));
        payload := payload + "trait_use" + ":" + Flag(conditional);
      case Method(visibility, isAbstract, conditional) =>
        Join4(payload, "method", VisibilityName(visibility), Flag(isAbstract), Flag(conditional));
        payload := payload + "method" + ":" + VisibilityName(visibility);
        payload := payload + ":" + Flag(isAbstract);
        payload := payload + ":" + Flag(conditional);
      case ParentCall =>
        payload := payload + "parent_call";
    }
  }

  // ------------------------------------------------------------ round trips

  lemma {:induction false} PlainNames(r: Role, v: Visibility, b: bool)
    ensures Plain(RoleName(r)) && Plain(VisibilityName(v)) && Plain(Flag(b))
    ensures Plain("class") && Plain("parent") && Plain("trait_use") && Plain("method") && Plain("parent_call")
  {
  }

  lemma {:induction false} FieldsPlain(m: Marker, i: nat)
    requires Valid(m) && i < |Fields(m)|
    ensures Plain(Fields(m)[i])
  {
    PlainNames(
      if m.Class? then m.role else if m.Parent? then m.kind else Unknown,
      if m.Method? then m.visibility else Unseen,
      if m.ParentCall? then false else m.conditional);
    if m.Method? {
      PlainNames(Unknown, Unseen, m.isAbstract);
    }
    if m.Parent? {
      NameReadsBack(m.name);
    }
  }

  lemma {:induction false} FieldsReadBack(m: Marker)
    requires Valid(m)
    ensures Parse(Fields(m)) == Some(m)
  {
    if m.Parent? {
      NameReadsBack(m.name);
    }
  }

  lemma {:induction false} AfterPrefix(s: string)
    ensures PREFIX <= PREFIX + s && (PREFIX + s)[|PREFIX|..] == s
  {
  }

  /** Every marker reads back from its payload: absent, empty and arbitrary parent names. */
  lemma {:induction false} PayloadReadsBack(m: Marker)
    requires Valid(m)
    ensures Decode(Payload(m)) == Some(m)
  {
    forall i | 0 <= i < |Fields(m)|
      ensures Plain(Fields(m)[i])
    {
      FieldsPlain(m, i);
    }
    SplitJoined(Fields(m));
    AfterPrefix(Join(Fields(m)));
    FieldsReadBack(m);
  }

  /** So different markers have different payloads. */
  lemma {:induction false} PayloadsDiffer(a: Marker, b: Marker)
    requires Valid(a) && Valid(b) && Payload(a) == Payload(b)
    ensures a == b
  {
    PayloadReadsBack(a);
    PayloadReadsBack(b);
  }

  // ------------------------------------------------------------ re-encoding

  function LowerHexLetter(c: char): char {
    if 'A' <= c <= 'F' then (((c as int) - ('A' as int)) + ('a' as int)) as char else c
  }

  function Lowered(s: string): (r: string)
    ensures |r| == |s| && forall i :: 0 <= i < |s| ==> r[i] == LowerHexLetter(s[i])
  {
    seq(|s|, i requires 0 <= i < |s| => LowerHexLetter(s[i]))
  }

  function LoweredAll(f: seq<string>): (r: seq<string>)
    ensures |r| == |f| && forall i :: 0 <= i < |f| ==> r[i] == Lowered(f[i])
  {
    seq(|f|, i requires 0 <= i < |f| => Lowered(f[i]))
  }

  lemma {:induction false} LoweredJoins(a: string, b: string)
    ensures Lowered(a + b) == Lowered(a) + Lowered(b)
  {
  }

  lemma {:induction false} LoweredJoin(f: seq<string>)
    requires f != []
    ensures Lowered(Join(f)) == Join(LoweredAll(f))
  {
    if |f| > 1 {
      LoweredJoin(f[1..]);
      assert LoweredAll(f)[1..] == LoweredAll(f[1..]);
    }
  }

  lemma {:induction false} DigitIsLower(n: Nibble)
    ensures HexDigit(n) < 'A' || HexDigit(n) > 'F'
  {
  }

  lemma {:induction false} HexDigitBack(c: char, n: Nibble)
    requires HexValue(c) == Some(n)
    ensures HexDigit(n) == LowerHexLetter(c)
  {
    HexReadsBack(n);
    DigitIsLower(n);
  }

  lemma {:induction false} PairBack(x: int, y: int)
    requires 0 <= x < 16 && 0 <= y < 16
    ensures (16 * x + y) / 16 == x && (16 * x + y) % 16 == y
  {
  }

  lemma {:induction false} UnhexParts(s: string) returns (x: int, y: int, rest: seq<Byte>)
    requires |s| % 2 == 0 && s != "" && Unhex(s).Some?
    ensures 0 <= x < 16 && 0 <= y < 16 && Unhex(s[2..]) == Some(rest) && Unhex(s).value == [16 * x + y] + rest
    ensures HexValue(s[0]) == Some(x) && HexValue(s[1]) == Some(y)
  {
    x, y, rest := HexValue(s[0]).value, HexValue(s[1]).value, Unhex(s[2..]).value;
  }

  lemma {:induction false} HexUnhex(s: string)
    requires |s| % 2 == 0 && Unhex(s).Some?
    ensures Hex(Unhex(s).value) == Lowered(s)
  {
    if s != "" {
      var x, y, rest := UnhexParts(s);
      HexUnhex(s[2..]);
      HexOne(16 * x + y, rest);
      PairBack(x, y);
      HexDigitBack(s[0], x);
      HexDigitBack(s[1], y);
      LoweredPair(s);
    }
  }

  lemma {:induction false} HexOne(b: Byte, rest: seq<Byte>)
    ensures Hex([b] + rest) == [HexDigit(b / 16), HexDigit(b % 16)] + Hex(rest)
  {
    assert ([b] + rest)[1..] == rest;
  }

  lemma {:induction false} LoweredPair(s: string)
    requires |s| >= 2
    ensures Lowered(s) == [LowerHexLetter(s[0]), LowerHexLetter(s[1])] + Lowered(s[2..])
  {
  }

  lemma {:induction false} RolesAreLower(r: Role)
    ensures Lowered(RoleName(r)) == RoleName(r)
  {
  }

  lemma {:induction false} VisibilitiesAreLower(v: Visibility)
    ensures Lowered(VisibilityName(v)) == VisibilityName(v)
  {
  }

  lemma {:induction false} KeywordsAreLower()
    ensures Lowered("0") == "0" && Lowered("1") == "1" && Lowered("-") == "-"
    ensures Lowered("class") == "class" && Lowered("parent") == "parent" && Lowered("trait_use") == "trait_use"
    ensures Lowered("method") == "method" && Lowered("parent_call") == "parent_call"
  {
  }

  lemma {:induction false} PrefixIsLower()
    ensures Lowered(PREFIX) == PREFIX
  {
  }

  lemma {:induction false} NameWritesBack(s: string)
    requires ParseName(s).Some?
    ensures NameField(ParseName(s).value) == Lowered(s)
    ensures ParseName(s).value.Some? ==> Utf8.Valid(ParseName(s).value.value)
  {
    if s != "-" {
      HexUnhex(s);
    }
  }

  lemma {:induction false} RoleWritesBack(s: string)
    requires ParseRole(s).Some?
    ensures RoleName(ParseRole(s).value) == Lowered(s)
  {
    RolesAreLower(ParseRole(s).value);
  }

  lemma {:induction false} VisibilityWritesBack(s: string)
    requires ParseVisibility(s).Some?
    ensures VisibilityName(ParseVisibility(s).value) == Lowered(s)
  {
    VisibilitiesAreLower(ParseVisibility(s).value);
  }

  lemma {:induction false} FlagWritesBack(s: string)
    requires ParseFlag(s).Some?
    ensures Flag(ParseFlag(s).value) == Lowered(s)
  {
    KeywordsAreLower();
  }

  lemma {:induction false} FieldsWriteBack(f: seq<string>)
    requires f != [] && Parse(f).Some?
    ensures Fields(Parse(f).value) == LoweredAll(f) && Valid(Parse(f).value)
  {
    KeywordsAreLower();
    match Parse(f).value
    case Class(_, _) =>
      RoleWritesBack(f[1]);
      FlagWritesBack(f[2]);
    case Parent(_, _, _) =>
      RoleWritesBack(f[1]);
      FlagWritesBack(f[2]);
      NameWritesBack(f[3]);
    case TraitUse(_) =>
      FlagWritesBack(f[1]);
    case Method(_, _, _) =>
      VisibilityWritesBack(f[1]);
      FlagWritesBack(f[2]);
      FlagWritesBack(f[3]);
    case ParentCall =>
  }

  /** Re-encoding a decoded payload changes nothing but the case of hexadecimal letters. */
  lemma {:induction false} ReencodingLowersHex(payload: string)
    requires Decode(payload).Some?
    ensures Valid(Decode(payload).value) && Payload(Decode(payload).value) == Lowered(payload)
  {
    var rest := payload[|PREFIX|..];
    FieldsWriteBack(Split(rest));
    LoweredJoin(Split(rest));
    JoinSplit(rest);
    PrefixIsLower();
    assert payload == PREFIX + rest;
    LoweredJoins(PREFIX, rest);
  }

  // ------------------------------------------------------------ relationship rows

  datatype Decoded = Decoded(source: int, target: Option<int>, start: int, end: int, marker: Marker)

  predicate NeedsTarget(m: Marker) {
    m.Method? || m.ParentCall?
  }

  /** `decode_fields` */
  function DecodeFields(
    kind: string, provenance: string, source: int, target: Option<int>, start: int, end: int): Option<Decoded>
  {
    if kind != MARKER_KIND || source <= 0 || start < 0 || end < start then None
    else
      var m := Decode(provenance);
      if m.None? || target.Some? != NeedsTarget(m.value) then None
      else Some(Decoded(source, target, start, end, m.value))
  }

  /** A stored marker row reads back exactly when its identifiers, span and target are in order. */
  lemma {:induction false} RowReadsBack(m: Marker, source: int, target: Option<int>, start: int, end: int)
    requires Valid(m)
    ensures DecodeFields(MARKER_KIND, Payload(m), source, target, start, end)
         == if source > 0 && 0 <= start <= end && (target.Some? <==> m.Method? || m.ParentCall?)
            then Some(Decoded(source, target, start, end, m)) else None
  {
    PayloadReadsBack(m);
  }
}
