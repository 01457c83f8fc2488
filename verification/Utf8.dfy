/** Well-formed UTF-8 byte sequences, as section 3.9 of the Unicode Standard tabulates
    them (table 3-7). */
module Utf8 {
  import opened Basics

  predicate Tail(b: Byte) {
    0x80 <= b <= 0xbf
  }

  /** Length of the well-formed character at the front, or zero when there is none. */
  function CharLength(s: seq<Byte>): (n: nat)
    requires s != []
    ensures n <= |s|
  {
    var b := s[0];
    if b < 0x80 then 1
    else if 0xc2 <= b <= 0xdf && |s| >= 2 && Tail(s[1]) then 2
    else if 0xe0 <= b <= 0xef && |s| >= 3 && Tail(s[1]) && Tail(s[2])
            && (b == 0xe0 ==> s[1] >= 0xa0) && (b == 0xed ==> s[1] <= 0x9f) then 3
    else if 0xf0 <= b <= 0xf4 && |s| >= 4 && Tail(s[1]) && Tail(s[2]) && Tail(s[3])
            && (b == 0xf0 ==> s[1] >= 0x90) && (b == 0xf4 ==> s[1] <= 0x8f) then 4
    else 0
  }

  predicate Valid(s: seq<Byte>)
    decreases |s|
  {
    s == [] || (CharLength(s) > 0 && Valid(s[CharLength(s)..]))
  }

  // ------------------------------------------------------------ what the table describes

  /** A code point that UTF-8 encodes: any but the surrogates. */
  predicate Scalar(c: int) {
    0 <= c < 0xd800 || 0xe000 <= c < 0x11_0000
  }

  /** The bytes of a code point, as section 3.9 distributes its bits (table 3-6). */
  function Encode(c: int): seq<int> {
    if c < 0x80 then [c]
    else if c < 0x800 then [0xc0 + c / 64, 0x80 + c % 64]
    else if c < 0x1_0000 then [0xe0 + c / 4096, 0x80 + c / 64 % 64, 0x80 + c % 64]
    else [0xf0 + c / 262144, 0x80 + c / 4096 % 64, 0x80 + c / 64 % 64, 0x80 + c % 64]
  }

  /** The digits of a number to base 64. */
  lemma {:induction false} Digits64(a: int, b: int, c: int, d: int)
    requires 0 <= b < 64 && 0 <= c < 64 && 0 <= d < 64 && 0 <= a
    ensures var n := 262144 * a + 4096 * b + 64 * c + d;
            n / 262144 == a && n / 4096 % 64 == b && n / 64 % 64 == c && n % 64 == d
  {
    var n := 262144 * a + 4096 * b + 64 * c + d;
    assert n / 64 == 4096 * a + 64 * b + c;
    assert n / 4096 == 64 * a + b;
  }

  lemma {:induction false} Divide(n: int)
    requires 0 <= n
    ensures n == 64 * (n / 64) + n % 64 && 0 <= n % 64 < 64 && 0 <= n / 64
  {
  }

  lemma {:induction false} Split64(n: int) returns (a: int, b: int, c: int, d: int)
    requires 0 <= n
    ensures 0 <= a && 0 <= b < 64 && 0 <= c < 64 && 0 <= d < 64
    ensures n == 262144 * a + 4096 * b + 64 * c + d
  {
    var m, k := n / 64, n / 64 / 64;
    Divide(n);
    Divide(m);
    Divide(k);
    a, b, c, d := k / 64, k % 64, m % 64, n % 64;
  }

  /** The number that the payload bits of up to four bytes spell. */
  function Spelled(a: int, b: int, c: int, d: int): int {
    262144 * a + 4096 * b + 64 * c + d
  }

  lemma {:induction false} EncodeSpelled(a: int, b: int, c: int, d: int)
    requires 0 <= b < 64 && 0 <= c < 64 && 0 <= d < 64 && 0 <= a
    ensures var n := Spelled(a, b, c, d);
            Encode(n) == if n < 0x80 then [n]
                         else if n < 0x800 then [0xc0 + c, 0x80 + d]
                         else if n < 0x1_0000 then [0xe0 + b, 0x80 + c, 0x80 + d]
                         else [0xf0 + a, 0x80 + b, 0x80 + c, 0x80 + d]
  {
    var n := Spelled(a, b, c, d);
    Digits64(a, b, c, d);
    assert n < 0x800 ==> a == 0 && b == 0 && n / 64 == c;
    assert n < 0x1_0000 ==> a == 0 && n / 4096 == b;
  }

  /** A well-formed character is the encoding of one scalar value. */
  lemma {:induction false} CharIsEncoded(s: seq<Byte>) returns (c: int)
    requires s != [] && CharLength(s) > 0
    ensures Scalar(c) && Encode(c) == s[..CharLength(s)]
  {
    var n, first: int := CharLength(s), s[0];
    if n == 1 {
      c := first;
    } else if n == 2 {
      var y: int := s[1];
      EncodeSpelled(0, 0, first - 0xc0, y - 0x80);
      c := Spelled(0, 0, first - 0xc0, y - 0x80);
    } else if n == 3 {
      var y: int, z: int := s[1], s[2];
      EncodeSpelled(0, first - 0xe0, y - 0x80, z - 0x80);
      c := Spelled(0, first - 0xe0, y - 0x80, z - 0x80);
    } else {
      var y: int, z: int, w: int := s[1], s[2], s[3];
      EncodeSpelled(first - 0xf0, y - 0x80, z - 0x80, w - 0x80);
      c := Spelled(first - 0xf0, y - 0x80, z - 0x80, w - 0x80);
    }
  }

  /** And the encoding of every scalar value is a well-formed character. */
  lemma {:induction false} EncodedIsChar(c: int, s: seq<Byte>)
    requires Scalar(c) && Encode(c) <= s
    ensures s != [] && CharLength(s) == |Encode(c)|
  {
    var x, y, z, w := Split64(c);
    EncodeSpelled(x, y, z, w);
    assert forall i :: 0 <= i < |Encode(c)| ==> s[i] == Encode(c)[i];
  }

  function EncodeAll(cs: seq<int>): seq<int> {
    if cs == [] then [] else Encode(cs[0]) + EncodeAll(cs[1..])
  }

  ghost predicate Scalars(cs: seq<int>) {
    forall i :: 0 <= i < |cs| ==> Scalar(cs[i])
  }

  lemma {:induction false} ValidDecodes(s: seq<Byte>) returns (cs: seq<int>)
    requires Valid(s)
    ensures Scalars(cs) && EncodeAll(cs) == s
    decreases |s|
  {
    if s == [] {
      cs := [];
    } else {
      var n := CharLength(s);
      var c := CharIsEncoded(s);
      var rest := ValidDecodes(s[n..]);
      cs := [c] + rest;
      assert cs[1..] == rest && s == s[..n] + s[n..];
    }
  }

  lemma {:induction false} EncodedIsValid(cs: seq<int>, s: seq<Byte>)
    requires Scalars(cs) && EncodeAll(cs) == s
    ensures Valid(s)
    decreases |cs|
  {
    if cs != [] {
      var n := |Encode(cs[0])|;
      EncodedIsChar(cs[0], s);
      assert s[n..] == EncodeAll(cs[1..]);
      EncodedIsValid(cs[1..], s[n..]);
    }
  }

  /** The bytes are valid if and only if they encode some sequence of scalar values. */
  lemma {:induction false} ValidExactly(s: seq<Byte>)
    ensures Valid(s) <==> exists cs :: Scalars(cs) && EncodeAll(cs) == s
  {
    if Valid(s) {
      var cs := ValidDecodes(s);
    }
    if cs :| Scalars(cs) && EncodeAll(cs) == s {
      EncodedIsValid(cs, s);
    }
  }

  lemma {:induction false} AsciiIsValid(s: seq<Byte>)
    requires forall i :: 0 <= i < |s| ==> s[i] < 0x80
    ensures Valid(s)
  {
    if s != [] {
      AsciiIsValid(s[1..]);
    }
  }
}
