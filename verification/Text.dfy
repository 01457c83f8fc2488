/** The string operations the source takes from the standard library, and decimal numerals. */
module Text {
  import opened Basics

  const USIZE_MAX: nat := 0xFFFF_FFFF_FFFF_FFFF

  predicate Has(s: string, c: char) {
    exists i :: 0 <= i < |s| && s[i] == c
  }

  function First(s: string, c: char): (i: nat)
    ensures i <= |s|
    ensures forall k :: 0 <= k < i ==> s[k] != c
    ensures i < |s| ==> s[i] == c
  {
    if s == "" || s[0] == c then 0 else 1 + First(s[1..], c)
  }

  /** `rsplit_once(c)` */
  function RSplitOnce(s: string, c: char): (r: Option<(string, string)>)
    ensures r.Some? ==> s == r.value.0 + [c] + r.value.1 && !Has(r.value.1, c)
    ensures r.None? ==> !Has(s, c)
  {
    if s == "" then None
    else
      var last := |s| - 1;
      if s[last] == c then
        assert s == s[..last] + [c] + "";
        Some((s[..last], ""))
      else
        var r := RSplitOnce(s[..last], c);
        assert s == s[..last] + [s[last]];
        if r.None? then None
        else
          assert s == r.value.0 + [c] + (r.value.1 + [s[last]]);
          Some((r.value.0, r.value.1 + [s[last]]))
  }

  /** Splitting at the last `c` undoes joining around one when the right part has none. */
  lemma {:induction false} RSplitJoined(a: string, c: char, b: string)
    requires !Has(b, c)
    ensures RSplitOnce(a + [c] + b, c) == Some((a, b))
  {
    var s := a + [c] + b;
    if b == "" {
      assert s[..|s| - 1] == a;
    } else {
      var b0 := b[..|b| - 1];
      assert forall i :: 0 <= i < |b0| ==> b0[i] == b[i];
      assert s[..|s| - 1] == a + [c] + b0;
      assert b[|b| - 1] != c;
      RSplitJoined(a, c, b0);
      assert b0 + [b[|b| - 1]] == b;
    }
  }

  /** Concatenation regroups. */
  lemma {:induction false} Regroup(a: string, b: string, c: string)
    ensures a + b + c == a + (b + c)
  {
  }

  lemma {:induction false} Regroup4(a: string, b: string, c: string, d: string)
    ensures a + b + c + d == a + (b + c + d)
  {
  }

  // ------------------------------------------------------------ decimal numerals

  function Digit(n: nat): char
    requires n < 10
  {
    ("0123456789")[n]
  }

  function DigitValue(c: char): (r: Option<nat>)
    ensures r.Some? ==> r.value < 10 && Digit(r.value) == c
  {
    if '0' <= c <= '9' then Some((c as int) - ('0' as int)) else None
  }

  /** `Display` of an unsigned integer. */
  function Decimal(n: nat): (s: string)
    ensures s != ""
    ensures forall i :: 0 <= i < |s| ==> '0' <= s[i] <= '9'
  {
    if n < 10 then [Digit(n)] else Decimal(n / 10) + [Digit(n % 10)]
  }

  function Digits(s: string): Option<nat> {
    if s == "" then Some(0)
    else
      var front := Digits(s[..|s| - 1]);
      var d := DigitValue(s[|s| - 1]);
      if front.Some? && d.Some? then Some(front.value * 10 + d.value) else None
  }

  /** `str::parse::<usize>()`: an optional plus sign, digits, no overflow. */
  function ParseUsize(s: string): Option<nat> {
    var body := if s != "" && s[0] == '+' then s[1..] else s;
    if body == "" then None
    else
      var n := Digits(body);
      if n.Some? && n.value <= USIZE_MAX then n else None
  }

  lemma {:induction false} DigitReadsBack(n: nat)
    requires n < 10
    ensures DigitValue(Digit(n)) == Some(n)
  {
  }

  lemma {:induction false} DigitsOfDecimal(n: nat)
    ensures Digits(Decimal(n)) == Some(n)
  {
    if n < 10 {
      DigitsAppend("", n);
      assert "" + [Digit(n)] == Decimal(n);
    } else {
      DigitsOfDecimal(n / 10);
      DigitsAppend(Decimal(n / 10), n % 10);
    }
  }

  lemma {:induction false} DigitsAppend(s: string, d: nat)
    requires d < 10 && Digits(s).Some?
    ensures Digits(s + [Digit(d)]) == Some(Digits(s).value * 10 + d)
  {
    DigitReadsBack(d);
    var t := s + [Digit(d)];
    assert t[..|t| - 1] == s;
  }

  /** Printed numbers read back. */
  lemma {:induction false} ParsePrinted(n: nat)
    requires n <= USIZE_MAX
    ensures ParseUsize(Decimal(n)) == Some(n)
  {
    DigitsOfDecimal(n);
  }

  /** Only digits and a leading plus parse. */
  lemma {:induction false} ParsedIsNumeric(s: string, i: nat)
    requires ParseUsize(s).Some? && i < |s|
    ensures '0' <= s[i] <= '9' || s[i] == '+'
  {
    if s[0] == '+' {
      if i > 0 { DigitsAreDigits(s[1..], i - 1); }
    } else {
      DigitsAreDigits(s, i);
    }
  }

  lemma {:induction false} DigitsAreDigits(s: string, i: nat)
    requires Digits(s).Some? && i < |s|
    ensures '0' <= s[i] <= '9'
  {
    if i < |s| - 1 {
      DigitsAreDigits(s[..|s| - 1], i);
    }
  }

  // ------------------------------------------------------------ hexadecimal

  type Nibble = n: int | 0 <= n < 16

  function HexDigit(n: Nibble): char {
    ("0123456789abcdef")[n]
  }

  function HexValue(c: char): (r: Option<Nibble>)
    ensures r.Some? <==> IsHex(c)
  {
    if '0' <= c <= '9' then Some((c as int) - ('0' as int))
    else if 'a' <= c <= 'f' then Some((c as int) - ('a' as int) + 10)
    else if 'A' <= c <= 'F' then Some((c as int) - ('A' as int) + 10)
    else None
  }

  predicate IsHex(c: char) {
    '0' <= c <= '9' || 'a' <= c <= 'f' || 'A' <= c <= 'F'
  }

  lemma {:induction false} HexReadsBack(n: Nibble)
    ensures HexValue(HexDigit(n)) == Some(n)
  {
  }
}
