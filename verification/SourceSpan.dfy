/** Line numbers and line ranges of a source buffer (src/source.rs). */
module SourceSpan {
  import opened Basics

  /** Newlines before position `i`. */
  function Breaks(bytes: seq<Byte>, i: nat): nat
    requires i <= |bytes|
  {
    if i == 0 then 0 else Breaks(bytes, i - 1) + (if bytes[i - 1] == NEWLINE then 1 else 0)
  }

  /** `line_at`: the one-based line holding `offset`, clamped to the buffer. */
  function LineAt(bytes: seq<Byte>, offset: nat): nat {
    1 + Breaks(bytes, Min(offset, |bytes|))
  }

  /** `line_span` */
  function LineSpan(bytes: seq<Byte>, start: nat, end: nat): (nat, nat) {
    (LineAt(bytes, start), LineAt(bytes, if end > start then end - 1 else start))
  }

  /** `s` is where line `n` starts. */
  ghost predicate StartsLine(bytes: seq<Byte>, s: nat, n: nat) {
    s <= |bytes| && (s == 0 || bytes[s - 1] == NEWLINE) && LineAt(bytes, s) == n
  }

  /** `e` is where line `n` ends, or the end of a buffer with fewer complete lines. */
  ghost predicate EndsLine(bytes: seq<Byte>, e: nat, n: nat) {
    && e <= |bytes|
    && ((e > 0 && bytes[e - 1] == NEWLINE && Breaks(bytes, e) == n)
        || (e == |bytes| && Breaks(bytes, e) < n))
  }

  lemma {:induction false} BreaksGrow(bytes: seq<Byte>, i: nat, j: nat)
    requires i <= j <= |bytes|
    ensures Breaks(bytes, i) <= Breaks(bytes, j)
  {
    if i < j {
      BreaksGrow(bytes, i, j - 1);
    }
  }

  /** No newline in between exactly when the counts agree. */
  lemma {:induction false} BreaksFlat(bytes: seq<Byte>, i: nat, j: nat)
    requires i <= j <= |bytes|
    ensures Breaks(bytes, i) == Breaks(bytes, j) <==> forall p :: i <= p < j ==> bytes[p] != NEWLINE
  {
    if i < j {
      BreaksFlat(bytes, i, j - 1);
      BreaksGrow(bytes, i, j - 1);
    }
  }

  /** `current_span`: the byte range of lines `first` through `last`, both inclusive. It
      fails exactly on a bad range or a first line past the end of the file. */
  method CurrentSpan(bytes: seq<Byte>, first: nat, last: nat) returns (r: Result<(nat, nat)>)
    ensures r.Err? <==> first == 0 || last < first || LineAt(bytes, |bytes|) < first
    ensures r.Ok? ==> r.value.0 <= r.value.1 && StartsLine(bytes, r.value.0, first) && EndsLine(bytes, r.value.1, last)
  {
    if first == 0 || last < first {
      return Err;
    }
    var line := 1;
    var start: Option<nat> := if first == 1 then Some(0) else None;
    var end := |bytes|;
    var i := 0;
    while i < |bytes|
      invariant 0 <= i <= |bytes| && end == |bytes| && line == 1 + Breaks(bytes, i) <= last
      invariant line < first ==> start.None?
      invariant first <= line ==> start.Some? && start.value <= i && StartsLine(bytes, start.value, first)
    {
      if bytes[i] == NEWLINE {
        if line == last {
          end := i + 1;
          BreaksGrow(bytes, end, |bytes|);
          break;
        }
        line := line + 1;
        if line == first {
          start := Some(i + 1);
        }
      }
      i := i + 1;
    }
    if start.None? {
      return Err;
    }
    r := Ok((start.value, end));
  }

  /** The range is the only one: a buffer has one start and one end of each line. */
  lemma {:induction false} SpanIsUnique(bytes: seq<Byte>, n: nat, a: nat, b: nat)
    ensures StartsLine(bytes, a, n) && StartsLine(bytes, b, n) ==> a == b
    ensures EndsLine(bytes, a, n) && EndsLine(bytes, b, n) ==> a == b
  {
    if a < b {
      OrderedUnique(bytes, n, a, b);
    } else if b < a {
      OrderedUnique(bytes, n, b, a);
    }
  }

  lemma {:induction false} OrderedUnique(bytes: seq<Byte>, n: nat, a: nat, b: nat)
    requires a < b
    ensures !(StartsLine(bytes, a, n) && StartsLine(bytes, b, n))
    ensures !(EndsLine(bytes, a, n) && EndsLine(bytes, b, n))
  {
    if b <= |bytes| {
      BreaksGrow(bytes, a, b - 1);
    }
  }

  /** For a nonempty range, `line_span` gives the requested lines back, with the last one
      clamped to the last line of the file. */
  lemma {:induction false} SpanReadsBack(bytes: seq<Byte>, first: nat, last: nat, s: nat, e: nat)
    requires StartsLine(bytes, s, first) && EndsLine(bytes, e, last) && s < e
    ensures LineSpan(bytes, s, e) == (first, Min(last, LineAt(bytes, |bytes| - 1)))
  {
    BreaksGrow(bytes, e - 1, |bytes| - 1);
  }

  /** And the lines of a nonempty span cover it with nothing to spare: the range starts at
      the last line start before it and ends at the first line end after it. */
  lemma {:induction false} LinesCoverSpan(bytes: seq<Byte>, start: nat, end: nat, s: nat, e: nat)
    requires start < end <= |bytes|
    requires StartsLine(bytes, s, LineSpan(bytes, start, end).0) && EndsLine(bytes, e, LineSpan(bytes, start, end).1)
    ensures s <= start && end <= e
    ensures forall p :: s <= p < start ==> bytes[p] != NEWLINE
    ensures forall p :: end - 1 <= p < e - 1 ==> bytes[p] != NEWLINE
  {
    if start < s {
      BreaksGrow(bytes, start, s - 1);
    }
    BreaksFlat(bytes, s, start);
    if e < end {
      BreaksGrow(bytes, e, end - 1);
    }
    BreaksGrow(bytes, end - 1, e - 1);
    BreaksFlat(bytes, end - 1, e - 1);
  }
}
