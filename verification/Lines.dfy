/** Byte buffers as lines that keep their terminator: what
    `split_inclusive(|b| b == b'\n')` yields throughout the source. */
module Lines {
  import opened Basics

  /** Position just after the first newline, or the length when there is none. */
  function FirstEnd(source: seq<Byte>): (n: nat)
    ensures n <= |source|
    ensures source != [] ==> n > 0
    ensures forall p :: 0 <= p < n - 1 ==> source[p] != NEWLINE
    ensures n < |source| ==> n > 0 && source[n - 1] == NEWLINE
  {
    if source == [] then 0
    else if source[0] == NEWLINE then 1
    else 1 + FirstEnd(source[1..])
  }

  /** The lines of `source`, each with its terminator. */
  function Split(source: seq<Byte>): seq<seq<Byte>>
    decreases |source|
  {
    if source == [] then []
    else [source[..FirstEnd(source)]] + Split(source[FirstEnd(source)..])
  }

  /** A line without its terminator. */
  function Stripped(line: seq<Byte>): seq<Byte> {
    if line != [] && line[|line| - 1] == NEWLINE then line[..|line| - 1] else line
  }

  /** Nothing is lost: joining the lines gives the source back. */
  lemma {:induction false} SplitJoins(source: seq<Byte>)
    ensures Concat(Split(source)) == source
    decreases |source|
  {
    if source != [] {
      var n := FirstEnd(source);
      SplitJoins(source[n..]);
      JoinsOn(source, n, Split(source[n..]));
    }
  }

  lemma {:induction false} JoinsOn(source: seq<Byte>, n: nat, rest: seq<seq<Byte>>)
    requires n <= |source| && Concat(rest) == source[n..]
    ensures Concat([source[..n]] + rest) == source
  {
    ConcatOne(source[..n], rest);
    assert source[..n] + source[n..] == source;
  }

  lemma {:induction false} ConcatOne(line: seq<Byte>, rest: seq<seq<Byte>>)
    ensures Concat([line] + rest) == line + Concat(rest)
  {
    assert ([line] + rest)[1..] == rest;
  }

  /** `offsets` are the positions where the lines of `source` start, and its end. */
  ghost predicate Starts(source: seq<Byte>, offsets: seq<nat>) {
    && offsets != [] && offsets[0] == 0 && offsets[|offsets| - 1] == |source|
    && (forall j, k :: 0 <= j < k < |offsets| ==> offsets[j] < offsets[k])
    && (forall k :: 0 < k < |offsets| - 1 ==> source[offsets[k] - 1] == NEWLINE)
    && (forall p :: 0 <= p < |source| && Breaks(source, p) ==> p + 1 in offsets)
  }

  predicate Breaks(source: seq<Byte>, p: nat)
    requires p < |source|
  {
    source[p] == NEWLINE
  }

  /** The first line ends at the second start. */
  lemma {:induction false} StartsFirst(source: seq<Byte>, offsets: seq<nat>)
    requires Starts(source, offsets) && source != []
    ensures |offsets| > 1 && offsets[1] == FirstEnd(source)
  {
    var n := FirstEnd(source);
    if source[n - 1] == NEWLINE {
      assert Breaks(source, n - 1);
      var k :| 0 <= k < |offsets| && offsets[k] == n;
    }
    if 1 < |offsets| - 1 {
      assert source[offsets[1] - 1] == NEWLINE;
    }
  }

  function Shifted(offsets: seq<nat>, n: nat): (r: seq<nat>)
    requires |offsets| > 1 && forall k :: 1 <= k < |offsets| ==> offsets[k] >= n
    ensures |r| == |offsets| - 1
    ensures forall k {:trigger r[k]} :: 0 <= k < |r| ==> r[k] == offsets[k + 1] - n
  {
    seq(|offsets| - 1, k requires 0 <= k < |offsets| - 1 => offsets[k + 1] - n)
  }

  /** The starts of the part after the first line. */
  lemma {:induction false} StartsTail(source: seq<Byte>, offsets: seq<nat>)
    requires Starts(source, offsets) && source != []
    ensures |offsets| > 1 && forall k :: 1 <= k < |offsets| ==> offsets[k] >= FirstEnd(source)
    ensures Starts(source[FirstEnd(source)..], Shifted(offsets, FirstEnd(source)))
  {
    StartsFirst(source, offsets);
    var n := FirstEnd(source);
    var rest, shifted := source[n..], Shifted(offsets, n);
    forall p | 0 <= p < |rest| && Breaks(rest, p)
      ensures p + 1 in shifted
    {
      assert Breaks(source, n + p);
      var k :| 0 <= k < |offsets| && offsets[k] == n + p + 1;
      assert shifted[k - 1] == p + 1;
    }
  }

  lemma {:induction false} StartsCount(source: seq<Byte>, offsets: seq<nat>)
    requires Starts(source, offsets)
    ensures |Split(source)| == |offsets| - 1
    decreases |source|
  {
    if source != [] {
      StartsTail(source, offsets);
      StartsCount(source[FirstEnd(source)..], Shifted(offsets, FirstEnd(source)));
      SplitUnfolds(source);
    }
  }

  /** Line `k` of `lines` lies between starts `k` and `k + 1` of `source`. */
  ghost predicate LineLies(source: seq<Byte>, lines: seq<seq<Byte>>, offsets: seq<nat>, k: nat) {
    && k + 1 < |offsets| && offsets[k] <= offsets[k + 1] <= |source|
    && k < |lines| && lines[k] == source[offsets[k]..offsets[k + 1]]
  }

  lemma {:induction false} FirstLineLies(source: seq<Byte>, offsets: seq<nat>)
    requires Starts(source, offsets) && source != []
    ensures LineLies(source, Split(source), offsets, 0)
  {
    StartsFirst(source, offsets);
    SplitUnfolds(source);
  }

  /** A later line is a line of what follows the first. */
  lemma {:induction false} LaterLineLies(
    source: seq<Byte>, n: nat, line: seq<Byte>, rest: seq<seq<Byte>>, offsets: seq<nat>, shifted: seq<nat>, k: nat)
    requires n <= |source| && 0 < k < |offsets| - 1 && |shifted| == |offsets| - 1
    requires shifted[k - 1] + n == offsets[k] && shifted[k] + n == offsets[k + 1]
    requires LineLies(source[n..], rest, shifted, k - 1)
    ensures LineLies(source, [line] + rest, offsets, k)
  {
    SliceOfTail(source, n, shifted[k - 1], shifted[k]);
  }

  lemma {:induction false} StartsGiveLine(source: seq<Byte>, offsets: seq<nat>, k: nat)
    requires Starts(source, offsets) && k < |offsets| - 1
    ensures LineLies(source, Split(source), offsets, k)
    decreases |source|
  {
    StartsInside(source, offsets, k);
    if k == 0 {
      FirstLineLies(source, offsets);
    } else {
      var shifted := StartsShift(source, offsets, k);
      var n := FirstEnd(source);
      StartsGiveLine(source[n..], shifted, k - 1);
      LaterLineLies(source, n, source[..n], Split(source[n..]), offsets, shifted, k);
    }
  }

  lemma {:induction false} StartsShift(source: seq<Byte>, offsets: seq<nat>, k: nat) returns (shifted: seq<nat>)
    requires Starts(source, offsets) && 0 < k < |offsets| - 1 && source != []
    ensures |shifted| == |offsets| - 1 && Starts(source[FirstEnd(source)..], shifted)
    ensures shifted[k - 1] + FirstEnd(source) == offsets[k] && shifted[k] + FirstEnd(source) == offsets[k + 1]
  {
    StartsTail(source, offsets);
    shifted := Shifted(offsets, FirstEnd(source));
  }

  lemma {:induction false} StartsInside(source: seq<Byte>, offsets: seq<nat>, k: nat)
    requires Starts(source, offsets) && k < |offsets| - 1
    ensures source != [] && offsets[k] < offsets[k + 1] <= |source|
  {
    var last := |offsets| - 1;
    assert offsets[k] < offsets[k + 1];
    if k + 1 < last {
      assert offsets[k + 1] < offsets[last];
    }
  }

  /** Line `k` is the slice between starts `k` and `k + 1`, and there are no other lines. */
  lemma {:induction false} StartsGiveLines(source: seq<Byte>, offsets: seq<nat>)
    requires Starts(source, offsets)
    ensures |Split(source)| == |offsets| - 1
    ensures forall k {:trigger Split(source)[k]} :: 0 <= k < |offsets| - 1 ==> Split(source)[k] == source[offsets[k]..offsets[k + 1]]
  {
    StartsCount(source, offsets);
    forall k | 0 <= k < |offsets| - 1
      ensures Split(source)[k] == source[offsets[k]..offsets[k + 1]]
    {
      StartsGiveLine(source, offsets, k);
    }
  }

  lemma {:induction false} SplitUnfolds(source: seq<Byte>)
    requires source != []
    ensures var n := FirstEnd(source);
            && |Split(source)| == |Split(source[n..])| + 1
            && Split(source)[0] == source[..n]
            && forall k {:trigger Split(source)[k]} :: 0 < k < |Split(source)| ==> Split(source)[k] == Split(source[n..])[k - 1]
  {
  }

  lemma {:induction false} SliceOfTail(source: seq<Byte>, n: nat, i: nat, j: nat)
    requires n <= |source| && i <= j <= |source| - n
    ensures source[n..][i..j] == source[n + i..n + j]
  {
  }
}
