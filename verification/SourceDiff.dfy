/** Line-level source diffs over original bytes (src/history/source_diff.rs). */
module SourceDiff {
  import opened Basics
  import Lines

  type Line = seq<Byte>

  /** One hunk of the diff algorithm, in line numbers. */
  datatype Hunk = Hunk(before: Range, after: Range)

  datatype Change = Change(beforeBytes: Range, afterBytes: Range, before: Range, after: Range)

  datatype Run = Run(before: Range, after: Range)

  /** `changes`, and `kept` for the source's `unchanged_lines`. */
  datatype Diff = Diff(changes: seq<Change>, kept: seq<Run>)

  // ------------------------------------------------------------ line offsets

  method LineOffsets(source: seq<Byte>) returns (offsets: seq<nat>)
    ensures Lines.Starts(source, offsets)
  {
    offsets := [0];
    for index := 0 to |source|
      invariant offsets != [] && offsets[0] == 0 && offsets[|offsets| - 1] <= index
      invariant forall j, k :: 0 <= j < k < |offsets| ==> offsets[j] < offsets[k]
      invariant forall k :: 0 < k < |offsets| ==> 0 < offsets[k] <= index && source[offsets[k] - 1] == NEWLINE
      invariant forall p :: 0 <= p < index && Lines.Breaks(source, p) ==> p + 1 in offsets
    {
      if source[index] == NEWLINE {
        offsets := offsets + [index + 1];
        assert offsets[|offsets| - 1] == index + 1;
      }
    }
    if offsets[|offsets| - 1] != |source| {
      offsets := offsets + [|source|];
    }
  }

  // ------------------------------------------------------------ what a hunk list means

  /** Where hunk `i`'s predecessor ends in the old file. */
  function OldEnd(hunks: seq<Hunk>, i: nat): nat
    requires i <= |hunks|
  {
    if i == 0 then 0 else hunks[i - 1].before.end
  }

  /** Where hunk `i`'s predecessor ends in the new file. */
  function NewEnd(hunks: seq<Hunk>, i: nat): nat
    requires i <= |hunks|
  {
    if i == 0 then 0 else hunks[i - 1].after.end
  }

  /** The gap before hunk `i`, or after the last hunk. */
  function Gap(hunks: seq<Hunk>, i: nat, oldLines: nat, newLines: nat): Run
    requires i <= |hunks|
  {
    if i < |hunks| then
      Run(Range(OldEnd(hunks, i), hunks[i].before.start), Range(NewEnd(hunks, i), hunks[i].after.start))
    else Run(Range(OldEnd(hunks, i), oldLines), Range(NewEnd(hunks, i), newLines))
  }

  ghost predicate GapMatches(before: seq<Line>, after: seq<Line>, g: Run) {
    && g.before.start <= g.before.end <= |before| && g.after.start <= g.after.end <= |after|
    && g.before.end - g.before.start == g.after.end - g.after.start
    && forall l :: g.before.start <= l < g.before.end ==> before[l] == after[l - g.before.start + g.after.start]
  }

  ghost predicate InRange(before: seq<Line>, after: seq<Line>, hunks: seq<Hunk>) {
    forall i :: 0 <= i < |hunks| ==>
      && hunks[i].before.start <= hunks[i].before.end <= |before|
      && hunks[i].after.start <= hunks[i].after.end <= |after|
  }

  /** Ascending hunks inside both files whose gaps pair equal lines. */
  ghost predicate Matching(before: seq<Line>, after: seq<Line>, hunks: seq<Hunk>) {
    && InRange(before, after, hunks)
    && forall i :: 0 <= i <= |hunks| ==> GapMatches(before, after, Gap(hunks, i, |before|, |after|))
  }

  // ------------------------------------------------------------ diff_interned

  function ChangeOf(h: Hunk, oldOffsets: seq<nat>, newOffsets: seq<nat>): Change
    requires h.before.start < |oldOffsets| && h.before.end < |oldOffsets|
    requires h.after.start < |newOffsets| && h.after.end < |newOffsets|
  {
    Change(Range(oldOffsets[h.before.start], oldOffsets[h.before.end]),
           Range(newOffsets[h.after.start], newOffsets[h.after.end]), h.before, h.after)
  }

  /** The nonempty gaps among the first `i`. */
  function KeptRuns(hunks: seq<Hunk>, i: nat, oldLines: nat, newLines: nat): seq<Run>
    requires i <= |hunks| + 1
  {
    if i == 0 then []
    else
      var g := Gap(hunks, i - 1, oldLines, newLines);
      var runs := KeptRuns(hunks, i - 1, oldLines, newLines);
      if g.before.start < g.before.end then runs + [g] else runs
  }

  lemma {:induction false} KeptOneMore(hunks: seq<Hunk>, i: nat, oldLines: nat, newLines: nat)
    requires i <= |hunks|
    ensures var g := Gap(hunks, i, oldLines, newLines);
            KeptRuns(hunks, i + 1, oldLines, newLines)
              == KeptRuns(hunks, i, oldLines, newLines) + if g.before.start < g.before.end then [g] else []
  {
  }

  /** Indexes a diff: one change per hunk, one run per nonempty gap. */
  method DiffInterned(before: seq<Line>, after: seq<Line>, hunks: seq<Hunk>, oldOffsets: seq<nat>, newOffsets: seq<nat>)
    returns (r: Diff)
    requires InRange(before, after, hunks)
    requires |oldOffsets| == |before| + 1 && |newOffsets| == |after| + 1
    ensures |r.changes| == |hunks|
    ensures forall i :: 0 <= i < |hunks| ==> r.changes[i] == ChangeOf(hunks[i], oldOffsets, newOffsets)
    ensures r.kept == KeptRuns(hunks, |hunks| + 1, |before|, |after|)
  {
    r := Diff([], []);
    var oldEnd, newEnd := 0, 0;
    for i := 0 to |hunks|
      invariant oldEnd == OldEnd(hunks, i) && newEnd == NewEnd(hunks, i)
      invariant |r.changes| == i
      invariant forall k :: 0 <= k < i ==> r.changes[k] == ChangeOf(hunks[k], oldOffsets, newOffsets)
      invariant r.kept == KeptRuns(hunks, i, |before|, |after|)
    {
      var h := hunks[i];
      KeptOneMore(hunks, i, |before|, |after|);
      if oldEnd < h.before.start {
        r := r.(kept := r.kept + [Run(Range(oldEnd, h.before.start), Range(newEnd, h.after.start))]);
      }
      oldEnd, newEnd := h.before.end, h.after.end;
      r := r.(changes := r.changes + [ChangeOf(h, oldOffsets, newOffsets)]);
    }
    KeptOneMore(hunks, |hunks|, |before|, |after|);
    if oldEnd < |before| {
      r := r.(kept := r.kept + [Run(Range(oldEnd, |before|), Range(newEnd, |after|))]);
    }
  }

  // ------------------------------------------------------------ tiling

  ghost predicate Changed(hunks: seq<Hunk>, i: nat, line: nat)
    requires i <= |hunks|
  {
    exists k :: 0 <= k < i && hunks[k].before.Contains(line)
  }

  ghost predicate ChangedNew(hunks: seq<Hunk>, i: nat, line: nat)
    requires i <= |hunks|
  {
    exists k :: 0 <= k < i && hunks[k].after.Contains(line)
  }

  ghost predicate Kept(runs: seq<Run>, line: nat) {
    exists k :: 0 <= k < |runs| && runs[k].before.Contains(line)
  }

  ghost predicate KeptNew(runs: seq<Run>, line: nat) {
    exists k :: 0 <= k < |runs| && runs[k].after.Contains(line)
  }

  /** Runs ascend in both files without touching earlier ones, and none is empty. */
  ghost predicate Ascending(runs: seq<Run>) {
    && (forall k :: 0 <= k < |runs| ==>
          && runs[k].before.start < runs[k].before.end
          && runs[k].before.end - runs[k].before.start == runs[k].after.end - runs[k].after.start)
    && forall j, k :: 0 <= j < k < |runs| ==>
         runs[j].before.end <= runs[k].before.start && runs[j].after.end <= runs[k].after.start
  }

  /** The runs of the first `i` gaps pair equal lines and lie below gap `i`. */
  lemma {:induction false} RunsMatch(before: seq<Line>, after: seq<Line>, hunks: seq<Hunk>, i: nat, k: nat)
    requires Matching(before, after, hunks) && i <= |hunks| + 1
    requires k < |KeptRuns(hunks, i, |before|, |after|)|
    ensures var run := KeptRuns(hunks, i, |before|, |after|)[k];
            && GapMatches(before, after, run) && run.before.start < run.before.end
            && (i <= |hunks| ==> run.before.end <= OldEnd(hunks, i) && run.after.end <= NewEnd(hunks, i))
  {
    var g := Gap(hunks, i - 1, |before|, |after|);
    assert GapMatches(before, after, g);
    if k < |KeptRuns(hunks, i - 1, |before|, |after|)| {
      RunsMatch(before, after, hunks, i - 1, k);
    }
  }

  lemma {:induction false} RunsAscend(before: seq<Line>, after: seq<Line>, hunks: seq<Hunk>, i: nat)
    requires Matching(before, after, hunks) && i <= |hunks| + 1
    ensures Ascending(KeptRuns(hunks, i, |before|, |after|))
  {
    if i > 0 {
      RunsAscend(before, after, hunks, i - 1);
      var runs := KeptRuns(hunks, i - 1, |before|, |after|);
      var g := Gap(hunks, i - 1, |before|, |after|);
      assert GapMatches(before, after, g);
      forall k | 0 <= k < |runs|
        ensures runs[k].before.end <= g.before.start && runs[k].after.end <= g.after.start
      {
        RunsMatch(before, after, hunks, i - 1, k);
      }
      if g.before.start < g.before.end {
        AscendsOneMore(runs, g);
      }
    }
  }

  lemma {:induction false} AscendsOneMore(runs: seq<Run>, g: Run)
    requires Ascending(runs) && g.before.start < g.before.end
    requires g.before.end - g.before.start == g.after.end - g.after.start
    requires forall k :: 0 <= k < |runs| ==> runs[k].before.end <= g.before.start && runs[k].after.end <= g.after.start
    ensures Ascending(runs + [g])
  {
  }

  /** Below the end of the first `i` hunks, each old line is changed or kept, not both. */
  lemma {:induction false} TilesOld(before: seq<Line>, after: seq<Line>, hunks: seq<Hunk>, i: nat, line: nat)
    requires Matching(before, after, hunks) && i <= |hunks|
    ensures line < OldEnd(hunks, i) ==> (Changed(hunks, i, line) <==> !Kept(KeptRuns(hunks, i, |before|, |after|), line))
    ensures line >= OldEnd(hunks, i) ==> !Changed(hunks, i, line) && !Kept(KeptRuns(hunks, i, |before|, |after|), line)
  {
    if i > 0 {
      TilesOld(before, after, hunks, i - 1, line);
      var g := Gap(hunks, i - 1, |before|, |after|);
      assert GapMatches(before, after, g);
      KeptExtends(KeptRuns(hunks, i - 1, |before|, |after|), g, line);
      assert Changed(hunks, i, line) <==> Changed(hunks, i - 1, line) || hunks[i - 1].before.Contains(line);
    }
  }

  lemma {:induction false} KeptExtends(runs: seq<Run>, g: Run, line: nat)
    ensures Kept(runs + [g], line) <==> Kept(runs, line) || g.before.Contains(line)
    ensures KeptNew(runs + [g], line) <==> KeptNew(runs, line) || g.after.Contains(line)
  {
    var all := runs + [g];
    assert all[|runs|] == g;
    assert forall k :: 0 <= k < |runs| ==> all[k] == runs[k];
  }

  lemma {:induction false} TilesNew(before: seq<Line>, after: seq<Line>, hunks: seq<Hunk>, i: nat, line: nat)
    requires Matching(before, after, hunks) && i <= |hunks|
    ensures line < NewEnd(hunks, i) ==> (ChangedNew(hunks, i, line) <==> !KeptNew(KeptRuns(hunks, i, |before|, |after|), line))
    ensures line >= NewEnd(hunks, i) ==> !ChangedNew(hunks, i, line) && !KeptNew(KeptRuns(hunks, i, |before|, |after|), line)
  {
    if i > 0 {
      TilesNew(before, after, hunks, i - 1, line);
      var g := Gap(hunks, i - 1, |before|, |after|);
      assert GapMatches(before, after, g);
      KeptExtends(KeptRuns(hunks, i - 1, |before|, |after|), g, line);
      assert ChangedNew(hunks, i, line) <==> ChangedNew(hunks, i - 1, line) || hunks[i - 1].after.Contains(line);
    }
  }

  /** Every line of either file is changed or kept, never both, and lines past the end are neither. */
  lemma {:induction false} ChangedOrKept(before: seq<Line>, after: seq<Line>, hunks: seq<Hunk>, line: nat)
    requires Matching(before, after, hunks)
    ensures var runs := KeptRuns(hunks, |hunks| + 1, |before|, |after|);
            && (line < |before| ==> (Changed(hunks, |hunks|, line) <==> !Kept(runs, line)))
            && (line >= |before| ==> !Changed(hunks, |hunks|, line) && !Kept(runs, line))
            && (line < |after| ==> (ChangedNew(hunks, |hunks|, line) <==> !KeptNew(runs, line)))
            && (line >= |after| ==> !ChangedNew(hunks, |hunks|, line) && !KeptNew(runs, line))
  {
    var n := |hunks|;
    TilesOld(before, after, hunks, n, line);
    TilesNew(before, after, hunks, n, line);
    var g := Gap(hunks, n, |before|, |after|);
    assert GapMatches(before, after, g);
    KeptExtends(KeptRuns(hunks, n, |before|, |after|), g, line);
  }

  /** Hunks ascend too. */
  lemma {:induction false} HunksAscend(before: seq<Line>, after: seq<Line>, hunks: seq<Hunk>, j: nat, k: nat)
    requires Matching(before, after, hunks) && j < k < |hunks|
    ensures hunks[j].before.end <= hunks[k].before.start && hunks[j].after.end <= hunks[k].after.start
    decreases k
  {
    assert GapMatches(before, after, Gap(hunks, k, |before|, |after|));
    if j < k - 1 {
      HunksAscend(before, after, hunks, j, k - 1);
    }
  }

  /** The changes whose old lines hold `line`, and the runs, by position. */
  ghost function ChangesAt(hunks: seq<Hunk>, line: nat): set<nat> {
    set k: nat | k < |hunks| && hunks[k].before.Contains(line)
  }

  ghost function RunsAt(runs: seq<Run>, line: nat): set<nat> {
    set k: nat | k < |runs| && runs[k].before.Contains(line)
  }

  /** The same for lines of the new file. */
  ghost function NewChangesAt(hunks: seq<Hunk>, line: nat): set<nat> {
    set k: nat | k < |hunks| && hunks[k].after.Contains(line)
  }

  ghost function NewRunsAt(runs: seq<Run>, line: nat): set<nat> {
    set k: nat | k < |runs| && runs[k].after.Contains(line)
  }

  lemma {:induction false} AtMostOne(s: set<nat>)
    requires forall j, k :: j in s && k in s ==> j == k
    ensures |s| == if s == {} then 0 else 1
  {
    if s != {} {
      var k :| k in s;
      assert s == {k};
    }
  }

  lemma {:induction false} OneChange(before: seq<Line>, after: seq<Line>, hunks: seq<Hunk>, line: nat)
    requires Matching(before, after, hunks)
    ensures |ChangesAt(hunks, line)| == (if Changed(hunks, |hunks|, line) then 1 else 0)
    ensures |NewChangesAt(hunks, line)| == (if ChangedNew(hunks, |hunks|, line) then 1 else 0)
  {
    forall j: nat, k: nat | j < k < |hunks|
      ensures !(hunks[j].before.Contains(line) && hunks[k].before.Contains(line))
      ensures !(hunks[j].after.Contains(line) && hunks[k].after.Contains(line))
    {
      HunksAscend(before, after, hunks, j, k);
    }
    AtMostOne(ChangesAt(hunks, line));
    AtMostOne(NewChangesAt(hunks, line));
    if k :| 0 <= k < |hunks| && hunks[k].before.Contains(line) {
      assert k in ChangesAt(hunks, line);
    }
    if k :| 0 <= k < |hunks| && hunks[k].after.Contains(line) {
      assert k in NewChangesAt(hunks, line);
    }
  }

  lemma {:induction false} OneRun(runs: seq<Run>, line: nat)
    requires Ascending(runs)
    ensures |RunsAt(runs, line)| == (if Kept(runs, line) then 1 else 0)
    ensures |NewRunsAt(runs, line)| == (if KeptNew(runs, line) then 1 else 0)
  {
    AtMostOne(RunsAt(runs, line));
    AtMostOne(NewRunsAt(runs, line));
    if k :| 0 <= k < |runs| && runs[k].before.Contains(line) {
      assert k in RunsAt(runs, line);
    }
    if k :| 0 <= k < |runs| && runs[k].after.Contains(line) {
      assert k in NewRunsAt(runs, line);
    }
  }

  /** Changes and unchanged runs tile both files: every line of either file is in exactly
      one change or exactly one run, and lines past the end are in none. */
  lemma {:induction false} DiffTilesBothFiles(before: seq<Line>, after: seq<Line>, hunks: seq<Hunk>, line: nat)
    requires Matching(before, after, hunks)
    ensures var runs := KeptRuns(hunks, |hunks| + 1, |before|, |after|);
            && |ChangesAt(hunks, line)| + |RunsAt(runs, line)| == (if line < |before| then 1 else 0)
            && |NewChangesAt(hunks, line)| + |NewRunsAt(runs, line)| == (if line < |after| then 1 else 0)
  {
    ChangedOrKept(before, after, hunks, line);
    RunsAscend(before, after, hunks, |hunks| + 1);
    OneChange(before, after, hunks, line);
    OneRun(KeptRuns(hunks, |hunks| + 1, |before|, |after|), line);
  }

  // ------------------------------------------------------------ reconstruction

  /** The old bytes up to change `i`, with the changed spans taken from the new bytes. */
  ghost function Spliced(old_: seq<Byte>, new_: seq<Byte>, changes: seq<Change>, i: nat): Option<seq<Byte>>
    requires i <= |changes|
  {
    if i == 0 then Some([])
    else
      var from := SpanEnd(changes, i - 1);
      var c := changes[i - 1];
      var front := Spliced(old_, new_, changes, i - 1);
      if front.Some? && from <= c.beforeBytes.start <= |old_| && c.afterBytes.start <= c.afterBytes.end <= |new_| then
        Some(front.value + old_[from..c.beforeBytes.start] + new_[c.afterBytes.start..c.afterBytes.end])
      else None
  }

  /** Replacing every changed span of the old bytes by its new bytes. */
  ghost function Patched(old_: seq<Byte>, new_: seq<Byte>, changes: seq<Change>): Option<seq<Byte>> {
    var from := SpanEnd(changes, |changes|);
    var front := Spliced(old_, new_, changes, |changes|);
    if front.Some? && from <= |old_| then Some(front.value + old_[from..]) else None
  }

  /** `offsets` cut `source` into `lines`. */
  ghost predicate Cuts(source: seq<Byte>, offsets: seq<nat>, lines: seq<Line>) {
    && |offsets| == |lines| + 1 && offsets[0] == 0 && offsets[|lines|] == |source|
    && (forall j, k :: 0 <= j <= k < |offsets| ==> offsets[j] <= offsets[k] <= |source|)
    && forall k {:trigger lines[k]} :: 0 <= k < |lines| ==> lines[k] == source[offsets[k]..offsets[k + 1]]
  }

  lemma {:induction false} StartsCut(source: seq<Byte>, offsets: seq<nat>)
    requires Lines.Starts(source, offsets)
    ensures Cuts(source, offsets, Lines.Split(source))
  {
    Lines.StartsGiveLines(source, offsets);
  }

  /** Equal lines at paired positions are equal byte spans. */
  lemma {:induction false} GapBytes(
    old_: seq<Byte>, new_: seq<Byte>, oo: seq<nat>, no: seq<nat>, before: seq<Line>, after: seq<Line>, b: nat, a: nat, n: nat)
    requires Cuts(old_, oo, before) && Cuts(new_, no, after) && b + n <= |before| && a + n <= |after|
    requires forall l :: b <= l < b + n ==> before[l] == after[l - b + a]
    ensures old_[oo[b]..oo[b + n]] == new_[no[a]..no[a + n]]
  {
    if n > 0 {
      var m := n - 1;
      GapBytes(old_, new_, oo, no, before, after, b, a, m);
      assert before[b + m] == after[a + m];
      SliceJoins(old_, oo[b], oo[b + m], oo[b + n]);
      SliceJoins(new_, no[a], no[a + m], no[a + n]);
    }
  }

  lemma {:induction false} SliceJoins(s: seq<Byte>, i: nat, j: nat, k: nat)
    requires i <= j <= k <= |s|
    ensures s[i..k] == s[i..j] + s[j..k]
  {
  }

  /** A gap holds the same bytes in both buffers. */
  lemma {:induction false} GapIsSameBytes(
    old_: seq<Byte>, new_: seq<Byte>, oo: seq<nat>, no: seq<nat>, before: seq<Line>, after: seq<Line>, g: Run)
    requires Cuts(old_, oo, before) && Cuts(new_, no, after) && GapMatches(before, after, g)
    ensures old_[oo[g.before.start]..oo[g.before.end]] == new_[no[g.after.start]..no[g.after.end]]
  {
    GapBytes(old_, new_, oo, no, before, after, g.before.start, g.after.start, g.before.end - g.before.start);
  }

  /** Every change is its hunk with the byte spans the offsets give. */
  ghost predicate Indexed(hunks: seq<Hunk>, oo: seq<nat>, no: seq<nat>, changes: seq<Change>) {
    && |changes| == |hunks|
    && forall k :: 0 <= k < |hunks| ==>
         && hunks[k].before.start < |oo| && hunks[k].before.end < |oo|
         && hunks[k].after.start < |no| && hunks[k].after.end < |no|
         && changes[k] == ChangeOf(hunks[k], oo, no)
  }

  function SpanEnd(changes: seq<Change>, i: nat): nat
    requires i <= |changes|
  {
    if i == 0 then 0 else changes[i - 1].beforeBytes.end
  }

  /** The old bytes between change `i - 1` and change `i` are the new bytes before its replacement. */
  lemma {:induction false} StepBytes(
    old_: seq<Byte>, new_: seq<Byte>, oo: seq<nat>, no: seq<nat>, before: seq<Line>, after: seq<Line>,
    hunks: seq<Hunk>, changes: seq<Change>, i: nat)
    requires Cuts(old_, oo, before) && Cuts(new_, no, after)
    requires Matching(before, after, hunks) && Indexed(hunks, oo, no, changes) && i < |hunks|
    ensures NewEnd(hunks, i) < |no| && NewEnd(hunks, i + 1) < |no|
    ensures var c := changes[i];
            var p := no[NewEnd(hunks, i)];
            && SpanEnd(changes, i) <= c.beforeBytes.start <= |old_|
            && p <= c.afterBytes.start <= c.afterBytes.end == no[NewEnd(hunks, i + 1)] <= |new_|
            && old_[SpanEnd(changes, i)..c.beforeBytes.start] == new_[p..c.afterBytes.start]
  {
    var g := Gap(hunks, i, |before|, |after|);
    assert GapMatches(before, after, g);
    GapIsSameBytes(old_, new_, oo, no, before, after, g);
    assert changes[i] == ChangeOf(hunks[i], oo, no);
    assert i > 0 ==> changes[i - 1] == ChangeOf(hunks[i - 1], oo, no);
  }

  /** Up to change `i`, the splice is the new bytes up to `marks[i]`. */
  ghost predicate StepTakes(old_: seq<Byte>, new_: seq<Byte>, changes: seq<Change>, marks: seq<nat>, i: nat)
    requires i < |changes| < |marks|
  {
    var c := changes[i];
    && SpanEnd(changes, i) <= c.beforeBytes.start <= |old_|
    && marks[i] <= c.afterBytes.start <= c.afterBytes.end == marks[i + 1] <= |new_|
    && old_[SpanEnd(changes, i)..c.beforeBytes.start] == new_[marks[i]..c.afterBytes.start]
  }

  lemma {:induction false} SplicedIsPrefix(old_: seq<Byte>, new_: seq<Byte>, changes: seq<Change>, marks: seq<nat>, i: nat)
    requires i <= |changes| < |marks| && marks[0] == 0
    requires forall k :: 0 <= k < |changes| ==> StepTakes(old_, new_, changes, marks, k)
    ensures marks[i] <= |new_| && Spliced(old_, new_, changes, i) == Some(new_[..marks[i]])
  {
    if i > 0 {
      SplicedIsPrefix(old_, new_, changes, marks, i - 1);
      assert StepTakes(old_, new_, changes, marks, i - 1);
      var c, p := changes[i - 1], marks[i - 1];
      assert new_[..p] + new_[p..c.afterBytes.start] + new_[c.afterBytes.start..c.afterBytes.end]
          == new_[..c.afterBytes.end];
    }
  }

  /** Splicing the changed byte spans into the old bytes gives exactly the new bytes. */
  lemma {:induction false} PatchReconstructs(
    old_: seq<Byte>, new_: seq<Byte>, oo: seq<nat>, no: seq<nat>, before: seq<Line>, after: seq<Line>,
    hunks: seq<Hunk>, changes: seq<Change>)
    requires Cuts(old_, oo, before) && Cuts(new_, no, after)
    requires Matching(before, after, hunks) && Indexed(hunks, oo, no, changes)
    ensures Patched(old_, new_, changes) == Some(new_)
  {
    var n := |hunks|;
    var marks := Marks(hunks, no, n);
    forall k | 0 <= k < |changes|
      ensures StepTakes(old_, new_, changes, marks, k)
    {
      StepBytes(old_, new_, oo, no, before, after, hunks, changes, k);
    }
    SplicedIsPrefix(old_, new_, changes, marks, n);
    TailBytes(old_, new_, oo, no, before, after, hunks, changes);
    assert new_[..marks[n]] + new_[marks[n]..] == new_;
  }

  /** The new byte position after each hunk. */
  ghost function Marks(hunks: seq<Hunk>, no: seq<nat>, n: nat): (r: seq<nat>)
    requires n <= |hunks| && no != []
    ensures |r| == n + 1
    ensures forall k :: 0 <= k <= n ==> r[k] == if NewEnd(hunks, k) < |no| then no[NewEnd(hunks, k)] else 0
  {
    seq(n + 1, k requires 0 <= k <= n => if NewEnd(hunks, k) < |no| then no[NewEnd(hunks, k)] else 0)
  }

  lemma {:induction false} TailBytes(
    old_: seq<Byte>, new_: seq<Byte>, oo: seq<nat>, no: seq<nat>, before: seq<Line>, after: seq<Line>,
    hunks: seq<Hunk>, changes: seq<Change>)
    requires Cuts(old_, oo, before) && Cuts(new_, no, after)
    requires Matching(before, after, hunks) && Indexed(hunks, oo, no, changes)
    ensures NewEnd(hunks, |hunks|) < |no| && no[NewEnd(hunks, |hunks|)] <= |new_|
    ensures SpanEnd(changes, |hunks|) <= |old_|
    ensures old_[SpanEnd(changes, |hunks|)..] == new_[no[NewEnd(hunks, |hunks|)]..]
  {
    var n := |hunks|;
    var g := Gap(hunks, n, |before|, |after|);
    assert GapMatches(before, after, g);
    GapIsSameBytes(old_, new_, oo, no, before, after, g);
    assert n > 0 ==> changes[n - 1] == ChangeOf(hunks[n - 1], oo, no);
  }

  lemma {:induction false} IndexAscends(before: seq<Line>, after: seq<Line>, hunks: seq<Hunk>, r: Diff)
    requires Matching(before, after, hunks) && |r.changes| == |hunks|
    requires forall i :: 0 <= i < |hunks| ==> r.changes[i].before == hunks[i].before
    requires r.kept == KeptRuns(hunks, |hunks| + 1, |before|, |after|)
    ensures Ascending(r.kept) && ChangesAscend(r.changes)
  {
    RunsAscend(before, after, hunks, |hunks| + 1);
    forall j, k | 0 <= j < k < |hunks|
      ensures r.changes[j].before.end <= r.changes[k].before.start
    {
      HunksAscend(before, after, hunks, j, k);
    }
  }

  /** `diff_sources`: the index of two buffers and of any matching hunk list for their lines. */
  method DiffSources(old_: seq<Byte>, new_: seq<Byte>, hunks: seq<Hunk>) returns (r: Diff)
    requires Matching(Lines.Split(old_), Lines.Split(new_), hunks)
    ensures Patched(old_, new_, r.changes) == Some(new_)
    ensures |r.changes| == |hunks|
    ensures forall i :: 0 <= i < |hunks| ==> r.changes[i].before == hunks[i].before && r.changes[i].after == hunks[i].after
    ensures r.kept == KeptRuns(hunks, |hunks| + 1, |Lines.Split(old_)|, |Lines.Split(new_)|)
    ensures Ascending(r.kept) && ChangesAscend(r.changes)
  {
    var oo := LineOffsets(old_);
    var no := LineOffsets(new_);
    StartsCut(old_, oo);
    StartsCut(new_, no);
    r := DiffInterned(Lines.Split(old_), Lines.Split(new_), hunks, oo, no);
    PatchReconstructs(old_, new_, oo, no, Lines.Split(old_), Lines.Split(new_), hunks, r.changes);
    IndexAscends(Lines.Split(old_), Lines.Split(new_), hunks, r);
  }

  // ------------------------------------------------------------ lookups

  /** `partition_point(|run| run.end <= line)` by binary search between `lo` and `hi`. */
  function PartitionPoint(ranges: seq<Range>, line: nat, lo: nat, hi: nat): (p: nat)
    requires lo <= hi <= |ranges|
    requires forall j, k :: 0 <= j < k < |ranges| ==> ranges[j].end <= ranges[k].end
    requires forall k :: 0 <= k < lo ==> ranges[k].end <= line
    requires forall k :: hi <= k < |ranges| ==> ranges[k].end > line
    ensures p <= |ranges|
    ensures forall k :: 0 <= k < |ranges| ==> (k < p <==> ranges[k].end <= line)
    decreases hi - lo
  {
    if lo == hi then lo
    else
      var mid := lo + (hi - lo) / 2;
      if ranges[mid].end <= line then PartitionPoint(ranges, line, mid + 1, hi)
      else PartitionPoint(ranges, line, lo, mid)
  }

  ghost predicate Disjoint(ranges: seq<Range>) {
    && (forall k :: 0 <= k < |ranges| ==> ranges[k].start <= ranges[k].end)
    && forall j, k :: 0 <= j < k < |ranges| ==> ranges[j].end <= ranges[k].start
  }

  /** In disjoint ascending ranges only the partition point can contain the line. */
  lemma {:induction false} OnlyPartitionPoint(ranges: seq<Range>, line: nat, k: nat)
    requires Disjoint(ranges) && k < |ranges| && ranges[k].Contains(line)
    ensures k == PartitionPoint(ranges, line, 0, |ranges|)
  {
    var p := PartitionPoint(ranges, line, 0, |ranges|);
    assert p <= k;
    assert ranges[p].end > line;
  }

  function Befores(runs: seq<Run>): (r: seq<Range>)
    ensures |r| == |runs| && forall k :: 0 <= k < |r| ==> r[k] == runs[k].before
  {
    seq(|runs|, k requires 0 <= k < |runs| => runs[k].before)
  }

  function MapBeforeLine(runs: seq<Run>, line: nat): Option<nat>
    requires Ascending(runs)
  {
    var p := PartitionPoint(Befores(runs), line, 0, |runs|);
    if p < |runs| && runs[p].before.Contains(line) then Some(runs[p].after.start + line - runs[p].before.start)
    else None
  }

  /** The lookup agrees with a scan of all runs, and lands on the paired line. */
  lemma {:induction false} MapAgreesWithScan(runs: seq<Run>, line: nat)
    requires Ascending(runs)
    ensures MapBeforeLine(runs, line).Some? <==> Kept(runs, line)
    ensures forall k :: 0 <= k < |runs| && runs[k].before.Contains(line) ==>
              MapBeforeLine(runs, line) == Some(runs[k].after.start + (line - runs[k].before.start))
  {
    var p := PartitionPoint(Befores(runs), line, 0, |runs|);
    forall k | 0 <= k < |runs| && runs[k].before.Contains(line)
      ensures k == p
    {
      OnlyPartitionPoint(Befores(runs), line, k);
    }
  }

  /** Mapped lines are byte-identical, and the map is strictly increasing. */
  lemma {:induction false} MapIsIncreasing(before: seq<Line>, after: seq<Line>, hunks: seq<Hunk>, i: nat, j: nat)
    requires Matching(before, after, hunks)
    ensures Ascending(KeptRuns(hunks, |hunks| + 1, |before|, |after|))
    ensures var runs := KeptRuns(hunks, |hunks| + 1, |before|, |after|);
            var m, n := MapBeforeLine(runs, i), MapBeforeLine(runs, j);
            && (m.Some? ==> i < |before| && m.value < |after| && before[i] == after[m.value])
            && (m.Some? && n.Some? && i < j ==> m.value < n.value)
  {
    RunsAscend(before, after, hunks, |hunks| + 1);
    var runs := KeptRuns(hunks, |hunks| + 1, |before|, |after|);
    forall k | 0 <= k < |runs|
      ensures GapMatches(before, after, runs[k])
    {
      RunsMatch(before, after, hunks, |hunks| + 1, k);
    }
    if MapBeforeLine(runs, i).Some? {
      MapIsFaithful(before, after, runs, i);
      if MapBeforeLine(runs, j).Some? && i < j {
        RunsInOrder(runs, i, j);
      }
    }
  }

  lemma {:induction false} MapIsFaithful(before: seq<Line>, after: seq<Line>, runs: seq<Run>, line: nat)
    requires Ascending(runs) && forall k :: 0 <= k < |runs| ==> GapMatches(before, after, runs[k])
    requires MapBeforeLine(runs, line).Some?
    ensures var m := MapBeforeLine(runs, line).value;
            line < |before| && m < |after| && before[line] == after[m]
  {
    var p := PartitionPoint(Befores(runs), line, 0, |runs|);
    assert GapMatches(before, after, runs[p]);
  }

  lemma {:induction false} RunsInOrder(runs: seq<Run>, i: nat, j: nat)
    requires Ascending(runs) && i < j && MapBeforeLine(runs, i).Some? && MapBeforeLine(runs, j).Some?
    ensures MapBeforeLine(runs, i).value < MapBeforeLine(runs, j).value
  {
    var p := PartitionPoint(Befores(runs), i, 0, |runs|);
    var q := PartitionPoint(Befores(runs), j, 0, |runs|);
    assert p <= q;
  }

  /** The map hits every new line that no change covers. */
  lemma {:induction false} MapIsOnto(before: seq<Line>, after: seq<Line>, hunks: seq<Hunk>, m: nat)
    requires Matching(before, after, hunks) && m < |after| && !ChangedNew(hunks, |hunks|, m)
    ensures Ascending(KeptRuns(hunks, |hunks| + 1, |before|, |after|))
    ensures var runs := KeptRuns(hunks, |hunks| + 1, |before|, |after|);
            exists l: nat :: MapBeforeLine(runs, l) == Some(m)
  {
    RunsAscend(before, after, hunks, |hunks| + 1);
    DiffTilesBothFiles(before, after, hunks, m);
    MapHits(KeptRuns(hunks, |hunks| + 1, |before|, |after|), m);
  }

  lemma {:induction false} MapHits(runs: seq<Run>, m: nat)
    requires Ascending(runs) && KeptNew(runs, m)
    ensures exists l: nat :: MapBeforeLine(runs, l) == Some(m)
  {
    var k :| 0 <= k < |runs| && runs[k].after.Contains(m);
    MapInto(runs, k, m);
  }

  lemma {:induction false} MapInto(runs: seq<Run>, k: nat, m: nat)
    requires Ascending(runs) && k < |runs| && runs[k].after.Contains(m)
    ensures MapBeforeLine(runs, m - runs[k].after.start + runs[k].before.start) == Some(m)
  {
    var l := m - runs[k].after.start + runs[k].before.start;
    assert runs[k].before.Contains(l);
    MapAgreesWithScan(runs, l);
  }

  function OldRanges(changes: seq<Change>): (r: seq<Range>)
    ensures |r| == |changes| && forall k :: 0 <= k < |r| ==> r[k] == changes[k].before
  {
    seq(|changes|, k requires 0 <= k < |changes| => changes[k].before)
  }

  /** Changes ascend; a pure insertion has an empty old range. */
  ghost predicate ChangesAscend(changes: seq<Change>) {
    && (forall k :: 0 <= k < |changes| ==> changes[k].before.start <= changes[k].before.end)
    && forall j, k :: 0 <= j < k < |changes| ==> changes[j].before.end <= changes[k].before.start
  }

  ghost predicate SharesChange(changes: seq<Change>, oldLine: nat, newLine: nat)
    requires ChangesAscend(changes)
  {
    var p := PartitionPoint(OldRanges(changes), oldLine, 0, |changes|);
    p < |changes| && changes[p].before.Contains(oldLine) && changes[p].after.Contains(newLine)
  }

  /** The lookup agrees with a scan of all changes, empty old ranges included. */
  lemma {:induction false} ShareAgreesWithScan(changes: seq<Change>, oldLine: nat, newLine: nat)
    requires ChangesAscend(changes)
    ensures SharesChange(changes, oldLine, newLine) <==>
            exists k :: 0 <= k < |changes| && changes[k].before.Contains(oldLine) && changes[k].after.Contains(newLine)
  {
    var p := PartitionPoint(OldRanges(changes), oldLine, 0, |changes|);
    forall k | 0 <= k < |changes| && changes[k].before.Contains(oldLine)
      ensures k == p
    {
      OnlyPartitionPoint(OldRanges(changes), oldLine, k);
    }
  }
}
