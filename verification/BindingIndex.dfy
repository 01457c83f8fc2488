/** Local name resolution over an extraction's bindings
    (src/extract/binding_index.rs, src/extract/bindings.rs). */
module BindingIndex {
  import opened Basics

  const MAX_CANDIDATES: nat := 64

  datatype Binding = Binding(
    definition: nat,
    scope: Range,
    visible: nat,
    resolvable: bool,
    blocksBefore: bool,
    functionBoundary: Option<nat>,
    namespaces: bv8)

  /** Where a name is used: its position, namespace bits and enclosing function. */
  datatype Query = Query(position: nat, namespace: bv8, boundary: nat)

  function Len(r: Range): nat {
    if r.start < r.end then r.end - r.start else 0
  }

  predicate Named(b: Binding, q: Query) {
    b.namespaces & q.namespace != 0 && b.scope.Contains(q.position)
  }

  predicate Eligible(b: Binding, q: Query) {
    && b.resolvable && Named(b, q) && b.visible <= q.position
    && (b.functionBoundary.None? || b.functionBoundary.value == q.boundary)
  }

  /** The key order: a shorter scope first, then the later declaration. */
  predicate Closer(a: Binding, b: Binding) {
    Len(a.scope) < Len(b.scope) || (Len(a.scope) == Len(b.scope) && a.visible > b.visible)
  }

  predicate Blocks(b: Binding, q: Query, len: nat) {
    b.blocksBefore && Named(b, q) && b.visible > q.position && Len(b.scope) <= len
  }

  predicate Blocked(bs: seq<Binding>, q: Query, len: nat) {
    exists i :: 0 <= i < |bs| && Blocks(bs[i], q, len)
  }

  // ------------------------------------------------------------ the scan

  datatype Scan = Scan(best: Option<Binding>, ambiguous: bool)

  function Step(s: Scan, b: Binding, q: Query): Scan {
    if !Eligible(b, q) then s
    else if s.best.Some? && Closer(s.best.value, b) then s
    else if s.best.Some? && s.best.value.scope == b.scope && s.best.value.visible == b.visible then
      s.(ambiguous := true)
    else Scan(Some(b), false)
  }

  function ScanAll(bs: seq<Binding>, q: Query): Scan {
    if bs == [] then Scan(None, false) else Step(ScanAll(bs[..|bs| - 1], q), bs[|bs| - 1], q)
  }

  function Settle(s: Scan, bs: seq<Binding>, q: Query): Option<nat> {
    if s.best.None? || s.ambiguous || Blocked(bs, q, Len(s.best.value.scope)) then None
    else Some(s.best.value.definition)
  }

  /** The definition `resolve` picks among the bindings of one name. */
  function Resolution(bs: seq<Binding>, q: Query): Option<nat> {
    Settle(ScanAll(bs, q), bs, q)
  }

  // ------------------------------------------------------------ what the scan finds

  /** Binding `i` is eligible and no eligible binding is strictly closer. */
  ghost predicate Nearest(bs: seq<Binding>, q: Query, i: int) {
    && 0 <= i < |bs| && Eligible(bs[i], q)
    && forall c :: c in bs && Eligible(c, q) ==> !Closer(c, bs[i])
  }

  /** `i` starts the last run of equal scopes among the nearest bindings. */
  ghost predicate StartsLastRun(bs: seq<Binding>, q: Query, i: int) {
    && Nearest(bs, q, i)
    && (forall k :: i < k && Nearest(bs, q, k) ==> bs[k].scope == bs[i].scope)
    && (forall j :: j < i && Nearest(bs, q, j) ==> Differs(bs, q, j, i))
  }

  /** Some nearest binding between `j` and `i` has another scope than `i`. */
  ghost predicate Differs(bs: seq<Binding>, q: Query, j: int, i: int)
    requires 0 <= i < |bs|
  {
    exists k :: j <= k < i && Nearest(bs, q, k) && bs[k].scope != bs[i].scope
  }

  ghost predicate Alone(bs: seq<Binding>, q: Query, i: int) {
    forall k :: i < k ==> !Nearest(bs, q, k)
  }

  ghost predicate Finds(bs: seq<Binding>, q: Query, s: Scan, i: int) {
    && StartsLastRun(bs, q, i) && s.best == Some(bs[i])
    && (s.ambiguous <==> !Alone(bs, q, i))
  }

  /** Appending an ineligible or farther binding keeps the nearest ones. */
  lemma {:induction false} NearestAfter(bs: seq<Binding>, b: Binding, q: Query, i: int, k: int)
    requires Nearest(bs, q, i) && (!Eligible(b, q) || !Closer(b, bs[i]))
    ensures Nearest(bs + [b], q, k) <==>
              Nearest(bs, q, k) || (k == |bs| && Eligible(b, q) && !Closer(bs[i], b))
  {
    var all := bs + [b];
    if 0 <= k < |bs| {
      assert all[k] == bs[k] && all[k] in bs;
      if Nearest(bs, q, k) {
        forall c | c in all && Eligible(c, q)
          ensures !Closer(c, all[k])
        {
          assert c in bs || c == b;
          assert !Closer(bs[i], bs[k]) && !Closer(bs[k], bs[i]);
        }
      }
      if Nearest(all, q, k) {
        forall c | c in bs && Eligible(c, q)
          ensures !Closer(c, bs[k])
        {
          assert c in all;
        }
      }
    } else if k == |bs| {
      assert all[k] == b;
      assert bs[i] in all;
      if Eligible(b, q) && !Closer(bs[i], b) {
        forall c | c in all && Eligible(c, q)
          ensures !Closer(c, b)
        {
          assert c in bs || c == b;
        }
      }
    }
  }

  /** Appending a strictly closer binding leaves it the only nearest one. */
  lemma {:induction false} CloserTakesOver(bs: seq<Binding>, b: Binding, q: Query, k: int)
    requires Eligible(b, q) && forall c :: c in bs && Eligible(c, q) ==> Closer(b, c)
    ensures Nearest(bs + [b], q, k) <==> k == |bs|
  {
    var all := bs + [b];
    assert b in all;
    if 0 <= k < |bs| {
      assert all[k] == bs[k] && all[k] in bs;
    } else if k == |bs| {
      forall c | c in all && Eligible(c, q)
        ensures !Closer(c, all[k])
      {
        assert c in bs || c == b;
      }
    }
  }

  lemma {:induction false} NearestBeatsAll(bs: seq<Binding>, b: Binding, q: Query, i: int)
    requires Nearest(bs, q, i) && Closer(b, bs[i])
    ensures forall c :: c in bs && Eligible(c, q) ==> Closer(b, c)
  {
  }

  ghost predicate Found(bs: seq<Binding>, q: Query, s: Scan, i: int) {
    if s.best.None? then !s.ambiguous && forall c :: c in bs ==> !Eligible(c, q)
    else Finds(bs, q, s, i)
  }

  /** The scan's best binding starts the last run, and the scan is ambiguous exactly
      when that run has more than one member. */
  lemma {:induction false} ScanFinds(bs: seq<Binding>, q: Query) returns (i: int)
    ensures Found(bs, q, ScanAll(bs, q), i)
  {
    i := 0;
    if bs != [] {
      var n := |bs| - 1;
      i := ScanFinds(bs[..n], q);
      i := StepFinds(bs[..n], bs[n], q, ScanAll(bs[..n], q), i);
      assert bs == bs[..n] + [bs[n]];
    }
  }

  lemma {:induction false} StepFinds(front: seq<Binding>, b: Binding, q: Query, s: Scan, i: int) returns (r: int)
    requires Found(front, q, s, i)
    ensures Found(front + [b], q, Step(s, b, q), r)
  {
    r := |front|;
    if s.best.None? {
      if Eligible(b, q) {
        TakesOver(front, b, q);
      }
    } else if Eligible(b, q) && Closer(b, s.best.value) {
      NearestBeatsAll(front, b, q, i);
      TakesOver(front, b, q);
    } else {
      r := Joins(front, b, q, s, i);
    }
  }

  lemma {:induction false} TakesOver(front: seq<Binding>, b: Binding, q: Query)
    requires Eligible(b, q) && forall c :: c in front && Eligible(c, q) ==> Closer(b, c)
    ensures Finds(front + [b], q, Scan(Some(b), false), |front|)
  {
    forall k
      ensures Nearest(front + [b], q, k) <==> k == |front|
    {
      CloserTakesOver(front, b, q, k);
    }
  }

  /** After `b`, the nearest bindings are the same, plus `b` itself if it `joined`. */
  ghost predicate Extends(front: seq<Binding>, b: Binding, q: Query, joined: bool) {
    forall k :: Nearest(front + [b], q, k) <==> Nearest(front, q, k) || (k == |front| && joined)
  }

  /** A binding that is not strictly closer is skipped, makes the run ambiguous, or
      starts a new run. */
  lemma {:induction false} Joins(front: seq<Binding>, b: Binding, q: Query, s: Scan, i: int) returns (r: int)
    requires Finds(front, q, s, i) && (!Eligible(b, q) || !Closer(b, front[i]))
    ensures Finds(front + [b], q, Step(s, b, q), r)
  {
    var joined := Eligible(b, q) && !Closer(front[i], b);
    forall k
      ensures Nearest(front + [b], q, k) <==> Nearest(front, q, k) || (k == |front| && joined)
    {
      NearestAfter(front, b, q, i, k);
    }
    if joined && front[i].scope != b.scope {
      r := |front|;
      NewRun(front, b, q, i);
    } else {
      r := i;
      SameRun(front, b, q, i, joined);
    }
  }

  lemma {:induction false} NewRun(front: seq<Binding>, b: Binding, q: Query, i: int)
    requires StartsLastRun(front, q, i) && Extends(front, b, q, true) && front[i].scope != b.scope
    ensures StartsLastRun(front + [b], q, |front|) && Alone(front + [b], q, |front|)
  {
    var all, n := front + [b], |front|;
    forall j | j < n && Nearest(all, q, j)
      ensures Differs(all, q, j, n)
    {
      var k := if j <= i then i else j;
      assert Nearest(all, q, k) && all[k].scope != all[n].scope;
    }
  }

  lemma {:induction false} SameRun(front: seq<Binding>, b: Binding, q: Query, i: int, joined: bool)
    requires StartsLastRun(front, q, i)
    requires Extends(front, b, q, joined) && (joined ==> b.scope == front[i].scope)
    ensures StartsLastRun(front + [b], q, i)
    ensures Alone(front + [b], q, i) <==> !joined && Alone(front, q, i)
  {
    var all := front + [b];
    forall j | j < i && Nearest(all, q, j)
      ensures Differs(all, q, j, i)
    {
      StillDiffers(front, b, q, i, j, joined);
    }
    AloneAfter(front, b, q, i, joined);
  }

  lemma {:induction false} StillDiffers(front: seq<Binding>, b: Binding, q: Query, i: int, j: int, joined: bool)
    requires 0 <= j < i < |front| && Nearest(front, q, j) && Differs(front, q, j, i)
    requires Extends(front, b, q, joined)
    ensures Differs(front + [b], q, j, i)
  {
    var all := front + [b];
    var k :| j <= k < i && Nearest(front, q, k) && front[k].scope != front[i].scope;
    assert Nearest(all, q, k) && all[k].scope != all[i].scope;
  }

  lemma {:induction false} AloneAfter(front: seq<Binding>, b: Binding, q: Query, i: int, joined: bool)
    requires i < |front| && Extends(front, b, q, joined)
    ensures Alone(front + [b], q, i) <==> !joined && Alone(front, q, i)
  {
    var all := front + [b];
    if joined {
      assert Nearest(all, q, |front|);
    }
    if !Alone(front, q, i) {
      var k :| i < k && Nearest(front, q, k);
      assert Nearest(all, q, k);
    }
  }

  // ------------------------------------------------------------ order independence

  /** All nearest bindings share one scope. */
  ghost predicate Uniform(bs: seq<Binding>, q: Query) {
    forall i, j :: Nearest(bs, q, i) && Nearest(bs, q, j) ==> bs[i].scope == bs[j].scope
  }

  ghost predicate NestedOrDisjoint(a: Range, b: Range) {
    || (a.start <= b.start && b.end <= a.end) || (b.start <= a.start && a.end <= b.end)
    || a.end <= b.start || b.end <= a.start
  }

  /** Scopes taken from one syntax tree are nested or disjoint, so the nearest ones agree. */
  lemma {:induction false} SyntaxScopesAreUniform(bs: seq<Binding>, q: Query)
    requires forall a, b :: a in bs && b in bs ==> NestedOrDisjoint(a.scope, b.scope)
    ensures Uniform(bs, q)
  {
    forall i, j | Nearest(bs, q, i) && Nearest(bs, q, j)
      ensures bs[i].scope == bs[j].scope
    {
      assert bs[i] in bs && bs[j] in bs;
      assert NestedOrDisjoint(bs[i].scope, bs[j].scope);
    }
  }

  /** Binding `i` is strictly closer than every other eligible one. */
  ghost predicate OnlyNearest(bs: seq<Binding>, q: Query, i: int) {
    Nearest(bs, q, i) && forall k :: Nearest(bs, q, k) ==> k == i
  }

  ghost predicate Settled(bs: seq<Binding>, q: Query, i: int) {
    OnlyNearest(bs, q, i) && !Blocked(bs, q, Len(bs[i].scope))
  }

  /** With one nearest scope, a name resolves exactly when a single binding is nearest
      and no later declaration blocks it, and then to that binding. */
  lemma {:induction false} ResolvesToNearest(bs: seq<Binding>, q: Query, d: nat)
    requires Uniform(bs, q)
    ensures Resolution(bs, q) == Some(d) <==> exists i :: Settled(bs, q, i) && bs[i].definition == d
  {
    var s := ScanAll(bs, q);
    var i := ScanFinds(bs, q);
    if Resolution(bs, q) == Some(d) {
      forall k | Nearest(bs, q, k)
        ensures k == i
      {
        assert k < i ==> Differs(bs, q, k, i);
      }
      assert Settled(bs, q, i);
    }
    if k :| Settled(bs, q, k) && bs[k].definition == d {
      assert bs[k] in bs;
      assert s.best.Some?;
      assert i == k;
    }
  }

  lemma {:induction false} TwoCopies<T>(s: seq<T>, i: int, j: int)
    requires 0 <= i < j < |s| && s[i] == s[j]
    ensures multiset(s)[s[i]] >= 2
  {
    assert s == s[..j] + s[j..];
    assert s[i] in s[..j] && s[j] in s[j..];
  }

  lemma {:induction false} OtherCopy<T>(s: seq<T>, i: int) returns (j: int)
    requires 0 <= i < |s| && multiset(s)[s[i]] >= 2
    ensures 0 <= j < |s| && j != i && s[j] == s[i]
  {
    assert s == s[..i] + [s[i]] + s[i + 1..];
    if s[i] in s[..i] {
      j :| 0 <= j < i && s[..i][j] == s[i];
    } else {
      var k :| 0 <= k < |s[i + 1..]| && s[i + 1..][k] == s[i];
      j := i + 1 + k;
    }
  }

  ghost predicate Reordered(bs: seq<Binding>, cs: seq<Binding>) {
    multiset(bs) == multiset(cs)
  }

  lemma {:induction false} SameMembers(bs: seq<Binding>, cs: seq<Binding>)
    requires Reordered(bs, cs)
    ensures forall b :: b in bs <==> b in cs
  {
    assert forall b :: b in bs <==> b in multiset(bs);
    assert forall b :: b in cs <==> b in multiset(cs);
  }

  lemma {:induction false} NearestElsewhere(bs: seq<Binding>, cs: seq<Binding>, q: Query, i: int, j: int)
    requires Reordered(bs, cs) && 0 <= i < |bs| && 0 <= j < |cs| && bs[i] == cs[j]
    ensures Nearest(bs, q, i) <==> Nearest(cs, q, j)
  {
    SameMembers(bs, cs);
  }

  lemma {:induction false} SettledElsewhere(bs: seq<Binding>, cs: seq<Binding>, q: Query, i: int) returns (j: int)
    requires Reordered(bs, cs) && Settled(bs, q, i)
    ensures Settled(cs, q, j) && cs[j] == bs[i]
  {
    SameMembers(bs, cs);
    assert bs[i] in cs;
    j :| 0 <= j < |cs| && cs[j] == bs[i];
    NearestElsewhere(bs, cs, q, i, j);
    forall k | Nearest(cs, q, k)
      ensures k == j
    {
      OnlyOne(bs, cs, q, i, j, k);
    }
    BlockedElsewhere(cs, bs, q, Len(bs[i].scope));
  }

  lemma {:induction false} OnlyOne(bs: seq<Binding>, cs: seq<Binding>, q: Query, i: int, j: int, k: int)
    requires Reordered(bs, cs) && OnlyNearest(bs, q, i)
    requires 0 <= j < |cs| && cs[j] == bs[i] && Nearest(cs, q, k)
    ensures k == j
  {
    SameMembers(bs, cs);
    assert cs[k] in bs;
    var m :| 0 <= m < |bs| && bs[m] == cs[k];
    NearestElsewhere(bs, cs, q, m, k);
    if k != j {
      TwoCopies(cs, if j < k then j else k, if j < k then k else j);
      var o := OtherCopy(bs, i);
      NearestElsewhere(bs, cs, q, o, j);
    }
  }

  lemma {:induction false} BlockedElsewhere(bs: seq<Binding>, cs: seq<Binding>, q: Query, len: nat)
    requires Reordered(bs, cs)
    ensures Blocked(bs, q, len) ==> Blocked(cs, q, len)
  {
    SameMembers(bs, cs);
    if i :| 0 <= i < |bs| && Blocks(bs[i], q, len) {
      assert bs[i] in cs;
      var j :| 0 <= j < |cs| && cs[j] == bs[i];
    }
  }

  lemma {:induction false} UniformElsewhere(bs: seq<Binding>, cs: seq<Binding>, q: Query)
    requires Reordered(bs, cs) && Uniform(bs, q)
    ensures Uniform(cs, q)
  {
    SameMembers(bs, cs);
    forall i, j | Nearest(cs, q, i) && Nearest(cs, q, j)
      ensures cs[i].scope == cs[j].scope
    {
      assert cs[i] in bs && cs[j] in bs;
      var a :| 0 <= a < |bs| && bs[a] == cs[i];
      var b :| 0 <= b < |bs| && bs[b] == cs[j];
      NearestElsewhere(bs, cs, q, a, i);
      NearestElsewhere(bs, cs, q, b, j);
    }
  }

  lemma {:induction false} ResolvesElsewhere(bs: seq<Binding>, cs: seq<Binding>, q: Query)
    requires Reordered(bs, cs) && Uniform(bs, q) && Uniform(cs, q) && Resolution(bs, q).Some?
    ensures Resolution(cs, q) == Resolution(bs, q)
  {
    var d := Resolution(bs, q).value;
    ResolvesToNearest(bs, q, d);
    var i :| Settled(bs, q, i) && bs[i].definition == d;
    var j := SettledElsewhere(bs, cs, q, i);
    ResolvesToNearest(cs, q, d);
  }

  /** With one nearest scope, resolution does not depend on the order of the bindings. */
  lemma {:induction false} OrderDoesNotMatter(bs: seq<Binding>, cs: seq<Binding>, q: Query)
    requires Reordered(bs, cs) && Uniform(bs, q)
    ensures Resolution(cs, q) == Resolution(bs, q)
  {
    UniformElsewhere(bs, cs, q);
    if Resolution(bs, q).Some? {
      ResolvesElsewhere(bs, cs, q);
    } else if Resolution(cs, q).Some? {
      ResolvesElsewhere(cs, bs, q);
    }
  }

  ghost predicate OrderIndependent(bs: seq<Binding>, q: Query) {
    forall cs :: Reordered(bs, cs) ==> Resolution(cs, q) == Resolution(bs, q)
  }

  /** A later declaration blocks the nearest bindings. */
  ghost predicate NearestBlocked(bs: seq<Binding>, q: Query) {
    exists i :: Nearest(bs, q, i) && Blocked(bs, q, Len(bs[i].scope))
  }

  lemma {:induction false} BlockedNeverResolves(bs: seq<Binding>, cs: seq<Binding>, q: Query)
    requires Reordered(bs, cs) && NearestBlocked(bs, q)
    ensures Resolution(cs, q) == None
  {
    var i :| Nearest(bs, q, i) && Blocked(bs, q, Len(bs[i].scope));
    var s := ScanAll(cs, q);
    var j := ScanFinds(cs, q);
    if s.best.Some? {
      SameMembers(bs, cs);
      assert cs[j] in bs && bs[i] in cs;
      BlockedElsewhere(bs, cs, q, Len(bs[i].scope));
    }
  }

  /** Of two adjacent nearest bindings with different scopes at the end, the last wins. */
  lemma {:induction false} LastWins(bs: seq<Binding>, q: Query)
    requires |bs| >= 2 && Nearest(bs, q, |bs| - 1) && Nearest(bs, q, |bs| - 2)
    requires bs[|bs| - 2].scope != bs[|bs| - 1].scope && !Blocked(bs, q, Len(bs[|bs| - 1].scope))
    ensures Resolution(bs, q) == Some(bs[|bs| - 1].definition)
  {
    var n := |bs|;
    var i := ScanFinds(bs, q);
    assert bs[n - 1] in bs;
    assert ScanAll(bs, q).best.Some?;
    assert i == n - 1;
  }

  lemma {:induction false} MoveToEnd(bs: seq<Binding>, i: int) returns (cs: seq<Binding>)
    requires 0 <= i < |bs|
    ensures cs == bs[..i] + bs[i + 1..] + [bs[i]] && Reordered(bs, cs)
  {
    assert bs == bs[..i] + [bs[i]] + bs[i + 1..];
    cs := bs[..i] + bs[i + 1..] + [bs[i]];
  }

  lemma {:induction false} MoveLast(bs: seq<Binding>, i: int, j: int) returns (cs: seq<Binding>)
    requires 0 <= i < |bs| && 0 <= j < |bs| && i != j
    ensures Reordered(bs, cs) && |cs| == |bs| && cs[|cs| - 2] == bs[i] && cs[|cs| - 1] == bs[j]
  {
    var once := MoveToEnd(bs, i);
    var k := if j < i then j else j - 1;
    assert once[k] == bs[j];
    cs := MoveToEnd(once, k);
  }

  lemma {:induction false} LaterOneWins(bs: seq<Binding>, q: Query, i: int, j: int) returns (cs: seq<Binding>)
    requires Nearest(bs, q, i) && Nearest(bs, q, j) && bs[i].scope != bs[j].scope && !NearestBlocked(bs, q)
    ensures Reordered(bs, cs) && Resolution(cs, q) == Some(bs[j].definition)
  {
    cs := MoveLast(bs, i, j);
    NearestElsewhere(bs, cs, q, i, |cs| - 2);
    NearestElsewhere(bs, cs, q, j, |cs| - 1);
    BlockedElsewhere(cs, bs, q, Len(bs[j].scope));
    LastWins(cs, q);
  }

  /** The nearest bindings have pairwise different scopes but one definition. */
  ghost predicate Interchangeable(bs: seq<Binding>, q: Query) {
    forall i, j :: Nearest(bs, q, i) && Nearest(bs, q, j) && i != j ==>
      bs[i].scope != bs[j].scope && bs[i].definition == bs[j].definition
  }

  /** Of two adjacent nearest bindings with one scope at the end, neither is chosen. */
  lemma {:induction false} LastTwoClash(bs: seq<Binding>, q: Query)
    requires |bs| >= 2 && Nearest(bs, q, |bs| - 1) && Nearest(bs, q, |bs| - 2)
    requires bs[|bs| - 2].scope == bs[|bs| - 1].scope
    ensures Resolution(bs, q) == None
  {
    var n := |bs|;
    assert !Differs(bs, q, n - 2, n - 1);
    var i := ScanFinds(bs, q);
    assert bs[n - 1] in bs;
    assert i != n - 1;
  }

  lemma {:induction false} ClashSomewhere(bs: seq<Binding>, q: Query, i: int, j: int) returns (cs: seq<Binding>)
    requires Nearest(bs, q, i) && Nearest(bs, q, j) && i != j && bs[i].scope == bs[j].scope
    ensures Reordered(bs, cs) && Resolution(cs, q) == None
  {
    cs := MoveLast(bs, i, j);
    NearestElsewhere(bs, cs, q, i, |cs| - 2);
    NearestElsewhere(bs, cs, q, j, |cs| - 1);
    LastTwoClash(cs, q);
  }

  /** Two nearest bindings of any reordering are two nearest bindings here. */
  lemma {:induction false} PairElsewhere(bs: seq<Binding>, cs: seq<Binding>, q: Query, i: int, j: int) returns (a: int, b: int)
    requires Reordered(bs, cs) && Nearest(cs, q, i) && Nearest(cs, q, j) && i != j
    ensures Nearest(bs, q, a) && Nearest(bs, q, b) && a != b && bs[a] == cs[i] && bs[b] == cs[j]
  {
    SameMembers(bs, cs);
    assert cs[i] in bs && cs[j] in bs;
    a :| 0 <= a < |bs| && bs[a] == cs[i];
    b :| 0 <= b < |bs| && bs[b] == cs[j];
    if a == b {
      TwoCopies(cs, if i < j then i else j, if i < j then j else i);
      b := OtherCopy(bs, a);
    }
    NearestElsewhere(bs, cs, q, a, i);
    NearestElsewhere(bs, cs, q, b, j);
  }

  lemma {:induction false} InterchangeableElsewhere(bs: seq<Binding>, cs: seq<Binding>, q: Query)
    requires Reordered(bs, cs) && Interchangeable(bs, q)
    ensures Interchangeable(cs, q)
  {
    forall i, j | Nearest(cs, q, i) && Nearest(cs, q, j) && i != j
      ensures cs[i].scope != cs[j].scope && cs[i].definition == cs[j].definition
    {
      var a, b := PairElsewhere(bs, cs, q, i, j);
    }
  }

  /** Interchangeable bindings resolve to their one definition unless blocked. */
  lemma {:induction false} InterchangeableResolves(bs: seq<Binding>, q: Query, k: int)
    requires Interchangeable(bs, q) && Nearest(bs, q, k) && !NearestBlocked(bs, q)
    ensures Resolution(bs, q) == Some(bs[k].definition)
  {
    var i := ScanFinds(bs, q);
    assert bs[k] in bs;
    assert ScanAll(bs, q).best.Some?;
  }

  lemma {:induction false} InterchangeableOrder(bs: seq<Binding>, cs: seq<Binding>, q: Query, k: int)
    requires Reordered(bs, cs) && Interchangeable(bs, q) && Nearest(bs, q, k) && !NearestBlocked(bs, q)
    ensures Resolution(cs, q) == Resolution(bs, q)
  {
    InterchangeableElsewhere(bs, cs, q);
    SameMembers(bs, cs);
    assert bs[k] in cs;
    var j :| 0 <= j < |cs| && cs[j] == bs[k];
    NearestElsewhere(bs, cs, q, k, j);
    if NearestBlocked(cs, q) {
      BlockedNeverResolves(cs, bs, q);
    }
    InterchangeableResolves(bs, q, k);
    if !NearestBlocked(cs, q) {
      InterchangeableResolves(cs, q, j);
    }
  }

  lemma {:induction false} IndependentWhen(bs: seq<Binding>, cs: seq<Binding>, q: Query)
    requires Reordered(bs, cs) && (Uniform(bs, q) || NearestBlocked(bs, q) || Interchangeable(bs, q))
    ensures Resolution(cs, q) == Resolution(bs, q)
  {
    if Uniform(bs, q) {
      OrderDoesNotMatter(bs, cs, q);
    } else if NearestBlocked(bs, q) {
      BlockedNeverResolves(bs, cs, q);
      BlockedNeverResolves(bs, bs, q);
    } else {
      var i, j :| Nearest(bs, q, i) && Nearest(bs, q, j) && bs[i].scope != bs[j].scope;
      InterchangeableOrder(bs, cs, q, i);
    }
  }

  /** With two nearest scopes and no block, an order-independent answer names every nearest
      definition and lets no two of them share a scope. */
  lemma {:induction false} IndependentOnlyWhen(bs: seq<Binding>, q: Query, k: int, l: int)
    requires OrderIndependent(bs, q) && !Uniform(bs, q) && !NearestBlocked(bs, q)
    requires Nearest(bs, q, k) && Nearest(bs, q, l) && k != l
    ensures bs[k].scope != bs[l].scope && bs[k].definition == bs[l].definition
  {
    var i, j :| Nearest(bs, q, i) && Nearest(bs, q, j) && bs[i].scope != bs[j].scope;
    var a := if bs[i].scope != bs[k].scope then i else j;
    var b := if bs[i].scope != bs[l].scope then i else j;
    var cs := LaterOneWins(bs, q, a, k);
    var ds := LaterOneWins(bs, q, b, l);
    if bs[k].scope == bs[l].scope {
      var es := ClashSomewhere(bs, q, k, l);
    }
  }

  /** Exactly when order matters, for every list: resolution gives the same answer in every
      order of the bindings if and only if the nearest ones share a scope, are blocked, or
      all name one definition from pairwise different scopes. */
  lemma {:induction false} OrderMattersExactly(bs: seq<Binding>, q: Query)
    ensures OrderIndependent(bs, q) <==> Uniform(bs, q) || NearestBlocked(bs, q) || Interchangeable(bs, q)
  {
    if Uniform(bs, q) || NearestBlocked(bs, q) || Interchangeable(bs, q) {
      forall cs | Reordered(bs, cs)
        ensures Resolution(cs, q) == Resolution(bs, q)
      {
        IndependentWhen(bs, cs, q);
      }
    } else if OrderIndependent(bs, q) {
      forall k, l | Nearest(bs, q, k) && Nearest(bs, q, l) && k != l
        ensures bs[k].scope != bs[l].scope && bs[k].definition == bs[l].definition
      {
        IndependentOnlyWhen(bs, q, k, l);
      }
    }
  }

  // ------------------------------------------------------------ scopes of a syntax tree

  /** A syntax node's byte range and its children. */
  datatype Node = Node(range: Range, children: seq<Node>)

  /** Children lie inside their parent, one after the other. */
  ghost predicate Nested(n: Node) {
    && n.range.start <= n.range.end
    && (forall i :: 0 <= i < |n.children| ==> Nested(n.children[i]) && Inside(n.children[i].range, n.range))
    && (forall i, j :: 0 <= i < j < |n.children| ==> n.children[i].range.end <= n.children[j].range.start)
  }

  predicate Inside(a: Range, b: Range) {
    b.start <= a.start && a.end <= b.end
  }

  /** Some node of the tree has this range. */
  ghost predicate RangeOf(n: Node, r: Range) {
    r == n.range || exists i :: 0 <= i < |n.children| && RangeOf(n.children[i], r)
  }

  lemma {:induction false} RangeInside(n: Node, r: Range)
    requires Nested(n) && RangeOf(n, r)
    ensures Inside(r, n.range) && r.start <= r.end
  {
    if r != n.range {
      var i :| 0 <= i < |n.children| && RangeOf(n.children[i], r);
      RangeInside(n.children[i], r);
    }
  }

  /** Any two node ranges of one syntax tree are nested or disjoint. */
  lemma {:induction false} TreeRangesNest(n: Node, a: Range, b: Range)
    requires Nested(n) && RangeOf(n, a) && RangeOf(n, b)
    ensures NestedOrDisjoint(a, b)
  {
    RangeInside(n, a);
    RangeInside(n, b);
    if a != n.range && b != n.range {
      var i :| 0 <= i < |n.children| && RangeOf(n.children[i], a);
      var j :| 0 <= j < |n.children| && RangeOf(n.children[j], b);
      RangeInside(n.children[i], a);
      RangeInside(n.children[j], b);
      if i == j {
        TreeRangesNest(n.children[i], a, b);
      }
    }
  }

  ghost predicate FromTree(n: Node, bs: seq<Binding>) {
    Nested(n) && forall b :: b in bs ==> RangeOf(n, b.scope)
  }

  /** What holds of the program: its scopes are node ranges of one syntax tree, so a name
      resolves to the same definition in every order of the bindings. */
  lemma {:induction false} SyntaxOrderIsIrrelevant(n: Node, bs: seq<Binding>, cs: seq<Binding>, q: Query)
    requires FromTree(n, bs) && Reordered(bs, cs)
    ensures Resolution(cs, q) == Resolution(bs, q)
  {
    forall a, b | a in bs && b in bs
      ensures NestedOrDisjoint(a.scope, b.scope)
    {
      TreeRangesNest(n, a.scope, b.scope);
    }
    SyntaxScopesAreUniform(bs, q);
    OrderDoesNotMatter(bs, cs, q);
  }

  /** And exactly when and to what it resolves. */
  lemma {:induction false} SyntaxResolvesToNearest(n: Node, bs: seq<Binding>, q: Query, d: nat)
    requires FromTree(n, bs)
    ensures Resolution(bs, q) == Some(d) <==> exists i :: Settled(bs, q, i) && bs[i].definition == d
  {
    forall a, b | a in bs && b in bs
      ensures NestedOrDisjoint(a.scope, b.scope)
    {
      TreeRangesNest(n, a.scope, b.scope);
    }
    SyntaxScopesAreUniform(bs, q);
    ResolvesToNearest(bs, q, d);
  }

  // ------------------------------------------------------------ lexical scoping

  /** The declaration can be meant at the query's position: it is resolvable there, made by
      then, and not local to another function. */
  predicate InForce(b: Binding, q: Query) {
    && b.resolvable && b.namespaces & q.namespace != 0
    && b.scope.start <= q.position && q.position < b.scope.end && b.visible <= q.position
    && (b.functionBoundary.Some? ==> b.functionBoundary.value == q.boundary)
  }

  /** `a` shadows `b`: it is declared in an inner scope, or later in the same one. */
  predicate Shadows(a: Binding, b: Binding) {
    && b.scope.start <= a.scope.start && a.scope.end <= b.scope.end
    && (a.scope == b.scope ==> b.visible < a.visible)
  }

  /** `c` is declared only after the position, in a scope around it no longer than `b`'s, and
      must not be used before. */
  predicate TooEarly(c: Binding, b: Binding, q: Query) {
    && c.blocksBefore && c.namespaces & q.namespace != 0
    && c.scope.start <= q.position && q.position < c.scope.end && q.position < c.visible
    && c.scope.end - c.scope.start <= b.scope.end - b.scope.start
  }

  /** The declaration is in force, shadows every other one in force, and nothing makes its
      use too early. */
  ghost predicate Meant(bs: seq<Binding>, q: Query, i: int) {
    && 0 <= i < |bs| && InForce(bs[i], q)
    && (forall j :: 0 <= j < |bs| && j != i && InForce(bs[j], q) ==> Shadows(bs[i], bs[j]))
    && (forall j :: 0 <= j < |bs| ==> !TooEarly(bs[j], bs[i], q))
  }

  lemma {:induction false} InForceIsEligible(b: Binding, q: Query)
    ensures InForce(b, q) <==> Eligible(b, q)
  {
  }

  /** For scopes of one tree around one position, the key order is shadowing. */
  lemma {:induction false} CloserIsShadowing(a: Binding, b: Binding, q: Query)
    requires InForce(a, q) && InForce(b, q) && NestedOrDisjoint(a.scope, b.scope)
    ensures Closer(a, b) <==> Shadows(a, b)
  {
  }

  lemma {:induction false} EarlyIsBlocked(bs: seq<Binding>, q: Query, i: int)
    requires 0 <= i < |bs| && InForce(bs[i], q)
    ensures Blocked(bs, q, Len(bs[i].scope)) <==> exists j :: 0 <= j < |bs| && TooEarly(bs[j], bs[i], q)
  {
    var len := Len(bs[i].scope);
    forall j | 0 <= j < |bs|
      ensures Blocks(bs[j], q, len) <==> TooEarly(bs[j], bs[i], q)
    {
    }
  }

  /** The only nearest binding is closer than every other eligible one. */
  lemma {:induction false} OnlyNearestIsClosest(bs: seq<Binding>, q: Query, i: int)
    ensures OnlyNearest(bs, q, i) <==>
              && 0 <= i < |bs| && Eligible(bs[i], q)
              && forall j :: 0 <= j < |bs| && j != i && Eligible(bs[j], q) ==> Closer(bs[i], bs[j])
  {
    if OnlyNearest(bs, q, i) {
      forall j | 0 <= j < |bs| && j != i && Eligible(bs[j], q)
        ensures Closer(bs[i], bs[j])
      {
        assert !Nearest(bs, q, j);
      }
    } else if 0 <= i < |bs| && Eligible(bs[i], q)
              && forall j :: 0 <= j < |bs| && j != i && Eligible(bs[j], q) ==> Closer(bs[i], bs[j]) {
      assert bs[i] in bs;
      assert Nearest(bs, q, i);
    }
  }

  lemma {:induction false} SettledIsMeant(bs: seq<Binding>, q: Query, i: int)
    requires forall a, b :: a in bs && b in bs ==> NestedOrDisjoint(a.scope, b.scope)
    ensures Settled(bs, q, i) <==> Meant(bs, q, i)
  {
    OnlyNearestIsClosest(bs, q, i);
    forall j | 0 <= j < |bs|
      ensures InForce(bs[j], q) <==> Eligible(bs[j], q)
      ensures 0 <= i < |bs| && InForce(bs[i], q) && InForce(bs[j], q) ==> (Closer(bs[i], bs[j]) <==> Shadows(bs[i], bs[j]))
    {
      InForceIsEligible(bs[j], q);
      if 0 <= i < |bs| && InForce(bs[i], q) && InForce(bs[j], q) {
        CloserIsShadowing(bs[i], bs[j], q);
      }
    }
    if 0 <= i < |bs| && InForce(bs[i], q) {
      EarlyIsBlocked(bs, q, i);
    }
  }

  lemma {:induction false} ResolvesToMeant(n: Node, bs: seq<Binding>, q: Query, d: nat)
    requires FromTree(n, bs)
    ensures Resolution(bs, q) == Some(d) <==> exists i :: Meant(bs, q, i) && bs[i].definition == d
  {
    SyntaxResolvesToNearest(n, bs, q, d);
    forall i
      ensures Settled(bs, q, i) <==> Meant(bs, q, i)
    {
      forall a, b | a in bs && b in bs
        ensures NestedOrDisjoint(a.scope, b.scope)
      {
        TreeRangesNest(n, a.scope, b.scope);
      }
      SettledIsMeant(bs, q, i);
    }
  }

  lemma {:induction false} LastOfTwo(a: Binding, b: Binding, q: Query)
    requires Eligible(a, q) && Eligible(b, q) && !Closer(a, b) && !Closer(b, a) && a.scope != b.scope
    requires !a.blocksBefore && !b.blocksBefore
    ensures Resolution([a, b], q) == Some(b.definition)
  {
    assert Nearest([a, b], q, 0) && Nearest([a, b], q, 1);
    LastWins([a, b], q);
  }

  /** The tree is needed: for two overlapping scopes of one length, which no syntax tree has,
      the answer depends on which binding comes last. */
  lemma {:induction false} OverlapDependsOnOrder()
    ensures var q := Query(5, 1, 0);
            var a := Binding(0, Range(0, 10), 0, true, false, None, 1);
            var b := Binding(1, Range(1, 11), 0, true, false, None, 1);
            Resolution([a, b], q) == Some(1) && Resolution([b, a], q) == Some(0)
  {
    var q := Query(5, 1, 0);
    var a := Binding(0, Range(0, 10), 0, true, false, None, 1);
    var b := Binding(1, Range(1, 11), 0, true, false, None, 1);
    assert Eligible(a, q) && Eligible(b, q);
    LastOfTwo(a, b, q);
    LastOfTwo(b, a, q);
  }

  // ------------------------------------------------------------ the index

  /** Which definition each binding names; the name of definition `d` is `names[d]`. */
  ghost predicate Indexed(bindings: seq<Binding>, names: seq<string>) {
    forall i :: 0 <= i < |bindings| ==> bindings[i].definition < |names|
  }

  /** Positions of the bindings called `name`, in order. */
  ghost function Positions(bindings: seq<Binding>, names: seq<string>, name: string): (r: seq<nat>)
    requires Indexed(bindings, names)
    ensures forall k :: 0 <= k < |r| ==> r[k] < |bindings|
  {
    if bindings == [] then []
    else
      var n := |bindings| - 1;
      var front := Positions(bindings[..n], names, name);
      if names[bindings[n].definition] == name then front + [n] else front
  }

  /** Positions are ascending and are exactly those of the bindings called `name`. */
  lemma {:induction false} PositionsExact(bindings: seq<Binding>, names: seq<string>, name: string)
    requires Indexed(bindings, names)
    ensures var r := Positions(bindings, names, name);
            && (forall j, k :: 0 <= j < k < |r| ==> r[j] < r[k])
            && (forall i: nat :: i in r <==> i < |bindings| && names[bindings[i].definition] == name)
  {
    if bindings != [] {
      var n := |bindings| - 1;
      var front, r := Positions(bindings[..n], names, name), Positions(bindings, names, name);
      PositionsExact(bindings[..n], names, name);
      forall i: nat
        ensures i in r <==> i < |bindings| && names[bindings[i].definition] == name
      {
        assert i in r <==> i in front || (i == n && names[bindings[n].definition] == name);
        assert i < n ==> bindings[..n][i] == bindings[i];
      }
    }
  }

  ghost predicate Groups(index: map<string, seq<nat>>, bindings: seq<Binding>, names: seq<string>)
    requires Indexed(bindings, names)
  {
    forall name :: Listed(index, name) == Positions(bindings, names, name)
  }

  function Listed(index: map<string, seq<nat>>, name: string): seq<nat> {
    if name in index then index[name] else []
  }

  /** `new`: groups the bindings by name, keeping their order. */
  method BuildIndex(bindings: seq<Binding>, names: seq<string>) returns (index: map<string, seq<nat>>)
    requires Indexed(bindings, names)
    ensures Groups(index, bindings, names)
    ensures forall name :: name in index ==> index[name] != []
  {
    index := map[];
    assert bindings[..0] == [];
    for i := 0 to |bindings|
      invariant Groups(index, bindings[..i], names)
      invariant forall name :: name in index ==> index[name] != []
    {
      var name := names[bindings[i].definition];
      index := index[name := Listed(index, name) + [i]];
      assert bindings[..i + 1][..i] == bindings[..i];
    }
    assert bindings[..|bindings|] == bindings;
  }

  function Pick(bindings: seq<Binding>, at: seq<nat>): (r: seq<Binding>)
    requires forall k :: 0 <= k < |at| ==> at[k] < |bindings|
    ensures |r| == |at| && forall k :: 0 <= k < |r| ==> r[k] == bindings[at[k]]
  {
    seq(|at|, k requires 0 <= k < |at| => bindings[at[k]])
  }

  /** `resolve`: the definition settled on, the first candidates, and whether more exist. */
  method Resolve(bindings: seq<Binding>, index: map<string, seq<nat>>, names: seq<string>, name: string, q: Query)
    returns (resolved: Option<nat>, candidates: seq<nat>, more: bool)
    requires Indexed(bindings, names) && Groups(index, bindings, names)
    ensures var at := Positions(bindings, names, name);
            && resolved == Resolution(Pick(bindings, at), q)
            && |candidates| == (if |at| < MAX_CANDIDATES then |at| else MAX_CANDIDATES)
            && (forall k :: 0 <= k < |candidates| ==> candidates[k] == bindings[at[k]].definition)
            && (more <==> |candidates| < |at|)
  {
    if name !in index {
      assert Listed(index, name) == Positions(bindings, names, name);
      return None, [], false;
    }
    var at := index[name];
    assert at == Listed(index, name) == Positions(bindings, names, name);
    var bs := Pick(bindings, at);
    var shown := if |at| < MAX_CANDIDATES then |at| else MAX_CANDIDATES;
    candidates := seq(shown, k requires 0 <= k < shown => bs[k].definition);
    more := |at| > MAX_CANDIDATES;
    var s := ScanLoop(bs, q);
    resolved := Settle(s, bs, q);
  }

  /** Among all bindings, number `i` is the one the name means at the query's position. */
  ghost predicate MeantBy(bindings: seq<Binding>, names: seq<string>, name: string, q: Query, i: int)
    requires Indexed(bindings, names)
  {
    && 0 <= i < |bindings| && names[bindings[i].definition] == name && InForce(bindings[i], q)
    && (forall j :: 0 <= j < |bindings| && j != i && names[bindings[j].definition] == name && InForce(bindings[j], q)
          ==> Shadows(bindings[i], bindings[j]))
    && (forall j :: 0 <= j < |bindings| && names[bindings[j].definition] == name ==> !TooEarly(bindings[j], bindings[i], q))
  }

  lemma {:induction false} MeantAmong(bindings: seq<Binding>, names: seq<string>, name: string, q: Query, k: nat)
    requires Indexed(bindings, names) && k < |Positions(bindings, names, name)|
    ensures var at := Positions(bindings, names, name);
            Meant(Pick(bindings, at), q, k) <==> MeantBy(bindings, names, name, q, at[k])
  {
    var at := Positions(bindings, names, name);
    var bs := Pick(bindings, at);
    PositionsExact(bindings, names, name);
    assert at[k] in at;
    if Meant(bs, q, k) {
      forall j: nat | j < |bindings| && names[bindings[j].definition] == name
        ensures j != at[k] && InForce(bindings[j], q) ==> Shadows(bindings[at[k]], bindings[j])
        ensures !TooEarly(bindings[j], bindings[at[k]], q)
      {
        assert j in at;
        var m :| 0 <= m < |at| && at[m] == j;
        assert bs[m] == bindings[j] && bs[k] == bindings[at[k]];
      }
    }
    if MeantBy(bindings, names, name, q, at[k]) {
      forall m | 0 <= m < |bs|
        ensures m != k && InForce(bs[m], q) ==> Shadows(bs[k], bs[m])
        ensures !TooEarly(bs[m], bs[k], q)
      {
        assert at[m] in at && bs[m] == bindings[at[m]];
      }
    }
  }

  /** A name means what lexical scoping says: where every scope is a node range of one syntax
      tree, `resolve` settles on a definition if and only if a binding of that name with this
      definition is in force, shadows every other one in force, and no later declaration of
      the name makes the use too early. */
  lemma {:induction false} ResolvesLexically(
    tree: Node, bindings: seq<Binding>, names: seq<string>, name: string, q: Query, d: nat)
    requires Indexed(bindings, names) && FromTree(tree, bindings)
    ensures Resolution(Pick(bindings, Positions(bindings, names, name)), q) == Some(d) <==>
              exists i :: MeantBy(bindings, names, name, q, i) && bindings[i].definition == d
  {
    var at := Positions(bindings, names, name);
    var bs := Pick(bindings, at);
    PositionsExact(bindings, names, name);
    PickFromTree(tree, bindings, at);
    ResolvesToMeant(tree, bs, q, d);
    if k :| Meant(bs, q, k) && bs[k].definition == d {
      MeantAmong(bindings, names, name, q, k);
    }
    if i: nat :| MeantBy(bindings, names, name, q, i) && bindings[i].definition == d {
      assert i in at;
      var k :| 0 <= k < |at| && at[k] == i;
      MeantAmong(bindings, names, name, q, k);
      assert Meant(bs, q, k) && bs[k].definition == d;
    }
  }

  lemma {:induction false} PickFromTree(tree: Node, bindings: seq<Binding>, at: seq<nat>)
    requires FromTree(tree, bindings) && forall k :: 0 <= k < |at| ==> at[k] < |bindings|
    ensures FromTree(tree, Pick(bindings, at))
  {
    var bs := Pick(bindings, at);
    forall b | b in bs
      ensures RangeOf(tree, b.scope)
    {
      var k :| 0 <= k < |bs| && bs[k] == b;
      assert bindings[at[k]] in bindings;
    }
  }

  method ScanLoop(bs: seq<Binding>, q: Query) returns (s: Scan)
    ensures s == ScanAll(bs, q)
  {
    var best: Option<Binding>, ambiguous := None, false;
    for i := 0 to |bs|
      invariant Scan(best, ambiguous) == ScanAll(bs[..i], q)
    {
      assert bs[..i + 1][..i] == bs[..i];
      var b := bs[i];
      if Eligible(b, q) {
        if best.Some? && Closer(best.value, b) {
        } else if best.Some? && best.value.scope == b.scope && best.value.visible == b.visible {
          ambiguous := true;
        } else {
          best, ambiguous := Some(b), false;
        }
      }
    }
    assert bs[..|bs|] == bs;
    s := Scan(best, ambiguous);
  }
}
