/** Bounded rankings: the filename lane (src/search.rs) and the semantic lane
    (src/semantic.rs). Both keep a heap of at most `limit` candidates whose root is the
    worst one. A heap is a multiset from which some worst element can be popped; scores
    are ranks in the total order of the source's comparison. */
module TopK {
  import opened Basics
  import opened Order

  const FILE_CANDIDATE_LIMIT: nat := 1000

  /** A candidate: its score, and the key that breaks ties (a path, or an identifier). */
  datatype Item = Item(score: int, key: seq<int>)

  /** Higher scores first, then smaller keys. */
  predicate Better(a: Item, b: Item) {
    a.score > b.score || (a.score == b.score && LexLess(a.key, b.key))
  }

  predicate NotWorse(a: Item, b: Item) {
    a == b || Better(a, b)
  }

  lemma {:induction false} NotWorseTransitive(a: Item, b: Item, c: Item)
    requires NotWorse(a, b) && NotWorse(b, c)
    ensures NotWorse(a, c)
  {
    if a != b && b != c && a.score == b.score == c.score {
      LexTransitive(a.key, b.key, c.key);
    }
  }

  lemma {:induction false} NotWorseTotal(a: Item, b: Item)
    ensures NotWorse(a, b) || NotWorse(b, a)
  {
    if a.score == b.score && a.key != b.key {
      LexTotal(a.key, b.key);
    }
  }

  lemma {:induction false} NotWorseAntisymmetric(a: Item, b: Item)
    requires NotWorse(a, b) && NotWorse(b, a)
    ensures a == b
  {
    if a != b && a.score == b.score {
      LexAsymmetric(a.key, b.key);
    }
  }

  // ------------------------------------------------------------ sorting

  ghost predicate Sorted(s: seq<Item>) {
    forall i, j :: 0 <= i < j < |s| ==> NotWorse(s[i], s[j])
  }

  function Insert(s: seq<Item>, x: Item): (r: seq<Item>)
    ensures |r| == |s| + 1
  {
    if s == [] || NotWorse(x, s[0]) then [x] + s else [s[0]] + Insert(s[1..], x)
  }

  /** All candidates in ranking order. */
  function Sort(s: seq<Item>): (r: seq<Item>)
    ensures |r| == |s|
  {
    if s == [] then [] else Insert(Sort(s[..|s| - 1]), s[|s| - 1])
  }

  /** The first `limit` of the fully sorted candidates. */
  function Top(s: seq<Item>, limit: nat): (r: seq<Item>)
    ensures |r| <= limit
  {
    if |s| <= limit then Sort(s) else Sort(s)[..limit]
  }

  lemma {:induction false} InsertBag(s: seq<Item>, x: Item)
    ensures multiset(Insert(s, x)) == multiset(s) + multiset{x}
  {
    if s != [] && !NotWorse(x, s[0]) {
      assert s == [s[0]] + s[1..];
      InsertBag(s[1..], x);
    }
  }

  lemma {:induction false} ConsSorted(x: Item, s: seq<Item>)
    requires Sorted(s) && forall y :: y in s ==> NotWorse(x, y)
    ensures Sorted([x] + s)
  {
    var all := [x] + s;
    forall i, j | 0 <= i < j < |all|
      ensures NotWorse(all[i], all[j])
    {
      assert all[j] == s[j - 1] && all[j] in s;
    }
  }

  lemma {:induction false} HeadBest(s: seq<Item>, x: Item, y: Item)
    requires Sorted(s) && s != [] && NotWorse(x, s[0]) && y in s
    ensures NotWorse(x, y)
  {
    var i :| 0 <= i < |s| && s[i] == y;
    if i > 0 {
      NotWorseTransitive(x, s[0], s[i]);
    }
  }

  lemma {:induction false} InsertSorted(s: seq<Item>, x: Item)
    requires Sorted(s)
    ensures Sorted(Insert(s, x))
  {
    if s == [] || NotWorse(x, s[0]) {
      forall y | y in s
        ensures NotWorse(x, y)
      {
        HeadBest(s, x, y);
      }
      ConsSorted(x, s);
    } else {
      NotWorseTotal(x, s[0]);
      InsertSorted(s[1..], x);
      InsertBag(s[1..], x);
      forall y | y in Insert(s[1..], x)
        ensures NotWorse(s[0], y)
      {
        assert y in multiset(Insert(s[1..], x));
        assert y == x || y in s[1..];
      }
      ConsSorted(s[0], Insert(s[1..], x));
    }
  }

  lemma {:induction false} SortSorts(s: seq<Item>)
    ensures Sorted(Sort(s)) && multiset(Sort(s)) == multiset(s)
  {
    if s != [] {
      var n := |s| - 1;
      SortSorts(s[..n]);
      InsertSorted(Sort(s[..n]), s[n]);
      InsertBag(Sort(s[..n]), s[n]);
      assert s == s[..n] + [s[n]];
    }
  }

  lemma {:induction false} SortedUnique(a: seq<Item>, b: seq<Item>)
    requires Sorted(a) && Sorted(b) && multiset(a) == multiset(b)
    ensures a == b
  {
    SameLength(a, b);
    if a != [] {
      SameHead(a, b);
      TailBag(a);
      TailBag(b);
      TailStaysSorted(a);
      TailStaysSorted(b);
      SortedUnique(a[1..], b[1..]);
      HeadAndTail(a, b);
    }
  }

  lemma {:induction false} SameLength(a: seq<Item>, b: seq<Item>)
    requires multiset(a) == multiset(b)
    ensures |a| == |b|
  {
    assert |a| == |multiset(a)| && |b| == |multiset(b)|;
  }

  lemma {:induction false} SameHead(a: seq<Item>, b: seq<Item>)
    requires Sorted(a) && Sorted(b) && a != [] && b != [] && multiset(a) == multiset(b)
    ensures a[0] == b[0]
  {
    assert a[0] in multiset(b) && b[0] in multiset(a);
    HeadBest(a, a[0], b[0]);
    HeadBest(b, b[0], a[0]);
    NotWorseAntisymmetric(a[0], b[0]);
  }

  lemma {:induction false} HeadAndTail(a: seq<Item>, b: seq<Item>)
    requires a != [] && b != [] && a[0] == b[0] && a[1..] == b[1..]
    ensures a == b
  {
    assert a == [a[0]] + a[1..] && b == [b[0]] + b[1..];
  }

  lemma {:induction false} TailStaysSorted(s: seq<Item>)
    requires Sorted(s) && s != []
    ensures Sorted(s[1..])
  {
  }

  lemma {:induction false} TailBag(s: seq<Item>)
    requires s != []
    ensures multiset(s[1..]) == multiset(s) - multiset{s[0]}
  {
    assert s == [s[0]] + s[1..];
  }

  /** The ranking does not depend on the order in which candidates arrive. */
  lemma {:induction false} ArrivalOrderIsIrrelevant(a: seq<Item>, b: seq<Item>, limit: nat)
    requires multiset(a) == multiset(b)
    ensures Top(a, limit) == Top(b, limit)
  {
    SortSorts(a);
    SortSorts(b);
    assert |a| == |multiset(a)| && |b| == |multiset(b)|;
    SortedUnique(Sort(a), Sort(b));
  }

  // ------------------------------------------------------------ the heap

  lemma {:induction false} PrefixSorted(s: seq<Item>, k: nat)
    requires Sorted(s) && k <= |s|
    ensures Sorted(s[..k])
  {
  }

  /** Inserting and cutting may be done on the first `k` alone. */
  lemma {:induction false} InsertPrefix(s: seq<Item>, x: Item, k: nat)
    requires k <= |s|
    ensures Insert(s, x)[..k] == Insert(s[..k], x)[..k]
  {
    if k > 0 && !NotWorse(x, s[0]) {
      InsertPrefix(s[1..], x, k - 1);
      assert s[..k][0] == s[0] && s[..k][1..] == s[1..][..k - 1];
      var a, b := Insert(s[1..], x), Insert(s[..k][1..], x);
      assert ([s[0]] + a)[..k] == [s[0]] + a[..k - 1];
      assert ([s[0]] + b)[..k] == [s[0]] + b[..k - 1];
    }
  }

  predicate IsWorst(heap: multiset<Item>, w: Item) {
    w in heap && forall x :: x in heap ==> NotWorse(x, w)
  }

  lemma {:induction false} WorstIsLast(s: seq<Item>, w: Item)
    requires Sorted(s) && s != [] && IsWorst(multiset(s), w)
    ensures w == s[|s| - 1]
  {
    var last := s[|s| - 1];
    assert last in multiset(s) && w in s;
    var i :| 0 <= i < |s| && s[i] == w;
    if i < |s| - 1 {
      NotWorseAntisymmetric(w, last);
    }
  }

  /** Removes a worst element. */
  method Pop(heap: multiset<Item>, ghost s: seq<Item>) returns (rest: multiset<Item>)
    requires heap == multiset(s) && Sorted(s) && s != []
    ensures rest == multiset(s[..|s| - 1])
  {
    WorstExists(s);
    var w :| w in heap && IsWorst(heap, w);
    WorstIsLast(s, w);
    FrontBag(s);
    rest := heap - multiset{w};
  }

  lemma {:induction false} FrontBag(s: seq<Item>)
    requires s != []
    ensures multiset(s) - multiset{s[|s| - 1]} == multiset(s[..|s| - 1])
  {
    assert s == s[..|s| - 1] + [s[|s| - 1]];
  }

  lemma {:induction false} WorstExists(s: seq<Item>)
    requires Sorted(s) && s != []
    ensures IsWorst(multiset(s), s[|s| - 1])
  {
    var w := s[|s| - 1];
    forall x | x in multiset(s)
      ensures NotWorse(x, w)
    {
      var i :| 0 <= i < |s| && s[i] == x;
    }
  }

  /** Pushing a candidate and popping past the limit keeps exactly the top ones. */
  lemma {:induction false} TopStep(s: seq<Item>, x: Item, limit: nat)
    ensures var grown := Insert(Top(s, limit), x);
            && Sorted(grown) && multiset(grown) == multiset(Top(s, limit)) + multiset{x}
            && Top(s + [x], limit) == if |s| < limit then grown else grown[..limit]
  {
    var t := Top(s, limit);
    SortSorts(s);
    if |s| > limit {
      PrefixSorted(Sort(s), limit);
    }
    InsertSorted(t, x);
    InsertBag(t, x);
    assert (s + [x])[..|s|] == s;
    if |s| >= limit {
      InsertPrefix(Sort(s), x, limit);
      assert t == Sort(s)[..limit];
    }
  }

  /** The heap after the candidates seen so far. */
  ghost predicate Holds(heap: multiset<Item>, seen: seq<Item>, limit: nat) {
    heap == multiset(Top(seen, limit))
  }

  /** Pushes one candidate, and pops a worst one when that exceeds the limit. */
  method Push(heap: multiset<Item>, x: Item, limit: nat, ghost seen: seq<Item>)
    returns (next: multiset<Item>, popped: bool)
    requires Holds(heap, seen, limit)
    ensures Holds(next, seen + [x], limit) && popped == (|seen| + 1 > limit)
  {
    ghost var grown := Insert(Top(seen, limit), x);
    TopStep(seen, x, limit);
    next, popped := heap + multiset{x}, false;
    assert |next| == |grown|;
    if |next| > limit {
      next := Pop(next, grown);
      popped := true;
    }
  }

  /** `into_vec` in some order. */
  method IntoVec(heap: multiset<Item>) returns (v: seq<Item>)
    ensures multiset(v) == heap
  {
    v := [];
    var rest := heap;
    while rest != multiset{}
      invariant multiset(v) + rest == heap
      decreases |rest|
    {
      var x :| x in rest;
      v := v + [x];
      rest := rest - multiset{x};
    }
  }

  /** The heap's contents in ranking order. */
  method Ranked(heap: multiset<Item>, limit: nat, ghost seen: seq<Item>) returns (hits: seq<Item>)
    requires Holds(heap, seen, limit)
    ensures hits == Top(seen, limit)
  {
    var v := IntoVec(heap);
    hits := Sort(v);
    SortSorts(v);
    SortSorts(seen);
    if |seen| > limit {
      PrefixSorted(Sort(seen), limit);
    }
    SortedUnique(hits, Top(seen, limit));
  }

  /** Nothing left out ranks above anything returned. */
  lemma {:induction false} TopIsBest(items: seq<Item>, limit: nat, x: Item, y: Item)
    requires x in Top(items, limit) && y in multiset(items) - multiset(Top(items, limit))
    ensures NotWorse(x, y)
  {
    SortSorts(items);
    var all := Sort(items);
    if |items| > limit {
      RestBag(all, limit);
      FrontIsBest(all, limit, x, y);
    }
  }

  /** The ranking has as many of the candidates as it may. */
  lemma {:induction false} TopSorted(items: seq<Item>, limit: nat)
    ensures var top := Top(items, limit);
            |top| == Min(|items|, limit) && Sorted(top) && multiset(top) <= multiset(items)
  {
    SortSorts(items);
    FrontOf(Sort(items), |Top(items, limit)|);
  }

  lemma {:induction false} FrontOf(all: seq<Item>, n: nat)
    requires n <= |all| && Sorted(all)
    ensures Sorted(all[..n]) && multiset(all[..n]) <= multiset(all) && all[..|all|] == all
  {
    PrefixSorted(all, n);
    assert all == all[..n] + all[n..];
  }

  /** In fields: the ranking goes by descending score, ties by ascending key. */
  lemma {:induction false} RankingInFields(items: seq<Item>, limit: nat, i: nat, j: nat)
    requires i < j < |Top(items, limit)|
    ensures var x, y := Top(items, limit)[i], Top(items, limit)[j];
            x.score >= y.score && (x.score == y.score ==> !LexLess(y.key, x.key))
  {
    TopSorted(items, limit);
    NotWorseInFields(Top(items, limit)[i], Top(items, limit)[j]);
  }

  /** And no candidate that was left out has a higher score than one that was kept, nor an equal
      one and a smaller key. */
  lemma {:induction false} LeftOutIsNoBetter(items: seq<Item>, limit: nat, x: Item, y: Item)
    requires x in Top(items, limit) && y in multiset(items) - multiset(Top(items, limit))
    ensures x.score >= y.score && (x.score == y.score ==> !LexLess(y.key, x.key))
  {
    TopIsBest(items, limit, x, y);
    NotWorseInFields(x, y);
  }

  lemma {:induction false} NotWorseInFields(x: Item, y: Item)
    requires NotWorse(x, y)
    ensures x.score >= y.score && (x.score == y.score ==> !LexLess(y.key, x.key))
  {
    if x == y {
      LexIrreflexive(x.key);
    } else if x.score == y.score {
      LexAsymmetric(x.key, y.key);
    }
  }

  lemma {:induction false} LexIrreflexive(a: seq<int>)
    ensures !LexLess(a, a)
  {
    if a != [] {
      LexIrreflexive(a[1..]);
    }
  }

  lemma {:induction false} RestBag(all: seq<Item>, limit: nat)
    requires limit <= |all|
    ensures multiset(all) - multiset(all[..limit]) == multiset(all[limit..])
  {
    assert all == all[..limit] + all[limit..];
  }

  lemma {:induction false} FrontIsBest(all: seq<Item>, limit: nat, x: Item, y: Item)
    requires Sorted(all) && limit <= |all| && x in all[..limit] && y in all[limit..]
    ensures NotWorse(x, y)
  {
    var i :| 0 <= i < limit && all[i] == x;
    var j :| limit <= j < |all| && all[j] == y;
  }

  // ------------------------------------------------------------ the two lanes

  /** The files that match at all, as candidates. */
  function Matches(paths: seq<seq<int>>, score: seq<int> -> nat): seq<Item> {
    if paths == [] then []
    else
      var front, path := Matches(paths[..|paths| - 1], score), paths[|paths| - 1];
      if score(path) == 0 then front else front + [Item(score(path), path)]
  }

  lemma {:induction false} LastBag<T>(s: seq<T>)
    requires s != []
    ensures multiset(s) == multiset(s[..|s| - 1]) + multiset{s[|s| - 1]}
  {
    assert s == s[..|s| - 1] + [s[|s| - 1]];
  }

  /** Exactly the matching paths are candidates, each as often as it occurs. */
  lemma {:induction false} MatchesExact(paths: seq<seq<int>>, score: seq<int> -> nat, x: Item)
    ensures multiset(Matches(paths, score))[x] == if x.score == score(x.key) && x.score != 0 then multiset(paths)[x.key] else 0
  {
    if paths != [] {
      var n := |paths| - 1;
      MatchesExact(paths[..n], score, x);
      LastBag(paths);
    }
  }

  /** `file_hits`: the best matching files, and whether any match was left out. */
  method FileHits(paths: seq<seq<int>>, score: seq<int> -> nat) returns (hits: seq<Item>, truncated: bool)
    ensures hits == Top(Matches(paths, score), FILE_CANDIDATE_LIMIT)
    ensures truncated <==> |Matches(paths, score)| > FILE_CANDIDATE_LIMIT
  {
    hits, truncated := BestFiles(paths, score, FILE_CANDIDATE_LIMIT);
  }

  lemma {:induction false} MatchesOneMore(paths: seq<seq<int>>, score: seq<int> -> nat, i: nat)
    requires i < |paths|
    ensures Matches(paths[..i + 1], score)
         == Matches(paths[..i], score) + if score(paths[i]) == 0 then [] else [Item(score(paths[i]), paths[i])]
  {
    assert paths[..i + 1][..i] == paths[..i];
  }

  method BestFiles(paths: seq<seq<int>>, score: seq<int> -> nat, limit: nat) returns (hits: seq<Item>, truncated: bool)
    ensures hits == Top(Matches(paths, score), limit)
    ensures truncated <==> |Matches(paths, score)| > limit
  {
    var heap: multiset<Item> := multiset{};
    truncated := false;
    ghost var seen: seq<Item> := [];
    for i := 0 to |paths|
      invariant seen == Matches(paths[..i], score) && Holds(heap, seen, limit)
      invariant truncated <==> |seen| > limit
    {
      MatchesOneMore(paths, score, i);
      if score(paths[i]) != 0 {
        var x := Item(score(paths[i]), paths[i]);
        var popped;
        heap, popped := Push(heap, x, limit, seen);
        seen := seen + [x];
        truncated := truncated || popped;
      }
    }
    hits := Ranked(heap, limit, seen);
    assert paths[..|paths|] == paths;
  }

  /** The candidates whose similarity is finite; `rank` is none for the others. */
  function Finite(candidates: seq<(nat, Option<int>)>): seq<Item> {
    if candidates == [] then []
    else
      var front, (id, rank) := Finite(candidates[..|candidates| - 1]), candidates[|candidates| - 1];
      if rank.None? then front else front + [Item(rank.value, [id])]
  }

  /** Exactly the candidates with a finite score are ranked, each as often as it occurs. */
  lemma {:induction false} FiniteExact(candidates: seq<(nat, Option<int>)>, x: Item)
    ensures multiset(Finite(candidates))[x]
         == if |x.key| == 1 && x.key[0] >= 0 then multiset(candidates)[(x.key[0], Some(x.score))] else 0
  {
    if candidates != [] {
      var n := |candidates| - 1;
      FiniteExact(candidates[..n], x);
      LastBag(candidates);
      var last := candidates[n];
      if last.1.Some? {
        var item := Item(last.1.value, [last.0]);
        assert Finite(candidates) == Finite(candidates[..n]) + [item];
        assert item == x <==> x.key == [last.0] && x.score == last.1.value;
      }
      assert |x.key| == 1 ==> (x.key == [last.0] <==> x.key[0] == last.0);
    }
  }

  /** `search_top_k` */
  method SearchTopK(candidates: seq<(nat, Option<int>)>, limit: nat) returns (hits: seq<Item>)
    ensures hits == Top(Finite(candidates), limit)
  {
    if limit == 0 {
      return [];
    }
    var heap: multiset<Item> := multiset{};
    ghost var seen: seq<Item> := [];
    assert candidates[..0] == [];
    for i := 0 to |candidates|
      invariant seen == Finite(candidates[..i]) && Holds(heap, seen, limit)
    {
      assert candidates[..i + 1][..i] == candidates[..i];
      var (id, rank) := candidates[i];
      if rank.Some? {
        var x := Item(rank.value, [id]);
        var popped;
        heap, popped := Push(heap, x, limit, seen);
        seen := seen + [x];
      }
    }
    assert candidates[..|candidates|] == candidates;
    hits := Ranked(heap, limit, seen);
  }
}
