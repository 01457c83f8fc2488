/** What every sequence of indexing batches leaves in the history store. */
module HistoryTraversal {
  import opened Basics
  import opened HistoryStorage

  // ---------------------------------------------------------------- invariant

  /** Stored commits carry their real first parent and time, grafts included. */
  ghost predicate CommitsTrue(repo: Repository, t: Tables) {
    forall o <- t.commits :: o in repo && t.commits[o] == Row(repo[o].parent, repo[o].time)
  }

  /** Depth `d` of a tip holds element `d` of its chain. */
  ghost predicate DepthTrue(repo: Repository, t: Tables, tip: Oid, cutoff: int, d: nat)
    requires Acyclic(repo) && tip in repo
  {
    var c := Chain(repo, tip);
    && d < |c| && c[d] in repo && c[d] in t.commits
    && (tip, d) in t.traversal
    && t.traversal[(tip, d)] == Entry(c[d], repo[c[d]].time >= cutoff)
  }

  ghost predicate PrefixTrue(repo: Repository, t: Tables, tip: Oid)
    requires Acyclic(repo) && tip in repo && tip in t.views
  {
    var v := t.views[tip];
    && v.visited <= MAX_COMMITS && v.visited <= |Chain(repo, tip)|
    && forall d :: 0 <= d < v.visited ==> DepthTrue(repo, t, tip, v.cutoff, d)
  }

  /** What a view's status says about a chain of `length` commits. */
  ghost predicate StatusTrue(v: View, length: nat) {
    && (!v.complete ==> v.visited < MAX_COMMITS && v.visited < length)
    && (v.complete ==> v.visited > 0)
    && (!v.failed ==>
          match v.boundary
          case Pending => !v.complete && v.visited == 0
          case Indexing => !v.complete && v.visited > 0
          case DepthLimited => v.complete && v.visited == MAX_COMMITS < length
          case ShallowBoundary => v.complete && v.visited < length
          case Root => v.complete && v.visited == length
          case _ => false)
  }

  ghost predicate Inv(repo: Repository, t: Tables)
    requires Acyclic(repo)
  {
    && CommitsTrue(repo, t)
    && (forall tip <- t.views :: tip in repo && PrefixTrue(repo, t, tip) && StatusTrue(t.views[tip], |Chain(repo, tip)|))
    && RowsInViews(t)
  }

  // ------------------------------------------------------------------ one batch

  /** How many commits a batch may store after `visited`. */
  function Room(visited: nat): nat
    requires visited < MAX_COMMITS
  {
    Min(BATCH, MAX_COMMITS - visited)
  }

  /** Row `i` of a fetch is element `i` of the visible walk, with the parent the source chooses. */
  lemma {:induction false} RowOfLog(repo: Repository, shallow: set<Oid>, start: Oid, visited: nat, i: nat)
    requires Acyclic(repo) && start in repo && i < |Fetch(repo, shallow, start, visited).rows|
    ensures var w := Visible(repo, shallow, start);
            var f := Fetch(repo, shallow, start, visited);
            && i < |w| && w[i] in repo && f.rows[i].oid == w[i] && f.rows[i].time == repo[w[i]].time
            && (w[i] !in shallow && repo[w[i]].parent.Some? ==> f.rows[i].parent == repo[w[i]].parent)
            && (i + 1 < |w| && (w[i] in shallow || repo[w[i]].parent.None?) ==> f.rows[i].parent == None)
            && (i + 1 == |w| && w[i] in shallow ==> f.rows[i].parent == repo[w[i]].parent)
            && (i + 1 == |w| && repo[w[i]].parent.None? ==> f.rows[i].parent == None)
  {
    var log := Log(repo, shallow, start, MaxCount(visited));
    LogOids(repo, shallow, start, MaxCount(visited));
    assert log[i] == Visible(repo, shallow, start)[i];
  }

  /** What a batch fetches from the chain element it starts at. */
  lemma {:induction false} FetchIsChain(repo: Repository, shallow: set<Oid>, tip: Oid, visited: nat)
    requires Acyclic(repo) && tip in repo && visited < |Chain(repo, tip)| && visited < MAX_COMMITS
    requires Chain(repo, tip)[visited] in repo
    ensures var c := Chain(repo, tip);
            var f := Fetch(repo, shallow, c[visited], visited);
            var w := Visible(repo, shallow, c[visited]);
            && |f.rows| == Min(|w|, Room(visited)) > 0
            && f.total == Min(|w|, Room(visited) + 1)
            && (f.finished <==> |w| <= Room(visited) || visited + |f.rows| == MAX_COMMITS)
            && visited + |f.rows| <= |c|
            && forall i :: 0 <= i < |f.rows| ==> f.rows[i].oid == c[visited + i]
  {
    var c := Chain(repo, tip);
    var f := Fetch(repo, shallow, c[visited], visited);
    ChainSuffix(repo, tip, visited);
    VisibleIsPrefix(repo, shallow, c[visited]);
    forall i | 0 <= i < |f.rows|
      ensures f.rows[i].oid == c[visited + i]
    {
      RowOfLog(repo, shallow, c[visited], visited, i);
      assert c[visited..][i] == c[visited + i];
    }
  }

  /** Every fetched row carries the commit's real parent and time. */
  lemma {:induction false} FetchIsTrue(repo: Repository, shallow: set<Oid>, tip: Oid, visited: nat, i: nat)
    requires Acyclic(repo) && tip in repo && visited < |Chain(repo, tip)| && visited < MAX_COMMITS
    requires Chain(repo, tip)[visited] in repo
    requires i < |Fetch(repo, shallow, Chain(repo, tip)[visited], visited).rows|
    ensures var row := Fetch(repo, shallow, Chain(repo, tip)[visited], visited).rows[i];
            row.oid in repo && row == LogRow(row.oid, repo[row.oid].parent, repo[row.oid].time)
  {
    var start := Chain(repo, tip)[visited];
    var w := Visible(repo, shallow, start);
    RowOfLog(repo, shallow, start, visited, i);
    VisibleSuffix(repo, shallow, start, i);
    if w[i] in shallow {
      assert Visible(repo, shallow, w[i]) == [w[i]] == w[i..];
    }
  }

  /** The batch finds a hidden parent exactly when it reaches the end of the walk at a graft. */
  lemma {:induction false} FetchHidden(repo: Repository, shallow: set<Oid>, tip: Oid, visited: nat)
    requires Acyclic(repo) && tip in repo && visited < |Chain(repo, tip)| && visited < MAX_COMMITS
    requires Chain(repo, tip)[visited] in repo
    ensures var c := Chain(repo, tip);
            var f := Fetch(repo, shallow, c[visited], visited);
            var w := Visible(repo, shallow, c[visited]);
            f.hidden <==> |w| <= Room(visited) && visited + |w| < |c|
  {
    var c := Chain(repo, tip);
    var start := c[visited];
    var w := Visible(repo, shallow, start);
    FetchIsChain(repo, shallow, tip, visited);
    ChainSuffix(repo, tip, visited);
    VisibleIsPrefix(repo, shallow, start);
    ChainLinks(repo, tip, visited + |w| - 1);
    assert w[|w| - 1] == c[visited + |w| - 1];
  }

  /** The row loop leaves the views and the commits it finds as they are. */
  lemma {:induction false} StoreRowsKeeps(t: Tables, tip: Oid, cutoff: int, depth: nat, rows: seq<LogRow>)
    ensures var r := StoreRows(t, tip, cutoff, depth, rows);
            && r.views == t.views
            && forall o <- t.commits :: o in r.commits && r.commits[o] == t.commits[o]
  {
    if rows != [] {
      StoreRowsKeeps(t, tip, cutoff, depth, rows[..|rows| - 1]);
    }
  }

  predicate Within(key: (Oid, nat), tip: Oid, depth: nat, n: nat) {
    key.0 == tip && depth <= key.1 < depth + n
  }

  /** Traversal rows outside the stored depths are the same. */
  ghost predicate SameOutside(t: Tables, r: Tables, tip: Oid, depth: nat, n: nat) {
    && (forall key <- t.traversal :: Within(key, tip, depth, n) || (key in r.traversal && r.traversal[key] == t.traversal[key]))
    && (forall key <- r.traversal :: key in t.traversal || Within(key, tip, depth, n))
  }

  lemma {:induction false} StoreRowsOutside(t: Tables, tip: Oid, cutoff: int, depth: nat, rows: seq<LogRow>)
    ensures SameOutside(t, StoreRows(t, tip, cutoff, depth, rows), tip, depth, |rows|)
  {
    if rows != [] {
      var n := |rows| - 1;
      StoreRowsOutside(t, tip, cutoff, depth, rows[..n]);
      StoreRowOutside(t, StoreRows(t, tip, cutoff, depth, rows[..n]), tip, cutoff, depth, n, rows[n]);
    }
  }

  lemma {:induction false} StoreRowOutside(t: Tables, r: Tables, tip: Oid, cutoff: int, depth: nat, n: nat, row: LogRow)
    requires SameOutside(t, r, tip, depth, n)
    ensures SameOutside(t, StoreRow(r, tip, cutoff, depth + n, row), tip, depth, n + 1)
  {
  }

  /** The row and its commit are stored. */
  predicate HoldsRow(r: Tables, tip: Oid, cutoff: int, depth: nat, row: LogRow) {
    && row.oid in r.commits && (tip, depth) in r.traversal
    && r.traversal[(tip, depth)] == Entry(row.oid, row.time >= cutoff)
  }

  /** Every row is stored at its depth. */
  lemma {:induction false} StoresRow(t: Tables, tip: Oid, cutoff: int, depth: nat, rows: seq<LogRow>, i: nat)
    requires i < |rows|
    ensures HoldsRow(StoreRows(t, tip, cutoff, depth, rows), tip, cutoff, depth + i, rows[i])
  {
    var n := |rows| - 1;
    if i < n {
      StoresRow(t, tip, cutoff, depth, rows[..n], i);
      assert rows[..n][i] == rows[i];
    }
  }

  lemma {:induction false} StoreRowsTrue(repo: Repository, t: Tables, tip: Oid, cutoff: int, depth: nat, rows: seq<LogRow>)
    requires CommitsTrue(repo, t)
    requires forall i :: 0 <= i < |rows| ==>
               rows[i].oid in repo && rows[i] == LogRow(rows[i].oid, repo[rows[i].oid].parent, repo[rows[i].oid].time)
    ensures CommitsTrue(repo, StoreRows(t, tip, cutoff, depth, rows))
  {
    if rows != [] {
      StoreRowsTrue(repo, t, tip, cutoff, depth, rows[..|rows| - 1]);
    }
  }

  /** An incomplete view resumes at the first chain element it has not visited. */
  lemma {:induction false} StartIsNext(repo: Repository, t: Tables, tip: Oid)
    requires Acyclic(repo) && Inv(repo, t) && tip in t.views && !t.views[tip].complete
    ensures var c, n := Chain(repo, tip), t.views[tip].visited;
            n < |c| && c[n] in repo && Start(t, tip) == Ok(Some(c[n]))
  {
    var n := t.views[tip].visited;
    ChainLinks(repo, tip, n);
    if n > 0 {
      ChainLinks(repo, tip, n - 1);
      assert DepthTrue(repo, t, tip, t.views[tip].cutoff, n - 1);
    }
  }

  lemma {:induction false} CommittedRows(repo: Repository, t: Tables, tip: Oid, env: Surroundings, start: Oid)
    requires Acyclic(repo) && Inv(repo, t) && tip in t.views && !t.views[tip].complete
    requires start in repo && Start(t, tip) == Ok(Some(start))
    ensures CommitsTrue(repo, Committed(t, repo, tip, env, start))
  {
    StartIsNext(repo, t, tip);
    var v := t.views[tip];
    var f := Fetch(repo, env.shallow, start, v.visited);
    forall i | 0 <= i < |f.rows|
      ensures f.rows[i].oid in repo
      ensures f.rows[i] == LogRow(f.rows[i].oid, repo[f.rows[i].oid].parent, repo[f.rows[i].oid].time)
    {
      FetchIsTrue(repo, env.shallow, tip, v.visited, i);
    }
    StoreRowsTrue(repo, t, tip, v.cutoff, v.visited, f.rows);
  }

  lemma {:induction false} CommittedDepth(repo: Repository, t: Tables, tip: Oid, env: Surroundings, start: Oid, i: nat)
    requires Acyclic(repo) && tip in repo && tip in t.views
    requires t.views[tip].visited < |Chain(repo, tip)| && t.views[tip].visited < MAX_COMMITS
    requires start in repo && start == Chain(repo, tip)[t.views[tip].visited]
    requires i < |Fetch(repo, env.shallow, start, t.views[tip].visited).rows|
    ensures DepthTrue(repo, Committed(t, repo, tip, env, start), tip, t.views[tip].cutoff, t.views[tip].visited + i)
  {
    var v := t.views[tip];
    FetchIsChain(repo, env.shallow, tip, v.visited);
    FetchIsTrue(repo, env.shallow, tip, v.visited, i);
    var rows := Fetch(repo, env.shallow, start, v.visited).rows;
    StoresRow(t, tip, v.cutoff, v.visited, rows, i);
    var t' := Committed(t, repo, tip, env, start);
    assert HoldsRow(t', tip, v.cutoff, v.visited + i, rows[i]);
  }

  /** Depths stored before the batch are still there after it. */
  lemma {:induction false} CommittedKeepsDepth(repo: Repository, t: Tables, tip: Oid, env: Surroundings, start: Oid, d: nat)
    requires Acyclic(repo) && tip in repo && tip in t.views && start in repo
    requires d < t.views[tip].visited && DepthTrue(repo, t, tip, t.views[tip].cutoff, d)
    ensures DepthTrue(repo, Committed(t, repo, tip, env, start), tip, t.views[tip].cutoff, d)
  {
    var v := t.views[tip];
    var rows := Fetch(repo, env.shallow, start, v.visited).rows;
    StoreRowsKeeps(t, tip, v.cutoff, v.visited, rows);
    StoreRowsOutside(t, tip, v.cutoff, v.visited, rows);
  }

  lemma {:induction false} CommittedPrefix(repo: Repository, t: Tables, tip: Oid, env: Surroundings, start: Oid)
    requires Acyclic(repo) && Inv(repo, t) && tip in t.views && !t.views[tip].complete
    requires start in repo && Start(t, tip) == Ok(Some(start))
    ensures PrefixTrue(repo, Committed(t, repo, tip, env, start), tip)
  {
    StartIsNext(repo, t, tip);
    var v := t.views[tip];
    var f := Fetch(repo, env.shallow, start, v.visited);
    var t' := Committed(t, repo, tip, env, start);
    FetchIsChain(repo, env.shallow, tip, v.visited);
    forall d | 0 <= d < v.visited + |f.rows|
      ensures DepthTrue(repo, t', tip, v.cutoff, d)
    {
      if d < v.visited {
        assert DepthTrue(repo, t, tip, v.cutoff, d);
        CommittedKeepsDepth(repo, t, tip, env, start, d);
      } else {
        CommittedDepth(repo, t, tip, env, start, d - v.visited);
      }
    }
  }

  lemma {:induction false} CommittedStatus(repo: Repository, t: Tables, tip: Oid, env: Surroundings, start: Oid)
    requires Acyclic(repo) && Inv(repo, t) && tip in t.views && !t.views[tip].complete
    requires start in repo && Start(t, tip) == Ok(Some(start))
    ensures StatusTrue(Committed(t, repo, tip, env, start).views[tip], |Chain(repo, tip)|)
  {
    StartIsNext(repo, t, tip);
    var n := t.views[tip].visited;
    FetchIsChain(repo, env.shallow, tip, n);
    FetchHidden(repo, env.shallow, tip, n);
    ChainSuffix(repo, tip, n);
    VisibleIsPrefix(repo, env.shallow, start);
  }

  /** A view's truth depends only on its own rows and on the commits it names. */
  lemma {:induction false} PrefixKept(repo: Repository, t: Tables, t': Tables, tip: Oid)
    requires Acyclic(repo) && tip in repo && tip in t.views && tip in t'.views
    requires PrefixTrue(repo, t, tip)
    requires t'.views[tip].visited == t.views[tip].visited && t'.views[tip].cutoff == t.views[tip].cutoff
    requires forall o <- t.commits :: o in t'.commits
    requires forall d: nat :: (tip, d) in t.traversal ==>
               (tip, d) in t'.traversal && t'.traversal[(tip, d)] == t.traversal[(tip, d)]
    ensures PrefixTrue(repo, t', tip)
  {
    forall d | 0 <= d < t.views[tip].visited
      ensures DepthTrue(repo, t', tip, t.views[tip].cutoff, d)
    {
      assert DepthTrue(repo, t, tip, t.views[tip].cutoff, d);
    }
  }

  /** A batch leaves the other views and their rows alone. */
  lemma {:induction false} CommittedOthers(repo: Repository, t: Tables, tip: Oid, env: Surroundings, start: Oid, other: Oid)
    requires Acyclic(repo) && Inv(repo, t) && tip in t.views && start in repo
    requires other in t.views && other != tip
    ensures var t' := Committed(t, repo, tip, env, start);
            && other in repo && other in t'.views && t'.views[other] == t.views[other]
            && PrefixTrue(repo, t', other)
  {
    var t', v := Committed(t, repo, tip, env, start), t.views[tip];
    var rows := Fetch(repo, env.shallow, start, v.visited).rows;
    StoreRowsKeeps(t, tip, v.cutoff, v.visited, rows);
    StoreRowsOutside(t, tip, v.cutoff, v.visited, rows);
    PrefixKept(repo, t, t', other);
  }

  /** Rows belong to views and lie within what those have visited. */
  ghost predicate RowsInViews(t: Tables) {
    forall key <- t.traversal :: key.0 in t.views && key.1 < t.views[key.0].visited
  }

  lemma {:induction false} CommittedRowsInViews(repo: Repository, t: Tables, tip: Oid, env: Surroundings, start: Oid)
    requires Acyclic(repo) && RowsInViews(t) && tip in t.views && start in repo
    ensures RowsInViews(Committed(t, repo, tip, env, start))
  {
    var v := t.views[tip];
    var rows := Fetch(repo, env.shallow, start, v.visited).rows;
    StoreRowsKeeps(t, tip, v.cutoff, v.visited, rows);
    StoreRowsOutside(t, tip, v.cutoff, v.visited, rows);
  }

  lemma {:induction false} CommittedInv(repo: Repository, t: Tables, tip: Oid, env: Surroundings, start: Oid)
    requires Acyclic(repo) && Inv(repo, t) && tip in t.views && !t.views[tip].complete
    requires start in repo && Start(t, tip) == Ok(Some(start))
    ensures Inv(repo, Committed(t, repo, tip, env, start))
  {
    var t' := Committed(t, repo, tip, env, start);
    var v := t.views[tip];
    CommittedRows(repo, t, tip, env, start);
    CommittedPrefix(repo, t, tip, env, start);
    CommittedStatus(repo, t, tip, env, start);
    CommittedRowsInViews(repo, t, tip, env, start);
    StoreRowsKeeps(t, tip, v.cutoff, v.visited, Fetch(repo, env.shallow, start, v.visited).rows);
    forall other | other in t'.views && other != tip
      ensures other in repo && PrefixTrue(repo, t', other) && StatusTrue(t'.views[other], |Chain(repo, other)|)
    {
      CommittedOthers(repo, t, tip, env, start, other);
    }
  }

  lemma {:induction false} RetireInv(repo: Repository, t: Tables, retired: Option<Oid>)
    requires Acyclic(repo) && Inv(repo, t)
    ensures Inv(repo, Retire(t, retired))
  {
    var t' := Retire(t, retired);
    forall tip | tip in t'.views
      ensures PrefixTrue(repo, t', tip)
    {
      PrefixKept(repo, t, t', tip);
    }
  }

  lemma {:induction false} ReviewedPrefix(repo: Repository, t: Tables, tip: Oid, v: View, other: Oid)
    requires Acyclic(repo) && other in repo && other in t.views && PrefixTrue(repo, t, other) && tip in t.views
    requires v.visited == t.views[tip].visited && v.cutoff == t.views[tip].cutoff
    ensures PrefixTrue(repo, t.(views := t.views[tip := v]), other)
  {
    PrefixKept(repo, t, t.(views := t.views[tip := v]), other);
  }

  lemma {:induction false} ReviewedRows(t: Tables, tip: Oid, v: View)
    requires RowsInViews(t) && tip in t.views && v.visited == t.views[tip].visited
    ensures RowsInViews(t.(views := t.views[tip := v]))
  {
  }

  /** Replacing a view by one with the same progress keeps the invariant. */
  lemma {:induction false} ReviewInv(repo: Repository, t: Tables, tip: Oid, v: View)
    requires Acyclic(repo) && Inv(repo, t) && tip in t.views
    requires v.visited == t.views[tip].visited && v.cutoff == t.views[tip].cutoff
    requires StatusTrue(v, |Chain(repo, tip)|)
    ensures Inv(repo, t.(views := t.views[tip := v]))
  {
    var t' := t.(views := t.views[tip := v]);
    ReviewedRows(t, tip, v);
    forall other | other in t'.views
      ensures other in repo && PrefixTrue(repo, t', other) && StatusTrue(t'.views[other], |Chain(repo, other)|)
    {
      ReviewedPrefix(repo, t, tip, v, other);
    }
  }

  lemma {:induction false} EnsureInv(repo: Repository, t: Tables, tip: Oid, now: int)
    requires Acyclic(repo) && Inv(repo, t) && tip in repo
    ensures Inv(repo, Ensure(t, tip, now))
  {
    var t' := Ensure(t, tip, now);
    ChainLinks(repo, tip, 0);
    forall other | other in t.views
      ensures PrefixTrue(repo, t', other)
    {
      PrefixKept(repo, t, t', other);
    }
  }

  /** Under the invariant a batch cannot fail to resume; it commits and keeps the invariant. */
  lemma {:induction false} BatchInv(repo: Repository, t: Tables, tip: Oid, env: Surroundings)
    requires Acyclic(repo) && Inv(repo, t) && tip in t.views && !t.views[tip].complete
    ensures AfterBatch(t, repo, tip, env).Ok? && Inv(repo, AfterBatch(t, repo, tip, env).value)
  {
    StartIsNext(repo, t, tip);
    var start := Chain(repo, tip)[t.views[tip].visited];
    CommittedInv(repo, t, tip, env, start);
    var c := Committed(t, repo, tip, env, start);
    RetireInv(repo, c, Obsolete(c.views, env));
  }

  // ------------------------------------------------------------------ any run

  datatype Call =
    | IndexCall(tip: Oid, env: Surroundings, fault: Fault)
    | ScheduleCall(tip: Oid, now: int)

  ghost predicate ProperCall(repo: Repository, call: Call) {
    call.tip in repo && (call.IndexCall? ==> Proper(call.fault))
  }

  ghost predicate ProperCalls(repo: Repository, calls: seq<Call>) {
    forall i :: 0 <= i < |calls| ==> ProperCall(repo, calls[i])
  }

  ghost function AfterCall(t: Tables, repo: Repository, call: Call): Tables
    requires Acyclic(repo)
  {
    match call
    case IndexCall(tip, env, fault) => AfterIndex(t, repo, tip, env, fault)
    case ScheduleCall(tip, now) => AfterSchedule(t, tip, now)
  }

  /** The tables after a sequence of calls, starting from an empty database. */
  ghost function AfterCalls(repo: Repository, calls: seq<Call>): Tables
    requires Acyclic(repo)
  {
    if calls == [] then Tables(map[], map[], map[])
    else AfterCall(AfterCalls(repo, calls[..|calls| - 1]), repo, calls[|calls| - 1])
  }

  lemma {:induction false} CallInv(repo: Repository, t: Tables, call: Call)
    requires Acyclic(repo) && Inv(repo, t) && ProperCall(repo, call)
    ensures Inv(repo, AfterCall(t, repo, call))
  {
    match call {
      case IndexCall(tip, env, fault) =>
        var t0 := Ensure(t, tip, env.began);
        EnsureInv(repo, t, tip, env.began);
        ReviewInv(repo, t0, tip, t0.views[tip].(updated := env.began));
        var t1 := Touch(t0, tip, env.began);
        if !t1.views[tip].complete && fault == NoFault {
          BatchInv(repo, t1, tip, env);
        } else if !fault.NoFault? {
          ReviewInv(repo, t1, tip, t1.views[tip].(boundary := fault.category, failed := true));
        }
      case ScheduleCall(tip, now) =>
        EnsureInv(repo, t, tip, now);
        var t0 := Ensure(t, tip, now);
        ReviewInv(repo, t0, tip, t0.views[tip].(updated := now));
    }
  }

  /** Whatever the batches, faults, grafts and restarts, depths `0..visited` of every
      tip hold exactly that prefix of its first-parent chain, at most `MAX_COMMITS`
      of it, with the real parents and the eligibility its cutoff gives. */
  lemma {:induction false} AnyRunStoresPrefixes(repo: Repository, calls: seq<Call>)
    requires Acyclic(repo) && ProperCalls(repo, calls)
    ensures Inv(repo, AfterCalls(repo, calls))
  {
    if calls != [] {
      AnyRunStoresPrefixes(repo, calls[..|calls| - 1]);
      CallInv(repo, AfterCalls(repo, calls[..|calls| - 1]), calls[|calls| - 1]);
    }
  }

  // ------------------------------------------------- agreement with one walk

  /** The traversal of one unbounded walk cut at the limit. */
  ghost function OneWalk(repo: Repository, shallow: set<Oid>, tip: Oid): seq<Oid>
    requires Acyclic(repo) && tip in repo
  {
    var w := Visible(repo, shallow, tip);
    w[..Min(|w|, MAX_COMMITS)]
  }

  /** How that walk ends. */
  ghost function WalkBoundary(repo: Repository, shallow: set<Oid>, tip: Oid): Boundary
    requires Acyclic(repo) && tip in repo
  {
    var w := Visible(repo, shallow, tip);
    if |w| > MAX_COMMITS then DepthLimited
    else if |w| < |Chain(repo, tip)| then ShallowBoundary
    else Root
  }

  /** The oids a view's traversal rows hold, in depth order. */
  ghost function StoredOids(t: Tables, tip: Oid, n: nat): seq<Oid>
    requires forall d :: 0 <= d < n ==> (tip, d) in t.traversal
  {
    seq(n, d requires 0 <= d < n => t.traversal[(tip, d)].oid)
  }

  /** A view's progress relative to the walk. */
  ghost predicate OnWalk(repo: Repository, shallow: set<Oid>, tip: Oid, v: View)
    requires Acyclic(repo) && tip in repo
  {
    var w := Visible(repo, shallow, tip);
    && (if v.complete then v.visited == Min(|w|, MAX_COMMITS) else v.visited < Min(|w|, MAX_COMMITS))
    && (v.complete && !v.failed ==> v.boundary == WalkBoundary(repo, shallow, tip))
    && (v.failed ==> v.boundary == ResourceLimited || v.boundary == Unavailable)
  }

  ghost predicate AllOnWalk(repo: Repository, shallow: set<Oid>, t: Tables)
    requires Acyclic(repo)
  {
    forall tip <- t.views :: tip in repo && OnWalk(repo, shallow, tip, t.views[tip])
  }

  lemma {:induction false} BatchOnWalk(repo: Repository, t: Tables, tip: Oid, env: Surroundings, start: Oid)
    requires Acyclic(repo) && Inv(repo, t) && tip in t.views && !t.views[tip].complete
    requires start in repo && Start(t, tip) == Ok(Some(start))
    requires OnWalk(repo, env.shallow, tip, t.views[tip])
    ensures OnWalk(repo, env.shallow, tip, Committed(t, repo, tip, env, start).views[tip])
  {
    StartIsNext(repo, t, tip);
    var n := t.views[tip].visited;
    var w := Visible(repo, env.shallow, tip);
    VisibleIsPrefix(repo, env.shallow, tip);
    assert w[n] == start;
    VisibleSuffix(repo, env.shallow, tip, n);
    FetchIsChain(repo, env.shallow, tip, n);
    FetchHidden(repo, env.shallow, tip, n);
  }

  /** A committed batch replaces its own view and may retire one. */
  lemma {:induction false} BatchViews(repo: Repository, t: Tables, tip: Oid, env: Surroundings, start: Oid)
    requires Acyclic(repo) && tip in t.views && start in repo && Start(t, tip) == Ok(Some(start))
    ensures var c := Committed(t, repo, tip, env, start);
            AfterBatch(t, repo, tip, env) == Ok(Retire(c, Obsolete(c.views, env)))
    ensures forall other <- AfterBatch(t, repo, tip, env).value.views ::
              if other == tip then AfterBatch(t, repo, tip, env).value.views[tip] == Committed(t, repo, tip, env, start).views[tip]
              else other in t.views && AfterBatch(t, repo, tip, env).value.views[other] == t.views[other]
  {
    var v := t.views[tip];
    StoreRowsKeeps(t, tip, v.cutoff, v.visited, Fetch(repo, env.shallow, start, v.visited).rows);
  }

  lemma {:induction false} BatchAllOnWalk(repo: Repository, t: Tables, tip: Oid, env: Surroundings)
    requires Acyclic(repo) && Inv(repo, t) && tip in t.views && !t.views[tip].complete
    requires AllOnWalk(repo, env.shallow, t)
    ensures AfterBatch(t, repo, tip, env).Ok? && AllOnWalk(repo, env.shallow, AfterBatch(t, repo, tip, env).value)
  {
    StartIsNext(repo, t, tip);
    var start := Chain(repo, tip)[t.views[tip].visited];
    BatchOnWalk(repo, t, tip, env, start);
    BatchViews(repo, t, tip, env, start);
  }

  /** Before its batch, `index` has a view for the tip and has touched it. */
  lemma {:induction false} Prepared(repo: Repository, t: Tables, tip: Oid, now: int)
    requires Acyclic(repo) && Inv(repo, t) && tip in repo
    ensures Inv(repo, Touch(Ensure(t, tip, now), tip, now))
  {
    EnsureInv(repo, t, tip, now);
    var t0 := Ensure(t, tip, now);
    ReviewInv(repo, t0, tip, t0.views[tip].(updated := now));
  }

  lemma {:induction false} EnsureOnWalk(repo: Repository, shallow: set<Oid>, t: Tables, tip: Oid, now: int)
    requires Acyclic(repo) && AllOnWalk(repo, shallow, t) && tip in repo
    ensures AllOnWalk(repo, shallow, Ensure(t, tip, now))
  {
    VisibleIsPrefix(repo, shallow, tip);
  }

  lemma {:induction false} ReviewOnWalk(repo: Repository, shallow: set<Oid>, t: Tables, tip: Oid, v: View)
    requires Acyclic(repo) && AllOnWalk(repo, shallow, t) && tip in t.views && OnWalk(repo, shallow, tip, v)
    ensures AllOnWalk(repo, shallow, t.(views := t.views[tip := v]))
  {
  }

  lemma {:induction false} CallOnWalk(repo: Repository, shallow: set<Oid>, t: Tables, call: Call)
    requires Acyclic(repo) && Inv(repo, t) && AllOnWalk(repo, shallow, t) && ProperCall(repo, call)
    requires call.IndexCall? ==> call.env.shallow == shallow
    ensures AllOnWalk(repo, shallow, AfterCall(t, repo, call))
  {
    var tip, now := call.tip, if call.IndexCall? then call.env.began else call.now;
    var t0 := Ensure(t, tip, now);
    EnsureOnWalk(repo, shallow, t, tip, now);
    var v := t0.views[tip].(updated := now);
    ReviewOnWalk(repo, shallow, t0, tip, v);
    var t1 := Touch(t0, tip, now);
    if call.IndexCall? {
      if !call.fault.NoFault? {
        ReviewOnWalk(repo, shallow, t1, tip, v.(boundary := call.fault.category, failed := true));
      } else if !v.complete {
        Prepared(repo, t, tip, now);
        BatchAllOnWalk(repo, t1, tip, call.env);
      }
    }
  }

  lemma {:induction false} RunOnWalk(repo: Repository, shallow: set<Oid>, calls: seq<Call>)
    requires Acyclic(repo) && ProperCalls(repo, calls)
    requires UnderGrafts(calls, shallow)
    ensures AllOnWalk(repo, shallow, AfterCalls(repo, calls))
  {
    if calls != [] {
      var prior := calls[..|calls| - 1];
      RunOnWalk(repo, shallow, prior);
      AnyRunStoresPrefixes(repo, prior);
      CallOnWalk(repo, shallow, AfterCalls(repo, prior), calls[|calls| - 1]);
    }
  }

  /** A view completed by any batches, faults and restarts holds exactly the one
      unbounded walk. */
  lemma {:induction false} CompleteIsOneWalk(repo: Repository, shallow: set<Oid>, calls: seq<Call>, tip: Oid)
    requires Acyclic(repo) && ProperCalls(repo, calls) && UnderGrafts(calls, shallow)
    requires CompleteAfter(repo, calls, tip)
    ensures var t := AfterCalls(repo, calls);
            var n := t.views[tip].visited;
            && tip in repo
            && (forall d :: 0 <= d < n ==> (tip, d) in t.traversal)
            && StoredOids(t, tip, n) == OneWalk(repo, shallow, tip)
            && (forall d: nat :: (tip, d) in t.traversal <==> d < n)
  {
    AnyRunStoresPrefixes(repo, calls);
    RunOnWalk(repo, shallow, calls);
    var t := AfterCalls(repo, calls);
    var n := t.views[tip].visited;
    VisibleIsPrefix(repo, shallow, tip);
    forall d | 0 <= d < n
      ensures (tip, d) in t.traversal && t.traversal[(tip, d)].oid == OneWalk(repo, shallow, tip)[d]
    {
      assert DepthTrue(repo, t, tip, t.views[tip].cutoff, d);
    }
  }

  // ------------------------------------------------- when the boundary survives

  ghost predicate UnderGrafts(calls: seq<Call>, shallow: set<Oid>) {
    forall i :: 0 <= i < |calls| && calls[i].IndexCall? ==> calls[i].env.shallow == shallow
  }

  ghost predicate CompleteAfter(repo: Repository, calls: seq<Call>, tip: Oid)
    requires Acyclic(repo)
  {
    var t := AfterCalls(repo, calls);
    tip in t.views && t.views[tip].complete
  }

  /** Call `c` completed the view, and it has stayed complete since: the last completion
      after any retirement. */
  ghost predicate CompletedBy(repo: Repository, calls: seq<Call>, tip: Oid, c: nat)
    requires Acyclic(repo)
  {
    && c < |calls| && !CompleteAfter(repo, calls[..c], tip)
    && forall m :: c < m <= |calls| ==> CompleteAfter(repo, calls[..m], tip)
  }

  /** An index call for the tip whose first query fails. */
  predicate FailsToRead(call: Call, tip: Oid) {
    call.IndexCall? && call.tip == tip && call.fault.ReadFails?
  }

  ghost predicate UnreadSince(calls: seq<Call>, tip: Oid, c: nat) {
    exists i :: c < i < |calls| && FailsToRead(calls[i], tip)
  }

  /** A view that is complete after a call was complete before it, with only a failed read
      recorded on it, or was completed by it without a failure. */
  lemma {:induction false} CallOnComplete(repo: Repository, t: Tables, call: Call, tip: Oid)
    requires Acyclic(repo) && Inv(repo, t) && ProperCall(repo, call)
    requires var t' := AfterCall(t, repo, call); tip in t'.views && t'.views[tip].complete
    ensures var v' := AfterCall(t, repo, call).views[tip];
            if tip in t.views && t.views[tip].complete
            then v'.failed == (t.views[tip].failed || FailsToRead(call, tip))
            else !v'.failed && !FailsToRead(call, tip)
  {
    if call.tip != tip {
      OtherCallAtMostRetires(repo, t, call, tip);
    } else if call.IndexCall? {
      OwnCallOnComplete(repo, t, tip, call.env, call.fault);
    }
  }

  lemma {:induction false} OwnCallOnComplete(repo: Repository, t: Tables, tip: Oid, env: Surroundings, fault: Fault)
    requires Acyclic(repo) && Inv(repo, t) && tip in repo && Proper(fault)
    requires var t' := AfterIndex(t, repo, tip, env, fault); tip in t'.views && t'.views[tip].complete
    ensures var v' := AfterIndex(t, repo, tip, env, fault).views[tip];
            if tip in t.views && t.views[tip].complete
            then v'.failed == (t.views[tip].failed || fault.ReadFails?)
            else !v'.failed && !fault.ReadFails?
  {
    if fault == NoFault && (tip in t.views ==> !t.views[tip].complete) {
      BatchClearsFailure(repo, t, tip, env);
    }
  }

  lemma {:induction false} BatchClearsFailure(repo: Repository, t: Tables, tip: Oid, env: Surroundings)
    requires Acyclic(repo) && Inv(repo, t) && tip in repo && (tip in t.views ==> !t.views[tip].complete)
    ensures var t' := AfterIndex(t, repo, tip, env, NoFault); tip in t'.views ==> !t'.views[tip].failed
  {
    var t1 := Touch(Ensure(t, tip, env.began), tip, env.began);
    Prepared(repo, t, tip, env.began);
    StartIsNext(repo, t1, tip);
    BatchViews(repo, t1, tip, env, Chain(repo, tip)[t1.views[tip].visited]);
  }

  lemma {:induction false} FailedMeansUnread(repo: Repository, calls: seq<Call>, tip: Oid) returns (c: nat)
    requires Acyclic(repo) && ProperCalls(repo, calls) && CompleteAfter(repo, calls, tip)
    ensures CompletedBy(repo, calls, tip, c)
    ensures AfterCalls(repo, calls).views[tip].failed <==> UnreadSince(calls, tip, c)
  {
    var n := |calls| - 1;
    var prior := calls[..n];
    AnyRunStoresPrefixes(repo, prior);
    CallOnComplete(repo, AfterCalls(repo, prior), calls[n], tip);
    assert calls[..|calls|] == calls;
    if CompleteAfter(repo, prior, tip) {
      c := FailedMeansUnread(repo, prior, tip);
      StillCompletedBy(repo, calls, tip, c);
      UnreadOneMore(calls, tip, c);
    } else {
      c := n;
    }
  }

  lemma {:induction false} StillCompletedBy(repo: Repository, calls: seq<Call>, tip: Oid, c: nat)
    requires Acyclic(repo) && calls != [] && CompleteAfter(repo, calls, tip)
    requires CompletedBy(repo, calls[..|calls| - 1], tip, c)
    ensures CompletedBy(repo, calls, tip, c)
  {
    var prior := calls[..|calls| - 1];
    assert prior[..c] == calls[..c];
    forall m | c < m <= |calls|
      ensures CompleteAfter(repo, calls[..m], tip)
    {
      if m < |calls| {
        assert prior[..m] == calls[..m];
      } else {
        assert calls[..m] == calls;
      }
    }
  }

  lemma {:induction false} UnreadOneMore(calls: seq<Call>, tip: Oid, c: nat)
    requires calls != [] && c < |calls| - 1
    ensures UnreadSince(calls, tip, c) <==>
              UnreadSince(calls[..|calls| - 1], tip, c) || FailsToRead(calls[|calls| - 1], tip)
  {
    var prior := calls[..|calls| - 1];
    if i :| c < i < |prior| && FailsToRead(prior[i], tip) {
      assert FailsToRead(calls[i], tip);
    }
    if i :| c < i < |calls| && FailsToRead(calls[i], tip) {
      assert i < |prior| ==> FailsToRead(prior[i], tip);
    }
  }

  /** Exactly when a complete view still tells how its walk ended: if and only if no call
      since the one that completed it failed to read the view's row. */
  lemma {:induction false} BoundaryKeptExactly(repo: Repository, shallow: set<Oid>, calls: seq<Call>, tip: Oid)
    returns (c: nat)
    requires Acyclic(repo) && ProperCalls(repo, calls) && UnderGrafts(calls, shallow)
    requires CompleteAfter(repo, calls, tip)
    ensures tip in repo && CompletedBy(repo, calls, tip, c)
    ensures AfterCalls(repo, calls).views[tip].boundary == WalkBoundary(repo, shallow, tip)
            <==> forall i :: c < i < |calls| ==> !FailsToRead(calls[i], tip)
  {
    AnyRunStoresPrefixes(repo, calls);
    RunOnWalk(repo, shallow, calls);
    c := FailedMeansUnread(repo, calls, tip);
  }

  // ------------------------------------------------------------------ progress

  /** No more than the retention period passes between a call's readings of the clock. */
  predicate Prompt(env: Surroundings) {
    env.began <= env.now && env.sweep <= env.now + RETENTION
  }

  lemma {:induction false} CommittedAdvances(repo: Repository, t: Tables, tip: Oid, env: Surroundings)
    requires Acyclic(repo) && Inv(repo, t) && tip in t.views && !t.views[tip].complete && Prompt(env)
    ensures AfterBatch(t, repo, tip, env).Ok?
    ensures var was := t.views[tip].visited;
            var t' := AfterBatch(t, repo, tip, env).value;
            && tip in t'.views && t'.views[tip].visited > was
            && (t'.views[tip].complete || t'.views[tip].visited == was + BATCH)
            && t'.views[tip].updated == env.now
  {
    StartIsNext(repo, t, tip);
    var n := t.views[tip].visited;
    FetchIsChain(repo, env.shallow, tip, n);
    var start := Chain(repo, tip)[n];
    BatchViews(repo, t, tip, env, start);
    ObsoleteIsOldest(Committed(t, repo, tip, env, start).views, env);
  }

  /** A fault-free call on an incomplete view stores a full batch or completes it, and does
      not retire the view it worked on. */
  lemma {:induction false} IndexAdvances(repo: Repository, t: Tables, tip: Oid, env: Surroundings)
    requires Acyclic(repo) && Inv(repo, t) && tip in repo && Prompt(env)
    requires tip in t.views ==> !t.views[tip].complete
    ensures var was := if tip in t.views then t.views[tip].visited else 0;
            var t' := AfterIndex(t, repo, tip, env, NoFault);
            && tip in t'.views && t'.views[tip].visited > was
            && (t'.views[tip].complete || t'.views[tip].visited == was + BATCH)
            && t'.views[tip].updated == env.now
  {
    Prepared(repo, t, tip, env.began);
    CommittedAdvances(repo, Touch(Ensure(t, tip, env.began), tip, env.began), tip, env);
  }

  predicate Attempts(call: Call, tip: Oid) {
    call.IndexCall? && call.tip == tip && call.fault == NoFault
  }

  function Successes(calls: seq<Call>, tip: Oid): nat {
    if calls == [] then 0
    else Successes(calls[..|calls| - 1], tip) + (if Attempts(calls[|calls| - 1], tip) then 1 else 0)
  }

  ghost predicate Progressed(v: View, n: nat) {
    v.complete || v.visited >= BATCH * n
  }

  /** When the tip was last given to `index`, by that call's first clock reading. */
  function LastIndexed(calls: seq<Call>, tip: Oid): Option<int> {
    if calls == [] then None
    else
      var last := calls[|calls| - 1];
      if last.IndexCall? && last.tip == tip then Some(last.env.began) else LastIndexed(calls[..|calls| - 1], tip)
  }

  /** The clock leaves a view alone: it does not run backwards over a touch of the view, and
      another tip's sweep comes within the retention period of the tip's last call. */
  predicate InTime(call: Call, tip: Oid, last: Option<int>) {
    match call
    case IndexCall(other, env, _) =>
      if other == tip then Prompt(env) else last.Some? ==> env.sweep <= last.value + RETENTION
    case ScheduleCall(other, now) => other == tip && last.Some? ==> last.value <= now
  }

  predicate AllInTime(calls: seq<Call>, tip: Oid) {
    calls != [] ==>
      var front := calls[..|calls| - 1];
      AllInTime(front, tip) && InTime(calls[|calls| - 1], tip, LastIndexed(front, tip))
  }

  /** The view holds `n` batches, and is as fresh as the tip's last call. */
  ghost predicate Advanced(t: Tables, tip: Oid, n: nat, last: Option<int>) {
    && (tip in t.views ==> Progressed(t.views[tip], n) && (last.Some? ==> t.views[tip].updated >= last.value))
    && (tip !in t.views ==> n == 0 && last.None?)
    && (last.None? ==> n == 0)
  }

  lemma {:induction false} OwnCallProgresses(repo: Repository, t: Tables, call: Call, tip: Oid, n: nat, last: Option<int>)
    requires Acyclic(repo) && Inv(repo, t) && ProperCall(repo, call) && call.IndexCall? && call.tip == tip
    requires Advanced(t, tip, n, last) && Prompt(call.env)
    ensures Advanced(AfterCall(t, repo, call), tip, n + if Attempts(call, tip) then 1 else 0, Some(call.env.began))
  {
    if Attempts(call, tip) && (tip in t.views ==> !t.views[tip].complete) {
      IndexAdvances(repo, t, tip, call.env);
    }
  }

  lemma {:induction false} OtherCallProgresses(repo: Repository, t: Tables, call: Call, tip: Oid, n: nat, last: Option<int>)
    requires Acyclic(repo) && Inv(repo, t) && ProperCall(repo, call) && call.tip != tip
    requires Advanced(t, tip, n, last) && InTime(call, tip, last)
    ensures Advanced(AfterCall(t, repo, call), tip, n, last)
  {
    if last.Some? {
      OtherCallKeeps(repo, t, call, tip);
    } else {
      OtherCallAtMostRetires(repo, t, call, tip);
    }
  }

  /** A call for one tip leaves another tip's view alone while its sweep comes within the
      retention period of that view's last update. */
  lemma {:induction false} OtherCallKeeps(repo: Repository, t: Tables, call: Call, tip: Oid)
    requires Acyclic(repo) && Inv(repo, t) && ProperCall(repo, call) && call.tip != tip
    requires call.IndexCall? && tip in t.views ==> !Stale(t.views[tip], call.env.sweep)
    ensures var t' := AfterCall(t, repo, call);
            if tip in t.views then tip in t'.views && t'.views[tip] == t.views[tip] else tip !in t'.views
  {
    if call.IndexCall? && call.fault == NoFault {
      var t1 := Touch(Ensure(t, call.tip, call.env.began), call.tip, call.env.began);
      Prepared(repo, t, call.tip, call.env.began);
      if !t1.views[call.tip].complete {
        OthersKept(repo, t1, call.tip, call.env, tip);
      }
    }
  }

  /** In any case it changes nothing of that view but its existence. */
  lemma {:induction false} OtherCallAtMostRetires(repo: Repository, t: Tables, call: Call, tip: Oid)
    requires Acyclic(repo) && Inv(repo, t) && ProperCall(repo, call) && call.tip != tip
    ensures var t' := AfterCall(t, repo, call); tip in t'.views ==> tip in t.views && t'.views[tip] == t.views[tip]
  {
    if call.IndexCall? && call.fault == NoFault {
      var t1 := Touch(Ensure(t, call.tip, call.env.began), call.tip, call.env.began);
      Prepared(repo, t, call.tip, call.env.began);
      if !t1.views[call.tip].complete {
        StartIsNext(repo, t1, call.tip);
        BatchViews(repo, t1, call.tip, call.env, Chain(repo, call.tip)[t1.views[call.tip].visited]);
      }
    }
  }

  // ------------------------------------------------------------------ eligibility

  ghost predicate HasView(repo: Repository, calls: seq<Call>, tip: Oid)
    requires Acyclic(repo)
  {
    tip in AfterCalls(repo, calls).views
  }

  /** Call `c` made the view that the tip has now. */
  ghost predicate MadeBy(repo: Repository, calls: seq<Call>, tip: Oid, c: nat)
    requires Acyclic(repo)
  {
    && c < |calls| && calls[c].tip == tip && !HasView(repo, calls[..c], tip)
    && forall m :: c < m <= |calls| ==> HasView(repo, calls[..m], tip)
  }

  /** The clock as a call begins. */
  function Began(call: Call): int {
    match call
    case IndexCall(_, env, _) => env.began
    case ScheduleCall(_, now) => now
  }

  /** A call keeps the cutoff of a view it finds, and dates a new one from its own beginning. */
  lemma {:induction false} OwnCutoff(repo: Repository, t: Tables, call: Call)
    requires Acyclic(repo) && Inv(repo, t) && ProperCall(repo, call) && call.tip in AfterCall(t, repo, call).views
    ensures AfterCall(t, repo, call).views[call.tip].cutoff
         == if call.tip in t.views then t.views[call.tip].cutoff else Began(call) - 2 * 365 * 86400
  {
    if call.IndexCall? {
      IndexCutoff(repo, t, call.tip, call.env, call.fault);
    }
  }

  lemma {:induction false} IndexCutoff(repo: Repository, t: Tables, tip: Oid, env: Surroundings, fault: Fault)
    requires Acyclic(repo) && Inv(repo, t) && tip in repo && tip in AfterIndex(t, repo, tip, env, fault).views
    ensures AfterIndex(t, repo, tip, env, fault).views[tip].cutoff == Ensure(t, tip, env.began).views[tip].cutoff
  {
    var t1 := Touch(Ensure(t, tip, env.began), tip, env.began);
    Prepared(repo, t, tip, env.began);
    if !t1.views[tip].complete && fault == NoFault {
      BatchCutoff(repo, t1, tip, env);
    }
  }

  lemma {:induction false} BatchCutoff(repo: Repository, t: Tables, tip: Oid, env: Surroundings)
    requires Acyclic(repo) && Inv(repo, t) && tip in t.views && !t.views[tip].complete
    ensures AfterBatch(t, repo, tip, env).Ok?
    ensures var t' := AfterBatch(t, repo, tip, env).value; tip in t'.views ==> t'.views[tip].cutoff == t.views[tip].cutoff
  {
    StartIsNext(repo, t, tip);
    BatchViews(repo, t, tip, env, Chain(repo, tip)[t.views[tip].visited]);
  }

  lemma {:induction false} StillMadeBy(repo: Repository, calls: seq<Call>, tip: Oid, c: nat)
    requires Acyclic(repo) && calls != [] && HasView(repo, calls, tip)
    requires MadeBy(repo, calls[..|calls| - 1], tip, c)
    ensures MadeBy(repo, calls, tip, c)
  {
    var prior := calls[..|calls| - 1];
    assert prior[..c] == calls[..c];
    forall m | c < m <= |calls|
      ensures HasView(repo, calls[..m], tip)
    {
      if m < |calls| {
        assert prior[..m] == calls[..m];
      } else {
        assert calls[..m] == calls;
      }
    }
  }

  lemma {:induction false} CutoffOfView(repo: Repository, calls: seq<Call>, tip: Oid) returns (c: nat)
    requires Acyclic(repo) && ProperCalls(repo, calls) && HasView(repo, calls, tip)
    ensures MadeBy(repo, calls, tip, c)
    ensures AfterCalls(repo, calls).views[tip].cutoff == Began(calls[c]) - 2 * 365 * 86400
  {
    var n := |calls| - 1;
    var prior, call := calls[..n], calls[n];
    AnyRunStoresPrefixes(repo, prior);
    if call.tip == tip {
      OwnCutoff(repo, AfterCalls(repo, prior), call);
    } else {
      OtherCallAtMostRetires(repo, AfterCalls(repo, prior), call, tip);
    }
    if HasView(repo, prior, tip) {
      c := CutoffOfView(repo, prior, tip);
      StillMadeBy(repo, calls, tip, c);
    } else {
      c := n;
      assert calls[..|calls|] == calls;
    }
  }

  /** After any run, a stored commit is eligible if and only if it is no older than two years
      before the call that made its view. */
  lemma {:induction false} EligibleWithinTwoYears(repo: Repository, calls: seq<Call>, tip: Oid, d: nat) returns (c: nat)
    requires Acyclic(repo) && ProperCalls(repo, calls) && HasView(repo, calls, tip)
    requires d < AfterCalls(repo, calls).views[tip].visited
    ensures MadeBy(repo, calls, tip, c) && (tip, d) in AfterCalls(repo, calls).traversal
    ensures var e := AfterCalls(repo, calls).traversal[(tip, d)];
            e.oid in repo && (e.eligible <==> repo[e.oid].time >= Began(calls[c]) - 2 * 365 * 86400)
  {
    c := CutoffOfView(repo, calls, tip);
    AnyRunStoresPrefixes(repo, calls);
    var t := AfterCalls(repo, calls);
    assert DepthTrue(repo, t, tip, t.views[tip].cutoff, d);
  }

  // ------------------------------------------------------------------ completion

  lemma {:induction false} OthersKept(repo: Repository, t: Tables, tip: Oid, env: Surroundings, other: Oid)
    requires Acyclic(repo) && Inv(repo, t) && tip in t.views && !t.views[tip].complete
    requires other != tip && (other in t.views ==> !Stale(t.views[other], env.sweep))
    ensures AfterBatch(t, repo, tip, env).Ok?
    ensures var t' := AfterBatch(t, repo, tip, env).value;
            if other in t.views then other in t'.views && t'.views[other] == t.views[other] else other !in t'.views
  {
    StartIsNext(repo, t, tip);
    var start := Chain(repo, tip)[t.views[tip].visited];
    BatchViews(repo, t, tip, env, start);
    var v := t.views[tip];
    StoreRowsKeeps(t, tip, v.cutoff, v.visited, Fetch(repo, env.shallow, start, v.visited).rows);
    ObsoleteIsOldest(Committed(t, repo, tip, env, start).views, env);
  }

  lemma {:induction false} RunProgresses(repo: Repository, calls: seq<Call>, tip: Oid)
    requires Acyclic(repo) && ProperCalls(repo, calls) && AllInTime(calls, tip)
    ensures Advanced(AfterCalls(repo, calls), tip, Successes(calls, tip), LastIndexed(calls, tip))
  {
    if calls != [] {
      var prior, call := calls[..|calls| - 1], calls[|calls| - 1];
      RunProgresses(repo, prior, tip);
      AnyRunStoresPrefixes(repo, prior);
      var t, n, last := AfterCalls(repo, prior), Successes(prior, tip), LastIndexed(prior, tip);
      if call.tip != tip {
        OtherCallProgresses(repo, t, call, tip, n, last);
      } else if call.IndexCall? {
        OwnCallProgresses(repo, t, call, tip, n, last);
      }
    }
  }

  /** However faults and other tips' batches are interleaved, 157 fault-free calls complete
      any view, provided no other tip's sweep comes more than the retention period after the
      view's own last call. */
  lemma {:induction false} EnoughCallsComplete(repo: Repository, calls: seq<Call>, tip: Oid)
    requires Acyclic(repo) && ProperCalls(repo, calls) && AllInTime(calls, tip)
    requires Successes(calls, tip) >= (MAX_COMMITS + BATCH - 1) / BATCH
    ensures (MAX_COMMITS + BATCH - 1) / BATCH == 157
    ensures var t := AfterCalls(repo, calls); tip in t.views && t.views[tip].complete
  {
    AnyRunStoresPrefixes(repo, calls);
    RunProgresses(repo, calls, tip);
  }

  /** The boundary really can be lost. The one way is a later index call whose first SELECT
      of the view's row fails while the UPDATE that records the failure succeeds: a complete
      view runs no other step that can fail. */
  lemma {:induction false} CompleteBoundaryCanBeLost()
    ensures exists repo: Repository, calls: seq<Call> ::
              Acyclic(repo) && ProperCalls(repo, calls) && BoundaryLost(repo, calls, 0)
  {
    var repo: Repository := map[0 := Commit(None, 0, 0)];
    var env := Surroundings({}, 0, 0, 0, 0);
    var first := [IndexCall(0, env, NoFault)];
    var calls := first + [IndexCall(0, env, ReadFails(Unavailable))];
    OneCommitCompletes(repo, env);
    assert calls[..1] == first;
    assert BoundaryLost(repo, calls, 0);
  }

  lemma {:induction false} OneCommitCompletes(repo: Repository, env: Surroundings)
    requires repo == map[0 := Commit(None, 0, 0)] && env == Surroundings({}, 0, 0, 0, 0)
    ensures Acyclic(repo)
    ensures var t := AfterCalls(repo, [IndexCall(0, env, NoFault)]); 0 in t.views && t.views[0].complete
  {
    var first := [IndexCall(0, env, NoFault)];
    assert first[..0] == [];
    AnyRunStoresPrefixes(repo, []);
    IndexAdvances(repo, AfterCalls(repo, []), 0, env);
    RunOnWalk(repo, {}, first);
  }

  ghost predicate BoundaryLost(repo: Repository, calls: seq<Call>, tip: Oid)
    requires Acyclic(repo)
  {
    var t := AfterCalls(repo, calls);
    && tip in repo && tip in t.views && t.views[tip].complete
    && t.views[tip].boundary != WalkBoundary(repo, {}, tip)
  }
}
