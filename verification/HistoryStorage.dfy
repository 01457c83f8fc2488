/** The batched, resumable first-parent traversal of src/history/storage.rs.

    The `commits`, `views` and `traversal` tables are the store's fields; a
    transaction is one assignment of new table values. Git is an immutable map
    of commit objects plus, per call, the set of commits grafted by a shallow
    clone. Failures of git, of SQLite or of the capacity check are free choices. */
module HistoryStorage {
  import opened Basics

  const MAX_COMMITS: nat := 20_000
  const BATCH: nat := 128
  const RETENTION: int := 30 * 86400
  const TWO_YEARS: int := 2 * 365 * 86400

  type Oid = nat

  // ------------------------------------------------------------------ git

  datatype Commit = Commit(parent: Option<Oid>, time: int, generation: nat)

  type Repository = map<Oid, Commit>

  /** Parents exist and are older: commit history is acyclic. */
  ghost predicate Acyclic(repo: Repository) {
    forall o <- repo :: repo[o].parent.Some? ==>
      repo[o].parent.value in repo && repo[repo[o].parent.value].generation < repo[o].generation
  }

  /** The first-parent chain of commit objects from `o`. */
  function Chain(repo: Repository, o: Oid): seq<Oid>
    requires Acyclic(repo) && o in repo
    decreases repo[o].generation
  {
    if repo[o].parent.None? then [o] else [o] + Chain(repo, repo[o].parent.value)
  }

  /** The part of the chain a clone with grafts `shallow` can walk. */
  function Visible(repo: Repository, shallow: set<Oid>, o: Oid): seq<Oid>
    requires Acyclic(repo) && o in repo
    decreases repo[o].generation
  {
    if repo[o].parent.None? || o in shallow then [o] else [o] + Visible(repo, shallow, repo[o].parent.value)
  }

  /** `git log --first-parent --max-count` */
  function Log(repo: Repository, shallow: set<Oid>, start: Oid, max: nat): seq<Oid>
    requires Acyclic(repo) && start in repo
  {
    var v := Visible(repo, shallow, start);
    v[..Min(max, |v|)]
  }

  /** The parent git prints for a log row: none at a graft. */
  function PrintedParent(repo: Repository, shallow: set<Oid>, o: Oid): Option<Oid>
    requires o in repo
  {
    if o in shallow then None else repo[o].parent
  }

  // ------------------------------------------------------------------ tables

  datatype Boundary =
    Pending | Indexing | DepthLimited | ShallowBoundary | Root | ResourceLimited | Unavailable

  datatype Row = Row(parent: Option<Oid>, time: int)

  datatype View = View(cutoff: int, updated: int, visited: nat, complete: bool, boundary: Boundary, failed: bool)

  datatype Entry = Entry(oid: Oid, eligible: bool)

  datatype Tables = Tables(commits: map<Oid, Row>, views: map<Oid, View>, traversal: map<(Oid, nat), Entry>)

  // ------------------------------------------------------------ specification

  /** Everything one call learns from outside: the grafts, and the clock as the call begins,
      as it updates its view and as it looks for an obsolete view. Of several equally old
      views SQLite may return any; `hint` says which it favours. */
  datatype Surroundings = Surroundings(shallow: set<Oid>, began: int, now: int, sweep: int, hint: Oid)

  /** How many of `total` log rows the batch stores. */
  function Stored(total: nat, visited: nat): nat {
    var room := if visited < MAX_COMMITS then MAX_COMMITS - visited else 0;
    var most := if total < BATCH then total else BATCH;
    if most < room then most else room
  }

  function MaxCount(visited: nat): nat {
    var room := if visited < MAX_COMMITS then MAX_COMMITS - visited else 0;
    if BATCH + 1 < room + 1 then BATCH + 1 else room + 1
  }

  /** The commit the next batch starts at: the tip, or the stored parent of the last visited commit. */
  function Start(t: Tables, tip: Oid): Result<Option<Oid>>
    requires tip in t.views
  {
    var visited := t.views[tip].visited;
    if visited == 0 then Ok(Some(tip))
    else if (tip, visited - 1) !in t.traversal then Err
    else if t.traversal[(tip, visited - 1)].oid !in t.commits then Err
    else Ok(t.commits[t.traversal[(tip, visited - 1)].oid].parent)
  }

  datatype LogRow = LogRow(oid: Oid, parent: Option<Oid>, time: int)

  /** What a batch reads from git: the rows to store, and whether more follow. */
  datatype Fetched = Fetched(rows: seq<LogRow>, total: nat, finished: bool, hidden: bool)

  function Fetch(repo: Repository, shallow: set<Oid>, start: Oid, visited: nat): Fetched
    requires Acyclic(repo) && start in repo
  {
    var log := Log(repo, shallow, start, MaxCount(visited));
    var total := |log|;
    var count := Stored(total, visited);
    var finished := count == total || visited + count == MAX_COMMITS;
    LogOids(repo, shallow, start, MaxCount(visited));
    var lastParent :=
      if shallow != {} && finished && count == total && total > 0 then repo[log[total - 1]].parent else None;
    Fetched(FirstRows(repo, shallow, log, lastParent, count), total, finished, lastParent.Some?)
  }

  function FirstRows(repo: Repository, shallow: set<Oid>, log: seq<Oid>, lastParent: Option<Oid>, count: nat): (rows: seq<LogRow>)
    requires count <= |log| && forall i :: 0 <= i < |log| ==> log[i] in repo
    ensures |rows| == count
    ensures forall i :: 0 <= i < count ==> rows[i] == RowAt(repo, shallow, log, lastParent, i)
  {
    seq(count, i requires 0 <= i < count => RowAt(repo, shallow, log, lastParent, i))
  }

  /** Log row `i` with the parent to store: a graft at the end of the walk keeps its real parent. */
  function RowAt(repo: Repository, shallow: set<Oid>, log: seq<Oid>, lastParent: Option<Oid>, i: nat): LogRow
    requires i < |log| && log[i] in repo
  {
    var printed := PrintedParent(repo, shallow, log[i]);
    LogRow(log[i], if printed.Some? then printed else if i + 1 == |log| then lastParent else None, repo[log[i]].time)
  }

  function BoundaryOf(finished: bool, end: nat, total: nat, count: nat, hidden: bool): Boundary {
    if !finished then Indexing
    else if end == MAX_COMMITS && total > count then DepthLimited
    else if hidden then ShallowBoundary
    else Root
  }

  predicate Stale(v: View, sweep: int) {
    v.updated < sweep - RETENTION
  }

  /** A row that `WHERE updated < limit ORDER BY updated LIMIT 1` may return. */
  predicate Oldest(views: map<Oid, View>, sweep: int, o: Oid) {
    && o in views && Stale(views[o], sweep)
    && forall p <- views :: views[p].updated >= views[o].updated
  }

  predicate Foremost(views: map<Oid, View>, sweep: int, o: Oid) {
    Oldest(views, sweep, o) && forall p <- views :: views[p].updated == views[o].updated ==> o <= p
  }

  /** The view to retire, if any: an oldest stale one. */
  ghost function Obsolete(views: map<Oid, View>, env: Surroundings): Option<Oid> {
    if Oldest(views, env.sweep, env.hint) then Some(env.hint)
    else if o: Oid :| Foremost(views, env.sweep, o) then Some(o)
    else None
  }

  function Retire(t: Tables, retired: Option<Oid>): Tables {
    if retired.None? then t
    else t.(views := t.views - {retired.value},
            traversal := map key | key in t.traversal && key.0 != retired.value :: t.traversal[key])
  }

  /** `INSERT OR IGNORE` of the commit, `INSERT OR REPLACE` of the traversal row. */
  function StoreRow(t: Tables, tip: Oid, cutoff: int, depth: nat, row: LogRow): Tables {
    t.(commits := if row.oid in t.commits then t.commits else t.commits[row.oid := Row(row.parent, row.time)],
       traversal := t.traversal[(tip, depth) := Entry(row.oid, row.time >= cutoff)])
  }

  function StoreRows(t: Tables, tip: Oid, cutoff: int, depth: nat, rows: seq<LogRow>): Tables {
    if rows == [] then t
    else
      var n := |rows| - 1;
      StoreRow(StoreRows(t, tip, cutoff, depth, rows[..n]), tip, cutoff, depth + n, rows[n])
  }

  /** The tables after the row loop and the update of the view. */
  function Committed(t: Tables, repo: Repository, tip: Oid, env: Surroundings, start: Oid): Tables
    requires Acyclic(repo) && tip in t.views && start in repo
  {
    var v := t.views[tip];
    var f := Fetch(repo, env.shallow, start, v.visited);
    var end := v.visited + |f.rows|;
    var stored := StoreRows(t, tip, v.cutoff, v.visited, f.rows);
    var boundary := BoundaryOf(f.finished, end, f.total, |f.rows|, f.hidden);
    stored.(views := stored.views[tip := View(v.cutoff, env.now, end, f.finished, boundary, false)])
  }

  /** `index_batch` on an incomplete view; an error leaves the tables as they were. */
  ghost function AfterBatch(t: Tables, repo: Repository, tip: Oid, env: Surroundings): Result<Tables>
    requires Acyclic(repo) && tip in t.views
  {
    var v := t.views[tip];
    match Start(t, tip)
    case Err => Err
    case Ok(None) => Ok(t.(views := t.views[tip := v.(complete := true, boundary := Root)]))
    case Ok(Some(start)) =>
      if start !in repo then Err
      else var c := Committed(t, repo, tip, env, start); Ok(Retire(c, Obsolete(c.views, env)))
  }

  /** How a call to `index` goes wrong: reading the view fails, or the batch itself does. */
  datatype Fault = NoFault | ReadFails(category: Boundary) | BatchFails(category: Boundary)

  predicate Proper(fault: Fault) {
    fault.NoFault? || fault.category == ResourceLimited || fault.category == Unavailable
  }

  function Ensure(t: Tables, tip: Oid, now: int): Tables {
    if tip in t.views then t
    else t.(views := t.views[tip := View(now - TWO_YEARS, now, 0, false, Pending, false)])
  }

  function Touch(t: Tables, tip: Oid, now: int): Tables
    requires tip in t.views
  {
    t.(views := t.views[tip := t.views[tip].(updated := now)])
  }

  function Mark(t: Tables, tip: Oid, category: Boundary): Tables
    requires tip in t.views
  {
    t.(views := t.views[tip := t.views[tip].(boundary := category, failed := true)])
  }

  /** `index` */
  ghost function AfterIndex(t: Tables, repo: Repository, tip: Oid, env: Surroundings, fault: Fault): Tables
    requires Acyclic(repo)
  {
    var t1 := Touch(Ensure(t, tip, env.began), tip, env.began);
    if fault.ReadFails? then Mark(t1, tip, fault.category)
    else if t1.views[tip].complete then t1
    else if fault.BatchFails? then Mark(t1, tip, fault.category)
    else
      match AfterBatch(t1, repo, tip, env)
      case Ok(t2) => t2
      case Err => Mark(t1, tip, Unavailable)
  }

  /** `schedule` */
  function AfterSchedule(t: Tables, tip: Oid, now: int): Tables {
    var t1 := Ensure(t, tip, now);
    if t1.views[tip].complete then Touch(t1, tip, now) else t1
  }

  // ------------------------------------------------------------ the obsolete view

  predicate Ahead(views: map<Oid, View>, o: Oid, p: Oid)
    requires o in views && p in views
  {
    views[o].updated < views[p].updated || (views[o].updated == views[p].updated && o <= p)
  }

  lemma {:induction false} StaleHasForemost(views: map<Oid, View>, sweep: int, keys: set<Oid>) returns (o: Oid)
    requires keys <= views.Keys && exists p :: p in keys && Stale(views[p], sweep)
    ensures o in keys && Stale(views[o], sweep) && forall p <- keys :: Ahead(views, o, p)
    decreases |keys|
  {
    o :| o in keys && Stale(views[o], sweep);
    if p :| p in keys && !Ahead(views, o, p) {
      var fewer := keys - {o};
      assert p in fewer && Stale(views[p], sweep);
      var best := StaleHasForemost(views, sweep, fewer);
      o := best;
    }
  }

  lemma {:induction false} OneForemost(views: map<Oid, View>, sweep: int, a: Oid, b: Oid)
    requires Foremost(views, sweep, a) && Foremost(views, sweep, b)
    ensures a == b
  {
  }

  /** The answer is an oldest stale view, and there is one exactly when some view is stale. */
  lemma {:induction false} ObsoleteIsOldest(views: map<Oid, View>, env: Surroundings)
    ensures Obsolete(views, env).Some? ==> Oldest(views, env.sweep, Obsolete(views, env).value)
    ensures Obsolete(views, env).None? <==> forall p <- views :: !Stale(views[p], env.sweep)
    ensures Oldest(views, env.sweep, env.hint) ==> Obsolete(views, env) == Some(env.hint)
  {
    if p :| p in views && Stale(views[p], env.sweep) {
      var o := StaleHasForemost(views, env.sweep, views.Keys);
      assert Foremost(views, env.sweep, o);
    }
  }

  /** The query for the obsolete view, as a scan of the table. */
  method FindObsolete(views: map<Oid, View>, env: Surroundings) returns (r: Option<Oid>)
    ensures r == Obsolete(views, env)
  {
    if Oldest(views, env.sweep, env.hint) {
      return Some(env.hint);
    }
    r := None;
    var left := views.Keys;
    while left != {}
      invariant left <= views.Keys
      invariant r.None? ==> forall p <- views :: p in left || !Stale(views[p], env.sweep)
      invariant r.Some? ==> r.value in views && Stale(views[r.value], env.sweep)
      invariant r.Some? ==> forall p <- views :: p in left || !Stale(views[p], env.sweep) || Ahead(views, r.value, p)
      decreases |left|
    {
      var p :| p in left;
      left := left - {p};
      if Stale(views[p], env.sweep) && (r.None? || !Ahead(views, r.value, p)) {
        r := Some(p);
      }
    }
    ObsoleteIsOldest(views, env);
    if r.Some? {
      assert Foremost(views, env.sweep, r.value);
      OneForemost(views, env.sweep, r.value, Obsolete(views, env).value);
    }
  }

  // ------------------------------------------------------------ the store itself

  /** The open history database. */
  class HistoryStore {
    var commits: map<Oid, Row>
    var views: map<Oid, View>
    var traversal: map<(Oid, nat), Entry>

    ghost function Contents(): Tables
      reads this
    {
      Tables(commits, views, traversal)
    }

    constructor ()
      ensures Contents() == Tables(map[], map[], map[])
    {
      commits, views, traversal := map[], map[], map[];
    }

    method Schedule(tip: Oid, now: int)
      modifies this
      ensures Contents() == AfterSchedule(old(Contents()), tip, now)
    {
      if tip !in views {
        views := views[tip := View(now - TWO_YEARS, now, 0, false, Pending, false)];
      }
      if views[tip].complete {
        views := views[tip := views[tip].(updated := now)];
      }
    }

    /** The transaction's row loop. */
    static method WriteRows(t: Tables, tip: Oid, cutoff: int, visited: nat, rows: seq<LogRow>) returns (r: Tables)
      ensures r == StoreRows(t, tip, cutoff, visited, rows)
    {
      r := t;
      for depth := visited to visited + |rows|
        invariant r == StoreRows(t, tip, cutoff, visited, rows[..depth - visited])
      {
        var row := rows[depth - visited];
        assert rows[..depth + 1 - visited][..depth - visited] == rows[..depth - visited];
        if row.oid !in r.commits {
          r := r.(commits := r.commits[row.oid := Row(row.parent, row.time)]);
        }
        r := r.(traversal := r.traversal[(tip, depth) := Entry(row.oid, row.time >= cutoff)]);
      }
      assert rows[..|rows|] == rows;
    }

    /** Reads one batch from git and commits it in one transaction. */
    method IndexBatch(repo: Repository, tip: Oid, env: Surroundings) returns (ok: bool)
      requires Acyclic(repo)
      modifies this
      ensures tip !in old(views) ==> !ok && Contents() == old(Contents())
      ensures tip in old(views) && old(views)[tip].complete ==> ok && Contents() == old(Contents())
      ensures tip in old(views) && !old(views)[tip].complete ==>
                && (ok <==> AfterBatch(old(Contents()), repo, tip, env).Ok?)
                && Contents() == if ok then AfterBatch(old(Contents()), repo, tip, env).value else old(Contents())
    {
      if tip !in views {
        return false;
      }
      var v := views[tip];
      if v.complete {
        return true;
      }
      var start: Option<Oid>;
      if v.visited == 0 {
        start := Some(tip);
      } else if (tip, v.visited - 1) in traversal && traversal[(tip, v.visited - 1)].oid in commits {
        start := commits[traversal[(tip, v.visited - 1)].oid].parent;
      } else {
        return false;
      }
      if start.None? {
        views := views[tip := v.(complete := true, boundary := Root)];
        return true;
      }
      if start.value !in repo {
        return false;
      }
      var f := Fetch(repo, env.shallow, start.value, v.visited);
      var end := v.visited + |f.rows|;
      var boundary := BoundaryOf(f.finished, end, f.total, |f.rows|, f.hidden);
      var stored := WriteRows(Tables(commits, views, traversal), tip, v.cutoff, v.visited, f.rows);
      var view := View(v.cutoff, env.now, end, f.finished, boundary, false);
      var updated := stored.(views := stored.views[tip := view]);
      var obsolete := FindObsolete(updated.views, env);
      var kept := Retire(updated, obsolete);
      commits, views, traversal := kept.commits, kept.views, kept.traversal;
      return true;
    }

    method Index(repo: Repository, tip: Oid, env: Surroundings, fault: Fault)
      requires Acyclic(repo)
      modifies this
      ensures Contents() == AfterIndex(old(Contents()), repo, tip, env, fault)
    {
      if tip !in views {
        views := views[tip := View(env.began - TWO_YEARS, env.began, 0, false, Pending, false)];
      }
      views := views[tip := views[tip].(updated := env.began)];
      var failure: Option<Boundary> := None;
      if fault.ReadFails? {
        failure := Some(fault.category);
      } else if fault.BatchFails? && !views[tip].complete {
        failure := Some(fault.category);
      } else {
        var ok := IndexBatch(repo, tip, env);
        if !ok {
          failure := Some(Unavailable);
        }
      }
      if failure.Some? {
        views := views[tip := views[tip].(boundary := failure.value, failed := true)];
      }
    }
  }

  // ------------------------------------------------------------------- chains

  lemma {:induction false} VisibleIsPrefix(repo: Repository, shallow: set<Oid>, o: Oid)
    requires Acyclic(repo) && o in repo
    ensures var v, c := Visible(repo, shallow, o), Chain(repo, o);
            && 0 < |v| <= |c| && v == c[..|v|]
            && (|v| < |c| ==> c[|v| - 1] in shallow)
    decreases repo[o].generation
  {
    if repo[o].parent.Some? && o !in shallow {
      VisibleIsPrefix(repo, shallow, repo[o].parent.value);
    }
  }

  /** Each chain element is a commit whose parent is the next element. */
  lemma {:induction false} ChainLinks(repo: Repository, o: Oid, i: nat)
    requires Acyclic(repo) && o in repo && i < |Chain(repo, o)|
    ensures var c := Chain(repo, o);
            && c[0] == o && c[i] in repo
            && repo[c[i]].parent == (if i + 1 < |c| then Some(c[i + 1]) else None)
    decreases repo[o].generation
  {
    if i > 0 {
      ChainLinks(repo, repo[o].parent.value, i - 1);
    } else if repo[o].parent.Some? {
      assert Chain(repo, o)[1] == Chain(repo, repo[o].parent.value)[0];
    }
  }

  /** Walking from a chain element gives the rest of the chain. */
  lemma {:induction false} ChainSuffix(repo: Repository, o: Oid, i: nat)
    requires Acyclic(repo) && o in repo && i < |Chain(repo, o)|
    ensures Chain(repo, o)[i] in repo && Chain(repo, Chain(repo, o)[i]) == Chain(repo, o)[i..]
    decreases repo[o].generation
  {
    if i > 0 {
      ChainSuffix(repo, repo[o].parent.value, i - 1);
    }
  }

  /** The same of the visible part. */
  lemma {:induction false} VisibleSuffix(repo: Repository, shallow: set<Oid>, o: Oid, i: nat)
    requires Acyclic(repo) && o in repo && i < |Visible(repo, shallow, o)|
    ensures var v := Visible(repo, shallow, o); v[i] in repo && Visible(repo, shallow, v[i]) == v[i..]
    decreases repo[o].generation
  {
    if i > 0 {
      VisibleSuffix(repo, shallow, repo[o].parent.value, i - 1);
    }
  }

  lemma {:induction false} LogOids(repo: Repository, shallow: set<Oid>, start: Oid, max: nat)
    requires Acyclic(repo) && start in repo
    ensures forall i :: 0 <= i < |Log(repo, shallow, start, max)| ==> Log(repo, shallow, start, max)[i] in repo
  {
    var v := Visible(repo, shallow, start);
    forall i | 0 <= i < |v|
      ensures v[i] in repo
    {
      VisibleSuffix(repo, shallow, start, i);
    }
  }
}
