/** Retained result sets (src/results/result_set_store.rs, src/results.rs).

    The table is kept in `(created, id)` order, the order eviction follows. The
    length of a serialised set is an arbitrary function of its contents; clock
    readings and identifiers are parameters. */
module ResultSetStore {
  import opened Basics
  import opened Identity
  import opened Order

  const MAX_SETS: nat := 50
  const MAX_BYTES: nat := 32 * 1024 * 1024
  const MAX_HITS: nat := 10_000
  const TTL_SECONDS: nat := 600

  datatype Entry = Entry(handle: string, key: nat)

  datatype Stored = Stored(hits: seq<Entry>, truncated: bool)

  datatype Row = Row(id: Uuid, created: int, expires: int, payload: Stored, bytes: nat)

  /** One save: the set as it was fitted, when, and under which identifier. */
  datatype Save = Saving(id: Uuid, time: int, payload: Stored, bytes: nat)

  // ------------------------------------------------------------ fitting a set

  function Labelled(hits: seq<Entry>, id: Uuid): (r: seq<Entry>)
    ensures |r| == |hits|
    ensures forall k :: 0 <= k < |r| ==> r[k] == hits[k].(handle := PrintHandle(Handle(id, k + 1)))
  {
    seq(|hits|, k requires 0 <= k < |hits| => hits[k].(handle := PrintHandle(Handle(id, k + 1))))
  }

  /** The first `n` hits, labelled, marked when anything was cut off. */
  function Cut(given: Stored, id: Uuid, n: nat): Stored
    requires n <= |given.hits|
  {
    Stored(Labelled(given.hits, id)[..n], given.truncated || n < |given.hits|)
  }

  /** `kept` is a labelled prefix of `given`, marked when anything was cut off. */
  ghost predicate PrefixOf(kept: Stored, given: Stored, id: Uuid) {
    |kept.hits| <= Min(|given.hits|, MAX_HITS) && kept == Cut(given, id, |kept.hits|)
  }

  /** `k` is one less than the share of `m` hits that `MAX_BYTES` is of `size` bytes. */
  ghost predicate ShareOf(k: nat, m: nat, size: nat) {
    && size > MAX_BYTES && k < m && m * MAX_BYTES < (k + 2) * size
    && (k > 0 ==> (k + 1) * size <= m * MAX_BYTES)
  }

  /** What fitting a set comes to. A cut set is the share of some longer prefix that was too
      long; only a set whose bare metadata is too long cannot be fitted. */
  ghost predicate Fitted(given: Stored, id: Uuid, size: Stored -> nat, r: Result<Stored>) {
    var most := Min(|given.hits|, MAX_HITS);
    if r.Err? then size(Cut(given, id, 0)) > MAX_BYTES && (size(Cut(given, id, most)) > MAX_BYTES)
    else
      && PrefixOf(r.value, given, id) && size(r.value) <= MAX_BYTES
      && (size(Cut(given, id, most)) <= MAX_BYTES ==> r.value == Cut(given, id, most))
      && (|r.value.hits| < most ==> CutDown(given, id, size, |r.value.hits|))
  }

  ghost predicate CutDown(given: Stored, id: Uuid, size: Stored -> nat, k: nat) {
    exists m :: k < m <= Min(|given.hits|, MAX_HITS) && ShareOf(k, m, size(Cut(given, id, m)))
  }

  /** `(hits * MAX_BYTES / size).saturating_sub(1)` */
  function Keep(hits: nat, size: nat): nat
    requires size > 0
  {
    var share := hits * MAX_BYTES / size;
    if share > 0 then share - 1 else 0
  }

  lemma {:induction false} KeepIsShare(hits: nat, size: nat)
    requires hits > 0 && size > MAX_BYTES
    ensures ShareOf(Keep(hits, size), hits, size)
  {
    var q := hits * MAX_BYTES / size;
    QuotientBounds(hits * MAX_BYTES, size, q);
    Smaller(hits, MAX_BYTES, size);
    Cancel(q, hits, size);
  }

  lemma {:induction false} QuotientBounds(a: nat, b: nat, q: nat)
    requires b > 0 && q == a / b
    ensures q * b <= a < (q + 1) * b
  {
  }

  lemma {:induction false} Smaller(n: nat, a: nat, b: nat)
    requires a < b
    ensures n * a <= n * b
  {
  }

  lemma {:induction false} Cancel(q: nat, n: nat, size: nat)
    requires q * size <= n * size && size > 0
    ensures q <= n
  {
    assert (n - q) * size >= 0;
  }

  lemma {:induction false} CutAgain(given: Stored, id: Uuid, n: nat, k: nat)
    requires k < n <= |given.hits|
    ensures Stored(Cut(given, id, n).hits[..k], true) == Cut(given, id, k)
  {
  }

  /** Labels every hit and shortens the set until its serialisation fits. */
  method Fit(given: Stored, id: Uuid, size: Stored -> nat) returns (r: Result<Stored>)
    ensures Fitted(given, id, size, r)
    ensures var whole := Stored(Labelled(given.hits, id), given.truncated);
            |given.hits| <= MAX_HITS && size(whole) <= MAX_BYTES ==> r == Ok(whole)
  {
    var kept := given;
    if |kept.hits| > MAX_HITS {
      kept := Stored(kept.hits[..MAX_HITS], true);
    }
    kept := kept.(hits := Labelled(kept.hits, id));
    ghost var most := Min(|given.hits|, MAX_HITS);
    assert kept == Cut(given, id, most);
    while size(kept) > MAX_BYTES && kept.hits != []
      invariant PrefixOf(kept, given, id)
      invariant |kept.hits| < most ==> size(Cut(given, id, most)) > MAX_BYTES && CutDown(given, id, size, |kept.hits|)
      decreases |kept.hits|
    {
      KeepIsShare(|kept.hits|, size(kept));
      var keep := Keep(|kept.hits|, size(kept));
      CutAgain(given, id, |kept.hits|, keep);
      kept := Stored(kept.hits[..keep], true);
    }
    assert Cut(given, id, |given.hits|) == Stored(Labelled(given.hits, id), given.truncated);
    if size(kept) > MAX_BYTES {
      return Err;
    }
    r := Ok(kept);
  }

  // ------------------------------------------------------------ the table

  predicate Before(a: Row, b: Row) {
    a.created < b.created || (a.created == b.created && LexLess(a.id, b.id))
  }

  ghost predicate Sorted(rows: seq<Row>) {
    forall i, j :: 0 <= i < j < |rows| ==> Before(rows[i], rows[j]) && rows[i].id != rows[j].id
  }

  lemma {:induction false} BeforeTransitive(a: Row, b: Row, c: Row)
    requires Before(a, b) && Before(b, c)
    ensures Before(a, c)
  {
    if a.created == b.created == c.created {
      LexTransitive(a.id, b.id, c.id);
    }
  }

  predicate HasId(rows: seq<Row>, id: Uuid) {
    exists i :: 0 <= i < |rows| && rows[i].id == id
  }

  function Bytes(rows: seq<Row>): nat {
    if rows == [] then 0 else rows[0].bytes + Bytes(rows[1..])
  }

  /** `DELETE ... WHERE expires <= time` */
  function Live(rows: seq<Row>, time: int): seq<Row> {
    if rows == [] then []
    else if rows[0].expires <= time then Live(rows[1..], time)
    else [rows[0]] + Live(rows[1..], time)
  }

  function Insert(rows: seq<Row>, row: Row): (r: seq<Row>)
    ensures |r| == |rows| + 1
  {
    if rows == [] || Before(row, rows[0]) then [row] + rows else [rows[0]] + Insert(rows[1..], row)
  }

  /** The table without its oldest row other than `id`. */
  function EvictOldest(rows: seq<Row>, id: Uuid): seq<Row> {
    if rows == [] then []
    else if rows[0].id != id then rows[1..]
    else if |rows| == 1 then rows
    else [rows[0]] + rows[2..]
  }

  predicate Within(sets: nat, bytes: nat) {
    sets <= MAX_SETS && bytes <= MAX_BYTES
  }

  /** The fewest of the oldest other sets that must go to make room for `bytes`. */
  function Evictions(others: seq<Row>, bytes: nat): (k: nat)
    ensures k <= |others|
  {
    if others == [] || Within(|others| + 1, Bytes(others) + bytes) then 0
    else 1 + Evictions(others[1..], bytes)
  }

  /** Dropping that many makes room, and dropping any fewer does not. */
  lemma {:induction false} EvictionsSuffice(others: seq<Row>, bytes: nat)
    requires bytes <= MAX_BYTES
    ensures var k := Evictions(others, bytes);
            Within(|others| - k + 1, Bytes(others[k..]) + bytes)
  {
    var k := Evictions(others, bytes);
    if k == 0 {
      assert others[0..] == others;
    } else {
      EvictionsSuffice(others[1..], bytes);
      assert others[1..][k - 1..] == others[k..];
    }
  }

  lemma {:induction false} EvictionsNeeded(others: seq<Row>, bytes: nat, n: nat)
    requires n < Evictions(others, bytes)
    ensures !Within(|others| - n + 1, Bytes(others[n..]) + bytes)
  {
    if n == 0 {
      assert others[0..] == others;
    } else {
      EvictionsNeeded(others[1..], bytes, n - 1);
      assert others[1..][n - 1..] == others[n..];
    }
  }

  function RowOf(s: Save): Row {
    Row(s.id, s.time, s.time + TTL_SECONDS, s.payload, s.bytes)
  }

  /** The committed table after a save; a duplicate identifier rolls back. */
  function AfterSave(rows: seq<Row>, s: Save): seq<Row>
  {
    var live := Live(rows, s.time);
    if HasId(live, s.id) then rows else Insert(live[Evictions(live, s.bytes)..], RowOf(s))
  }

  /** What every committed table satisfies. */
  ghost predicate Bounded(rows: seq<Row>) {
    Sorted(rows) && Within(|rows|, Bytes(rows))
  }

  // ------------------------------------------------------------ table lemmas

  lemma {:induction false} TailSorted(rows: seq<Row>, k: nat)
    requires Sorted(rows) && k <= |rows|
    ensures Sorted(rows[k..])
  {
    var tail := rows[k..];
    forall i, j | 0 <= i < j < |tail|
      ensures Before(tail[i], tail[j]) && tail[i].id != tail[j].id
    {
      assert tail[i] == rows[k + i] && tail[j] == rows[k + j];
    }
  }

  lemma {:induction false} LiveRows(rows: seq<Row>, time: int, row: Row)
    ensures row in Live(rows, time) <==> row in rows && row.expires > time
  {
    if rows != [] {
      assert rows == [rows[0]] + rows[1..];
      LiveRows(rows[1..], time, row);
    }
  }

  lemma {:induction false} ConsSorted(row: Row, rows: seq<Row>)
    requires Sorted(rows)
    requires forall x :: x in rows ==> Before(row, x) && row.id != x.id
    ensures Sorted([row] + rows)
  {
    var all := [row] + rows;
    forall i, j | 0 <= i < j < |all|
      ensures Before(all[i], all[j]) && all[i].id != all[j].id
    {
      assert all[j] == rows[j - 1];
      assert all[j] in rows;
    }
  }

  lemma {:induction false} HeadBefore(rows: seq<Row>, x: Row)
    requires Sorted(rows) && rows != [] && x in rows[1..]
    ensures Before(rows[0], x) && rows[0].id != x.id
  {
    var i :| 0 <= i < |rows[1..]| && rows[1..][i] == x;
    assert rows[i + 1] == x;
  }

  lemma {:induction false} LiveSorted(rows: seq<Row>, time: int)
    requires Sorted(rows)
    ensures Sorted(Live(rows, time))
  {
    if rows != [] {
      TailSorted(rows, 1);
      LiveSorted(rows[1..], time);
      if rows[0].expires > time {
        forall x | x in Live(rows[1..], time)
          ensures Before(rows[0], x) && rows[0].id != x.id
        {
          LiveRows(rows[1..], time, x);
          HeadBefore(rows, x);
        }
        ConsSorted(rows[0], Live(rows[1..], time));
      }
    }
  }

  lemma {:induction false} InsertHas(rows: seq<Row>, row: Row, x: Row)
    ensures x in Insert(rows, row) <==> x == row || x in rows
  {
    if rows != [] && !Before(row, rows[0]) {
      assert rows == [rows[0]] + rows[1..];
      InsertHas(rows[1..], row, x);
    }
  }

  lemma {:induction false} InsertBytes(rows: seq<Row>, row: Row)
    ensures Bytes(Insert(rows, row)) == Bytes(rows) + row.bytes
  {
    if rows != [] && !Before(row, rows[0]) {
      InsertBytes(rows[1..], row);
    }
  }

  lemma {:induction false} BeforeAll(row: Row, rows: seq<Row>, x: Row)
    requires Sorted(rows) && rows != [] && Before(row, rows[0]) && x in rows
    ensures Before(row, x)
  {
    if x != rows[0] {
      assert rows == [rows[0]] + rows[1..];
      HeadBefore(rows, x);
      BeforeTransitive(row, rows[0], x);
    }
  }

  ghost predicate NewId(rows: seq<Row>, id: Uuid) {
    forall x :: x in rows ==> x.id != id
  }

  lemma {:induction false} InsertSorted(rows: seq<Row>, row: Row)
    requires Sorted(rows) && NewId(rows, row.id)
    ensures Sorted(Insert(rows, row))
  {
    if rows == [] || Before(row, rows[0]) {
      forall x | x in rows
        ensures Before(row, x)
      {
        BeforeAll(row, rows, x);
      }
      ConsSorted(row, rows);
    } else {
      TailSorted(rows, 1);
      InsertSorted(rows[1..], row);
      if rows[0].created == row.created {
        LexTotal(rows[0].id, row.id);
      }
      forall x | x in Insert(rows[1..], row)
        ensures Before(rows[0], x) && rows[0].id != x.id
      {
        InsertHas(rows[1..], row, x);
        if x != row {
          HeadBefore(rows, x);
        }
      }
      ConsSorted(rows[0], Insert(rows[1..], row));
    }
  }

  /** Evicting after the insertion drops the oldest of the other rows. */
  lemma {:induction false} EvictAfterInsert(others: seq<Row>, row: Row)
    requires Sorted(others) && others != [] && NewId(others, row.id)
    ensures EvictOldest(Insert(others, row), row.id) == Insert(others[1..], row)
  {
    if Before(row, others[0]) {
      if |others| > 1 {
        BeforeAll(row, others, others[1]);
      }
    } else {
      assert others[0] in others;
    }
  }

  lemma {:induction false} BytesSplit(a: seq<Row>, b: seq<Row>)
    ensures Bytes(a + b) == Bytes(a) + Bytes(b)
  {
    if a == [] {
      assert a + b == b;
    } else {
      assert (a + b)[1..] == a[1..] + b;
      BytesSplit(a[1..], b);
    }
  }

  /** A successful save leaves its own row and exactly the newest unexpired others
      that still fit beside it. */
  lemma {:induction false} SaveKeepsNewest(rows: seq<Row>, s: Save, x: Row)
    requires s.bytes <= MAX_BYTES && !HasId(Live(rows, s.time), s.id)
    ensures var live := Live(rows, s.time);
            var k := Evictions(live, s.bytes);
            x in AfterSave(rows, s) <==> x == RowOf(s) || x in live[k..]
  {
    var live := Live(rows, s.time);
    var k := Evictions(live, s.bytes);
    InsertHas(live[k..], RowOf(s), x);
  }

  /** A successful save keeps the table sorted and within its limits. */
  lemma {:induction false} SaveKeepsBounds(rows: seq<Row>, s: Save)
    requires Bounded(rows) && s.bytes <= MAX_BYTES && !HasId(Live(rows, s.time), s.id)
    ensures Bounded(AfterSave(rows, s))
  {
    var live := Live(rows, s.time);
    var k := Evictions(live, s.bytes);
    LiveSorted(rows, s.time);
    TailSorted(live, k);
    SuffixNew(live, k, s.id);
    InsertSorted(live[k..], RowOf(s));
    InsertBytes(live[k..], RowOf(s));
    EvictionsSuffice(live, s.bytes);
  }

  lemma {:induction false} SuffixNew(rows: seq<Row>, k: nat, id: Uuid)
    requires !HasId(rows, id) && k <= |rows|
    ensures NewId(rows[k..], id)
  {
    forall x | x in rows[k..]
      ensures x.id != id
    {
      var i :| 0 <= i < |rows[k..]| && rows[k..][i] == x;
      assert rows[k + i] == x;
    }
  }

  /** An unexpired row has this identifier. */
  ghost predicate Taken(rows: seq<Row>, id: Uuid, time: int) {
    exists row :: row in rows && row.id == id && row.expires > time
  }

  lemma {:induction false} LiveHasId(rows: seq<Row>, time: int, id: Uuid)
    ensures HasId(Live(rows, time), id) <==> Taken(rows, id, time)
  {
    if HasId(Live(rows, time), id) {
      var i :| 0 <= i < |Live(rows, time)| && Live(rows, time)[i].id == id;
      LiveRows(rows, time, Live(rows, time)[i]);
    }
    if row :| row in rows && row.id == id && row.expires > time {
      LiveRows(rows, time, row);
      var i :| 0 <= i < |Live(rows, time)| && Live(rows, time)[i] == row;
    }
  }

  // ------------------------------------------------------------ the store

  class Store {
    var rows: seq<Row>

    ghost predicate Valid()
      reads this
    {
      Bounded(rows)
    }

    constructor ()
      ensures Valid() && rows == []
    {
      rows := [];
    }

    /** The transaction of one save: expire, insert, evict; or roll back. */
    method Commit(s: Save) returns (ok: bool)
      requires Valid() && s.bytes <= MAX_BYTES
      modifies this
      ensures Valid()
      ensures ok == !HasId(Live(old(rows), s.time), s.id)
      ensures rows == AfterSave(old(rows), s)
    {
      var live := Live(rows, s.time);
      ok := !HasId(live, s.id);
      if ok {
        LiveSorted(rows, s.time);
        SaveKeepsBounds(rows, s);
        var table := Evict(live, RowOf(s));
        rows := table;
      }
    }

    /** `save`: fits the set, then commits it. */
    method Save(given: Stored, id: Uuid, time: int, size: Stored -> nat)
      returns (r: Result<Stored>)
      requires Valid()
      modifies this
      ensures Valid()
      ensures r.Ok? ==>
                && Fitted(given, id, size, r)
                && !Taken(old(rows), id, time)
                && rows == AfterSave(old(rows), Saving(id, time, r.value, size(r.value)))
                && Row(id, time, time + TTL_SECONDS, r.value, size(r.value)) in rows
      ensures r.Err? ==> rows == old(rows) && (Taken(rows, id, time) || Fitted(given, id, size, Err))
      ensures var whole := Stored(Labelled(given.hits, id), given.truncated);
              |given.hits| <= MAX_HITS && size(whole) <= MAX_BYTES && !Taken(old(rows), id, time) ==> r == Ok(whole)
    {
      LiveHasId(rows, time, id);
      r := Fit(given, id, size);
      if r.Ok? {
        ghost var s := Saving(id, time, r.value, size(r.value));
        ghost var before := rows;
        var ok := Commit(Saving(id, time, r.value, size(r.value)));
        if !ok {
          r := Err;
        } else {
          SaveKeepsNewest(before, s, RowOf(s));
        }
      }
    }
  }

  /** The insertion and the eviction loop, as one transaction sees them. */
  method Evict(live: seq<Row>, row: Row) returns (table: seq<Row>)
    requires Sorted(live) && !HasId(live, row.id) && row.bytes <= MAX_BYTES
    ensures table == Insert(live[Evictions(live, row.bytes)..], row)
  {
    table := Insert(live, row);
    ghost var gone := 0;
    ghost var k := Evictions(live, row.bytes);
    assert live[0..] == live;
    while |table| > MAX_SETS || Bytes(table) > MAX_BYTES
      invariant gone <= k && table == Insert(live[gone..], row)
      decreases k - gone
    {
      MoreToEvict(live, row, gone);
      EvictOneMore(live, row, gone);
      table := EvictOldest(table, row.id);
      gone := gone + 1;
    }
    MoreToEvict(live, row, gone);
  }

  lemma {:induction false} MoreToEvict(live: seq<Row>, row: Row, gone: nat)
    requires row.bytes <= MAX_BYTES && gone <= Evictions(live, row.bytes)
    ensures var table := Insert(live[gone..], row);
            gone < Evictions(live, row.bytes) <==> |table| > MAX_SETS || Bytes(table) > MAX_BYTES
  {
    InsertBytes(live[gone..], row);
    if gone < Evictions(live, row.bytes) {
      EvictionsNeeded(live, row.bytes, gone);
    } else {
      EvictionsSuffice(live, row.bytes);
    }
  }

  lemma {:induction false} EvictOneMore(live: seq<Row>, row: Row, gone: nat)
    requires Sorted(live) && !HasId(live, row.id) && gone < |live|
    ensures EvictOldest(Insert(live[gone..], row), row.id) == Insert(live[gone + 1..], row)
  {
    TailSorted(live, gone);
    SuffixNew(live, gone, row.id);
    EvictAfterInsert(live[gone..], row);
    assert live[gone..][1..] == live[gone + 1..];
  }

  // ------------------------------------------------------------ reading by handle

  function Find(rows: seq<Row>, id: Uuid): (r: Option<Row>)
    ensures r.Some? ==> r.value in rows && r.value.id == id
    ensures r.None? ==> NewId(rows, id)
  {
    if rows == [] then None
    else if rows[0].id == id then Some(rows[0])
    else assert rows == [rows[0]] + rows[1..]; Find(rows[1..], id)
  }

  /** `entry`: the stored entry a printed handle names, or an error. */
  function EntryAt(rows: seq<Row>, text: string, now: int): Result<Entry> {
    var handle := ParseHandle(text);
    if handle.None? then Err
    else
      EntryIn(Find(rows, handle.value.set_), handle.value.ordinal, now)
  }

  function EntryIn(row: Option<Row>, ordinal: nat, now: int): Result<Entry> {
    if row.None? || row.value.expires <= now then Err
    else if ordinal == 0 || ordinal > |row.value.payload.hits| then Err
    else Ok(row.value.payload.hits[ordinal - 1])
  }

  // ------------------------------------------------------------ runs

  ghost predicate Proper(s: Save) {
    s.bytes <= MAX_BYTES && |s.payload.hits| <= MAX_HITS
  }

  ghost predicate Saves(saves: seq<Save>) {
    && (forall i :: 0 <= i < |saves| ==> Proper(saves[i]))
    && (forall i, j :: 0 <= i < j < |saves| ==> saves[i].id != saves[j].id)
  }

  /** The table after a run of successful saves under fresh identifiers. */
  ghost function TableAfter(saves: seq<Save>): seq<Row>
  {
    if saves == [] then [] else
      var n := |saves| - 1;
      AfterSave(TableAfter(saves[..n]), saves[n])
  }

  ghost predicate FromRun(saves: seq<Save>, row: Row) {
    exists j :: 0 <= j < |saves| && row == RowOf(saves[j])
  }

  lemma {:induction false} FreshId(rows: seq<Row>, time: int, front: seq<Save>, s: Save)
    requires forall x :: x in rows ==> FromRun(front, x)
    requires Saves(front + [s])
    ensures !HasId(Live(rows, time), s.id)
  {
    var live, all := Live(rows, time), front + [s];
    forall i | 0 <= i < |live|
      ensures live[i].id != s.id
    {
      LiveRows(rows, time, live[i]);
      var j :| 0 <= j < |front| && live[i] == RowOf(front[j]);
      assert all[j] == front[j] && all[|front|] == s;
    }
  }

  /** After every run of saves the table is within its limits, every row in it is
      some save's row, and the latest save is there. */
  lemma {:induction false} RunsStayBounded(saves: seq<Save>)
    requires Saves(saves)
    ensures Bounded(TableAfter(saves))
    ensures forall x :: x in TableAfter(saves) ==> FromRun(saves, x)
    ensures saves != [] ==> RowOf(saves[|saves| - 1]) in TableAfter(saves)
    ensures saves != [] ==>
              var n := |saves| - 1;
              !HasId(Live(TableAfter(saves[..n]), saves[n].time), saves[n].id)
  {
    if saves != [] {
      var n := |saves| - 1;
      var front, s := saves[..n], saves[n];
      assert saves == front + [s];
      RunsStayBounded(front);
      var rows := TableAfter(front);
      FreshId(rows, s.time, front, s);
      SaveKeepsBounds(rows, s);
      SaveKeepsNewest(rows, s, RowOf(s));
      forall x | x in AfterSave(rows, s)
        ensures FromRun(saves, x)
      {
        SaveKeepsNewest(rows, s, x);
        if x == RowOf(s) {
          assert x == RowOf(saves[n]);
        } else {
          SuffixHas(Live(rows, s.time), Evictions(Live(rows, s.time), s.bytes), x);
          LiveRows(rows, s.time, x);
          var j :| 0 <= j < |front| && x == RowOf(front[j]);
          assert x == RowOf(saves[j]);
        }
      }
    }
  }

  lemma {:induction false} SuffixHas(rows: seq<Row>, k: nat, x: Row)
    requires k <= |rows| && x in rows[k..]
    ensures x in rows
  {
  }

  lemma {:induction false} FoundIsOwn(saves: seq<Save>, j: nat)
    requires Saves(saves) && j < |saves|
    ensures var row := RowOf(saves[j]);
            Find(TableAfter(saves), saves[j].id) == if row in TableAfter(saves) then Some(row) else None
  {
    RunsStayBounded(saves);
    OnlyOwn(TableAfter(saves), saves, j);
  }

  lemma {:induction false} OnlyOwn(rows: seq<Row>, saves: seq<Save>, j: nat)
    requires Saves(saves) && j < |saves| && forall x :: x in rows ==> FromRun(saves, x)
    ensures Find(rows, saves[j].id) == if RowOf(saves[j]) in rows then Some(RowOf(saves[j])) else None
  {
    var found := Find(rows, saves[j].id);
    if found.Some? {
      assert FromRun(saves, found.value);
      var i :| 0 <= i < |saves| && found.value == RowOf(saves[i]);
      assert i == j;
    }
  }

  lemma {:induction false} EntryInOwn(rows: seq<Row>, s: Save, k: nat, now: int)
    requires k < |s.payload.hits|
    requires Find(rows, s.id) == if RowOf(s) in rows then Some(RowOf(s)) else None
    ensures EntryIn(Find(rows, s.id), k + 1, now)
         == if RowOf(s) in rows && now < RowOf(s).expires then Ok(s.payload.hits[k]) else Err
  {
  }

  /** Any spelling of a save's handle names that save's own entry for as long as the save's
      row is kept and unexpired, and is an error from then on: it never names an entry of
      another set. */
  lemma {:induction false} SpellingNamesItsEntry(saves: seq<Save>, j: nat, k: nat, now: int, text: string)
    requires Saves(saves) && j < |saves| && k < |saves[j].payload.hits|
    requires ParseHandle(text) == Some(Handle(saves[j].id, k + 1))
    ensures var row := RowOf(saves[j]);
            EntryAt(TableAfter(saves), text, now)
              == if row in TableAfter(saves) && now < row.expires then Ok(saves[j].payload.hits[k]) else Err
  {
    FoundIsOwn(saves, j);
    EntryInOwn(TableAfter(saves), saves[j], k, now);
  }

  lemma {:induction false} PrintedParses(s: Save, k: nat)
    requires Proper(s) && k < |s.payload.hits|
    ensures ParseHandle(PrintHandle(Handle(s.id, k + 1))) == Some(Handle(s.id, k + 1))
  {
    HandleReadsBack(Handle(s.id, k + 1));
  }

  /** In particular, so does the handle that the save printed. */
  lemma {:induction false} HandleNamesItsEntry(saves: seq<Save>, j: nat, k: nat, now: int)
    requires Saves(saves) && j < |saves| && k < |saves[j].payload.hits|
    ensures var row := RowOf(saves[j]);
            EntryAt(TableAfter(saves), PrintHandle(Handle(saves[j].id, k + 1)), now)
              == if row in TableAfter(saves) && now < row.expires then Ok(saves[j].payload.hits[k]) else Err
  {
    PrintedParses(saves[j], k);
    SpellingNamesItsEntry(saves, j, k, now, PrintHandle(Handle(saves[j].id, k + 1)));
  }

  // ------------------------------------------------------------ retention

  ghost function Sum(saves: seq<Save>): nat {
    if saves == [] then 0 else Sum(saves[..|saves| - 1]) + saves[|saves| - 1].bytes
  }

  /** Rows drawn from distinct saves number and weigh no more than the saves. */
  lemma {:induction false} RowsWithinSaves(rows: seq<Row>, saves: seq<Save>)
    requires Sorted(rows)
    requires forall x :: x in rows ==> FromRun(saves, x)
    ensures |rows| <= |saves| && Bytes(rows) <= Sum(saves)
    decreases |saves|
  {
    if rows != [] {
      assert FromRun(saves, rows[0]);
      var n := |saves| - 1;
      var front, last := saves[..n], RowOf(saves[n]);
      if last in rows {
        var p :| 0 <= p < |rows| && rows[p] == last;
        var rest := rows[..p] + rows[p + 1..];
        WithoutBytes(rows, p);
        WithoutSorted(rows, p);
        forall x | x in rest
          ensures FromRun(front, x)
        {
          WithoutOther(rows, p, x);
          FromFront(saves, x);
        }
        RowsWithinSaves(rest, front);
      } else {
        forall x | x in rows
          ensures FromRun(front, x)
        {
          FromFront(saves, x);
        }
        RowsWithinSaves(rows, front);
      }
    }
  }

  lemma {:induction false} FromFront(saves: seq<Save>, x: Row)
    requires saves != [] && FromRun(saves, x) && x != RowOf(saves[|saves| - 1])
    ensures FromRun(saves[..|saves| - 1], x)
  {
    var front := saves[..|saves| - 1];
    var j :| 0 <= j < |saves| && x == RowOf(saves[j]);
    assert x == RowOf(front[j]);
  }

  lemma {:induction false} WithoutBytes(rows: seq<Row>, p: nat)
    requires p < |rows|
    ensures Bytes(rows) == Bytes(rows[..p] + rows[p + 1..]) + rows[p].bytes
  {
    BytesSplit(rows[..p], rows[p..]);
    BytesSplit(rows[..p], rows[p + 1..]);
    assert rows[..p] + rows[p..] == rows;
    assert rows[p..][1..] == rows[p + 1..];
  }

  lemma {:induction false} WithoutSorted(rows: seq<Row>, p: nat)
    requires Sorted(rows) && p < |rows|
    ensures Sorted(rows[..p] + rows[p + 1..])
  {
    var rest := rows[..p] + rows[p + 1..];
    forall i, j | 0 <= i < j < |rest|
      ensures Before(rest[i], rest[j]) && rest[i].id != rest[j].id
    {
      var a, b := if i < p then i else i + 1, if j < p then j else j + 1;
      assert rest[i] == rows[a] && rest[j] == rows[b];
    }
  }

  lemma {:induction false} WithoutOther(rows: seq<Row>, p: nat, x: Row)
    requires Sorted(rows) && p < |rows| && x in rows[..p] + rows[p + 1..]
    ensures x in rows && x != rows[p]
  {
    var rest := rows[..p] + rows[p + 1..];
    var i :| 0 <= i < |rest| && rest[i] == x;
    var a := if i < p then i else i + 1;
    assert x == rows[a];
    assert rows[a].id != rows[p].id;
  }

  ghost predicate Ordered(saves: seq<Save>) {
    forall i, j :: 0 <= i < j < |saves| ==> saves[i].time <= saves[j].time
  }

  /** Saves from `a` on are the ones made no earlier than save `j`'s second. */
  ghost predicate Since(saves: seq<Save>, a: nat, j: nat) {
    a <= j < |saves| && forall i :: 0 <= i < a ==> saves[i].time < saves[j].time
  }

  /** A row no older than save `j` comes from a save no earlier than `a`. */
  lemma {:induction false} NewerRow(saves: seq<Save>, a: nat, j: nat, x: Row)
    requires Since(saves, a, j) && FromRun(saves, x) && x.created >= saves[j].time
    ensures FromRun(saves[a..], x)
  {
    var i :| 0 <= i < |saves| && x == RowOf(saves[i]);
    assert x == RowOf(saves[a..][i - a]);
  }

  lemma {:induction false} AtOrAfter(live: seq<Row>, p: nat, k: nat, x: Row)
    requires Sorted(live) && p <= k < |live| && x in live[k..]
    ensures x.created >= live[p].created
  {
    var i :| 0 <= i < |live[k..]| && live[k..][i] == x;
    assert x == live[k + i];
  }

  /** One more save does not evict row `p` while the saves since it fit the limits. */
  lemma {:induction false} NotEvicted(live: seq<Row>, p: nat, front: seq<Save>, a: nat, j: nat, bytes: nat)
    requires Sorted(live) && p < |live| && Since(front, a, j) && live[p] == RowOf(front[j])
    requires forall x :: x in live ==> FromRun(front, x)
    requires Within(|front| - a + 1, Sum(front[a..]) + bytes) && bytes <= MAX_BYTES
    ensures Evictions(live, bytes) <= p
  {
    var k := Evictions(live, bytes);
    if k > p {
      EvictionsNeeded(live, bytes, k - 1);
      var tail := live[k - 1..];
      forall x | x in tail
        ensures FromRun(front[a..], x)
      {
        SuffixHas(live, k - 1, x);
        AtOrAfter(live, p, k - 1, x);
        NewerRow(front, a, j, x);
      }
      TailSorted(live, k - 1);
      RowsWithinSaves(tail, front[a..]);
    }
  }

  lemma {:induction false} PrefixOfRun(saves: seq<Save>, a: nat, j: nat)
    requires Saves(saves) && Ordered(saves) && Since(saves, a, j) && j < |saves| - 1
    ensures var n := |saves| - 1;
            && Saves(saves[..n]) && Ordered(saves[..n]) && Since(saves[..n], a, j)
            && saves[n - 1].time <= saves[n].time && Proper(saves[n])
  {
  }

  lemma {:induction false} SumGrows(saves: seq<Save>, a: nat)
    requires a < |saves|
    ensures var n := |saves| - 1;
            Sum(saves[a..]) == Sum(saves[..n][a..]) + saves[n].bytes
  {
    var n := |saves| - 1;
    assert saves[a..][..n - a] == saves[..n][a..];
  }

  /** Retention: with a clock that does not run backwards, a save is still in the table
      after any later saves, provided it has not expired and all saves since its second
      together fit the limits. */
  lemma {:induction false} RetainedWhileRoom(saves: seq<Save>, a: nat, j: nat)
    requires Saves(saves) && Ordered(saves) && Since(saves, a, j)
    requires Within(|saves| - a, Sum(saves[a..]))
    requires saves[|saves| - 1].time < saves[j].time + TTL_SECONDS
    ensures RowOf(saves[j]) in TableAfter(saves)
    decreases |saves|
  {
    var n := |saves| - 1;
    if j < n {
      SumGrows(saves, a);
      PrefixOfRun(saves, a, j);
      RetainedWhileRoom(saves[..n], a, j);
      OneSaveMore(saves[..n], saves[n], a, j, saves);
    } else {
      RunsStayBounded(saves);
    }
  }

  lemma {:induction false} OneSaveMore(front: seq<Save>, s: Save, a: nat, j: nat, saves: seq<Save>)
    requires saves != [] && front == saves[..|saves| - 1] && s == saves[|saves| - 1] && Saves(saves)
    requires Since(front, a, j) && RowOf(front[j]) in TableAfter(front)
    requires s.time < front[j].time + TTL_SECONDS
    requires Within(|front| - a + 1, Sum(front[a..]) + s.bytes)
    ensures RowOf(front[j]) in TableAfter(saves)
  {
    RunsStayBounded(saves);
    RunsStayBounded(front);
    StaysAfterSave(TableAfter(front), front, s, a, j);
  }

  lemma {:induction false} StaysAfterSave(rows: seq<Row>, front: seq<Save>, s: Save, a: nat, j: nat)
    requires Bounded(rows) && s.bytes <= MAX_BYTES && Since(front, a, j)
    requires !HasId(Live(rows, s.time), s.id)
    requires forall x :: x in rows ==> FromRun(front, x)
    requires RowOf(front[j]) in rows && s.time < front[j].time + TTL_SECONDS
    requires Within(|front| - a + 1, Sum(front[a..]) + s.bytes)
    ensures RowOf(front[j]) in AfterSave(rows, s)
  {
    var live := Live(rows, s.time);
    LiveRows(rows, s.time, RowOf(front[j]));
    LiveSorted(rows, s.time);
    LiveFromRun(rows, s.time, front);
    StaysAmong(live, front, s, a, j);
  }

  lemma {:induction false} LiveFromRun(rows: seq<Row>, time: int, front: seq<Save>)
    requires forall x :: x in rows ==> FromRun(front, x)
    ensures forall x :: x in Live(rows, time) ==> FromRun(front, x)
  {
    forall x | x in Live(rows, time)
      ensures FromRun(front, x)
    {
      LiveRows(rows, time, x);
    }
  }

  lemma {:induction false} StaysAmong(live: seq<Row>, front: seq<Save>, s: Save, a: nat, j: nat)
    requires Sorted(live) && s.bytes <= MAX_BYTES && Since(front, a, j) && RowOf(front[j]) in live
    requires forall x :: x in live ==> FromRun(front, x)
    requires Within(|front| - a + 1, Sum(front[a..]) + s.bytes)
    ensures RowOf(front[j]) in Insert(live[Evictions(live, s.bytes)..], RowOf(s))
  {
    var row, k := RowOf(front[j]), Evictions(live, s.bytes);
    var p :| 0 <= p < |live| && live[p] == row;
    NotEvicted(live, p, front, a, j, s.bytes);
    assert live[k..][p - k] == row;
    InsertHas(live[k..], RowOf(s), row);
  }
}
