/** The diagnostic journal: bounded segments of records, pruning, and forgetting
    (src/diagnostics/journal.rs, and the event filters of src/diagnostics/audit.rs).

    Every operation holds the append lock, so it is one step of a run. A deletion
    pass of `forget` may be cut short after any number of segments. */
module Journal {
  import opened Basics

  const RETENTION_SECONDS: nat := 30 * 24 * 60 * 60
  const SEGMENT_BYTES: nat := 50 * 1024 * 1024
  const TOTAL_BYTES: nat := 200 * 1024 * 1024
  const DATABASE_BYTES: nat := 72 * 1024 * 1024
  const RECORD_BYTES: nat := 64 * 1024

  /** A record as written, with its newline: when its request was created (in
      microseconds), when it was recorded (in seconds), its session and its length. */
  datatype Event = Event(id: nat, created: nat, timestamp: nat, session: Option<nat>, size: nat)

  /** A segment file; the name carries its creation second and a unique tag. */
  datatype Segment = Segment(created: nat, tag: nat, events: seq<Event>)

  datatype Disk = Disk(
    epoch: nat,
    forgotten: nat,
    segments: seq<Segment>,
    database: nat,
    sessions: set<nat>,
    evicted: nat)

  datatype Status = Recorded | Disabled | Dropped | Invalidated | Failed

  function Size(events: seq<Event>): nat {
    if events == [] then 0 else Size(events[..|events| - 1]) + events[|events| - 1].size
  }

  function Bytes(segments: seq<Segment>): nat {
    if segments == [] then 0 else Size(segments[0].events) + Bytes(segments[1..])
  }

  // ------------------------------------------------------------ one record

  /** Drops trailing emitted identities until the record fits: the longest prefix that
      does, for any serialised length. */
  method FitRecord(emitted: nat, size: nat -> nat) returns (kept: Result<nat>)
    ensures kept.Ok? ==> kept.value <= emitted && size(kept.value) < RECORD_BYTES
    ensures kept.Ok? ==> forall n: nat :: kept.value < n <= emitted ==> size(n) >= RECORD_BYTES
    ensures kept.Err? <==> forall n: nat :: n <= emitted ==> size(n) >= RECORD_BYTES
  {
    var n: nat := emitted;
    while size(n) + 1 > RECORD_BYTES && n > 0
      invariant n <= emitted
      invariant forall m: nat :: n < m <= emitted ==> size(m) >= RECORD_BYTES
      decreases n
    {
      n := n - 1;
    }
    kept := if size(n) < RECORD_BYTES then Ok(n) else Err;
  }

  // ------------------------------------------------------------ pruning

  predicate Fresh(s: Segment, now: nat) {
    now <= s.created + RETENTION_SECONDS
  }

  predicate Room(total: nat, incoming: nat) {
    total + incoming + DATABASE_BYTES <= TOTAL_BYTES
  }

  /** How many of the oldest segments a prune removes. */
  function PruneCount(segments: seq<Segment>, database: nat, incoming: nat, now: nat): (k: nat)
    ensures k <= |segments|
  {
    if segments == [] || (Fresh(segments[0], now) && Room(Bytes(segments) + database, incoming)) then 0
    else 1 + PruneCount(segments[1..], database, incoming, now)
  }

  /** Every removed segment had expired or stood in the way of the incoming bytes. */
  lemma {:induction false} PrunedForCause(segments: seq<Segment>, database: nat, incoming: nat, now: nat, i: nat)
    requires i < PruneCount(segments, database, incoming, now)
    ensures || segments[i].created + RETENTION_SECONDS < now
            || Bytes(segments[i..]) + database + incoming + DATABASE_BYTES > TOTAL_BYTES
  {
    if i == 0 {
      assert segments[0..] == segments;
    } else {
      PrunedForCause(segments[1..], database, incoming, now, i - 1);
      assert segments[1..][i - 1..] == segments[i..];
    }
  }

  /** What is left leaves room, and its oldest segment has not expired. */
  lemma {:induction false} PruneStops(segments: seq<Segment>, database: nat, incoming: nat, now: nat)
    ensures var k := PruneCount(segments, database, incoming, now);
            k < |segments| ==>
              && now <= segments[k].created + RETENTION_SECONDS
              && Bytes(segments[k..]) + database + incoming + DATABASE_BYTES <= TOTAL_BYTES
  {
    var k := PruneCount(segments, database, incoming, now);
    if k == 0 {
      assert segments[0..] == segments;
    } else {
      PruneStops(segments[1..], database, incoming, now);
      assert segments[1..][k - 1..] == segments[k..];
    }
  }

  function AfterPrune(d: Disk, incoming: nat, now: nat): Disk {
    var k := PruneCount(d.segments, d.database, incoming, now);
    d.(segments := d.segments[k..], evicted := d.evicted + k)
  }

  predicate HasRoom(d: Disk, incoming: nat) {
    Room(Bytes(d.segments) + d.database, incoming)
  }

  // ------------------------------------------------------------ appending

  predicate Before(a: Segment, b: Segment) {
    a.created < b.created || (a.created == b.created && a.tag < b.tag)
  }

  /** Directory listings are sorted by file name. */
  function Insert(segments: seq<Segment>, s: Segment): (r: seq<Segment>)
    ensures |r| == |segments| + 1
  {
    if segments == [] || Before(s, segments[0]) then [s] + segments
    else [segments[0]] + Insert(segments[1..], s)
  }

  function Appended(segments: seq<Segment>, e: Event, now: nat, tag: nat): seq<Segment> {
    var n := |segments|;
    if n > 0 && Size(segments[n - 1].events) + e.size <= SEGMENT_BYTES then
      segments[n - 1 := segments[n - 1].(events := segments[n - 1].events + [e])]
    else Insert(segments, Segment(now, tag, [e]))
  }

  /** Whether the journal admits an event from a writer opened at `epoch`. */
  predicate Admits(d: Disk, epoch: nat, e: Event) {
    epoch == d.epoch && e.created > d.forgotten && (e.session.Some? ==> e.session.value in d.sessions)
  }

  function AfterRecord(d: Disk, epoch: nat, e: Event, now: nat, tag: nat): (Disk, Status) {
    if !Admits(d, epoch, e) then (d, Invalidated)
    else if e.size > RECORD_BYTES then (d, Failed)
    else AfterAppend(d, e, now, tag)
  }

  function AfterAppend(d: Disk, e: Event, now: nat, tag: nat): (Disk, Status) {
    var p := AfterPrune(d, e.size, now);
    if !HasRoom(p, e.size) then (p, Failed)
    else (p.(segments := Appended(p.segments, e, now, tag)), Recorded)
  }

  /** Forgetting commits the new epoch first; `deleted` of the segments go afterwards. */
  function AfterForget(d: Disk, now: nat, deleted: nat): Disk
    requires deleted <= |d.segments|
  {
    d.(epoch := d.epoch + 1, forgotten := now, sessions := {}, evicted := 0, segments := d.segments[deleted..])
  }

  /** A session start or end prunes for the database's whole remaining growth. */
  function AfterSession(d: Disk, now: nat, started: set<nat>): (Disk, bool) {
    var growth := if d.database <= DATABASE_BYTES then DATABASE_BYTES - d.database else 0;
    var p := AfterPrune(d, growth, now);
    if HasRoom(p, growth) then (p.(sessions := p.sessions + started), true) else (p, false)
  }

  /** The shared directory, changed in place by whichever writer holds the lock. */
  class Directory {
    var epoch: nat
    var forgotten: nat
    var segments: seq<Segment>
    var database: nat
    var sessions: set<nat>
    var evicted: nat

    ghost function View(): Disk
      reads this
    {
      Disk(epoch, forgotten, segments, database, sessions, evicted)
    }

    constructor ()
      ensures View() == EMPTY
    {
      epoch, forgotten, segments, database, sessions, evicted := 0, 0, [], 0, {}, 0;
    }

    /** `prune` over a running total. */
    method Prune(incoming: nat, now: nat) returns (room: bool)
      modifies this
      ensures View() == AfterPrune(old(View()), incoming, now)
      ensures room == HasRoom(View(), incoming)
    {
      var total := Bytes(segments) + database;
      var remove := 0;
      assert segments[0..] == segments;
      while remove < |segments|
        invariant 0 <= remove <= |segments|
        invariant total == Bytes(segments[remove..]) + database
        invariant PruneCount(segments, database, incoming, now)
                  == remove + PruneCount(segments[remove..], database, incoming, now)
      {
        assert segments[remove..][1..] == segments[remove + 1..];
        if Fresh(segments[remove], now) && Room(total, incoming) {
          break;
        }
        total := total - Size(segments[remove].events);
        remove := remove + 1;
      }
      segments := segments[remove..];
      evicted := evicted + remove;
      room := Room(total, incoming);
    }

    /** `record` by a writer opened at epoch `mine`; an occupied lock drops the record. */
    method Record(off: bool, locked: bool, mine: nat, e: Event, now: nat, tag: nat) returns (status: Status)
      modifies this
      ensures off ==> status == Disabled && View() == old(View())
      ensures !off && !locked ==> status == Dropped && View() == old(View())
      ensures !off && locked ==> (View(), status) == AfterRecord(old(View()), mine, e, now, tag)
    {
      if off {
        return Disabled;
      }
      if !locked {
        return Dropped;
      }
      if mine != epoch || e.created <= forgotten {
        return Invalidated;
      }
      if e.session.Some? && e.session.value !in sessions {
        return Invalidated;
      }
      if e.size > RECORD_BYTES {
        return Failed;
      }
      status := Append(e, now, tag);
    }

    /** The rest of `record`, once the event is admitted. */
    method Append(e: Event, now: nat, tag: nat) returns (status: Status)
      modifies this
      ensures (View(), status) == AfterAppend(old(View()), e, now, tag)
    {
      var room := Prune(e.size, now);
      if !room {
        return Failed;
      }
      segments := Appended(segments, e, now, tag);
      status := Recorded;
    }

    /** `forget`, whose deletion pass stops after `reach` segments at the latest. */
    method Forget(now: nat, reach: nat)
      modifies this
      ensures var deleted := if reach < |old(segments)| then reach else |old(segments)|;
              View() == AfterForget(old(View()), now, deleted)
    {
      epoch := epoch + 1;
      forgotten := now;
      sessions := {};
      evicted := 0;
      var deleted := 0;
      ghost var all := segments;
      while deleted < reach && segments != []
        invariant deleted <= |all| && deleted <= reach && segments == all[deleted..]
        invariant epoch == old(epoch) + 1 && forgotten == now && sessions == {} && evicted == 0
        invariant database == old(database)
      {
        segments := segments[1..];
        deleted := deleted + 1;
      }
    }
  }

  const EMPTY: Disk := Disk(0, 0, [], 0, {}, 0)

  // ------------------------------------------------------------ what an audit counts

  /** The filters of `audit`: retention, forgetting and the requested session. */
  predicate Counts(forgotten: nat, e: Event, now: nat, session: Option<nat>) {
    && now <= e.timestamp + RETENTION_SECONDS
    && e.created > forgotten
    && (session.Some? ==> e.session == session)
  }

  ghost predicate OnDisk(d: Disk, e: Event) {
    exists i :: 0 <= i < |d.segments| && e in d.segments[i].events
  }

  ghost predicate Audited(d: Disk, e: Event, now: nat, session: Option<nat>) {
    OnDisk(d, e) && Counts(d.forgotten, e, now, session)
  }

  // ------------------------------------------------------------ invariant of the directory

  ghost predicate Sorted(segments: seq<Segment>) {
    forall i, j :: 0 <= i < j < |segments| ==> segments[i].created <= segments[j].created
  }

  ghost predicate Capped(segments: seq<Segment>) {
    forall i :: 0 <= i < |segments| ==> Size(segments[i].events) <= SEGMENT_BYTES
  }

  /** Each segment and the whole directory are within their limits. */
  ghost predicate Bounded(d: Disk) {
    && Sorted(d.segments) && Capped(d.segments)
    && d.database <= DATABASE_BYTES && Bytes(d.segments) + DATABASE_BYTES <= TOTAL_BYTES
  }

  lemma {:induction false} BytesSuffix(segments: seq<Segment>, k: nat)
    requires k <= |segments|
    ensures Bytes(segments[k..]) <= Bytes(segments)
  {
    if k == 0 {
      assert segments[0..] == segments;
    } else {
      BytesSuffix(segments[1..], k - 1);
      assert segments[1..][k - 1..] == segments[k..];
    }
  }

  lemma {:induction false} SuffixBounded(d: Disk, k: nat)
    requires Bounded(d) && k <= |d.segments|
    ensures Bounded(d.(segments := d.segments[k..]))
  {
    BytesSuffix(d.segments, k);
  }

  /** After a prune of a sorted directory nothing that is left has expired. */
  lemma {:induction false} PruneLeavesFresh(d: Disk, incoming: nat, now: nat, i: nat)
    requires Sorted(d.segments) && i < |AfterPrune(d, incoming, now).segments|
    ensures now <= AfterPrune(d, incoming, now).segments[i].created + RETENTION_SECONDS
  {
    PruneStops(d.segments, d.database, incoming, now);
    var k := PruneCount(d.segments, d.database, incoming, now);
    assert d.segments[k].created <= d.segments[k + i].created;
  }

  lemma {:induction false} InsertBytes(segments: seq<Segment>, s: Segment)
    ensures Bytes(Insert(segments, s)) == Bytes(segments) + Size(s.events)
  {
    if segments != [] && !Before(s, segments[0]) {
      InsertBytes(segments[1..], s);
    }
  }

  lemma {:induction false} InsertHas(segments: seq<Segment>, s: Segment, x: Segment)
    ensures x in Insert(segments, s) <==> x == s || x in segments
  {
    if segments != [] && !Before(s, segments[0]) {
      assert segments == [segments[0]] + segments[1..];
      InsertHas(segments[1..], s, x);
    }
  }

  lemma {:induction false} ConsSorted(s: Segment, rest: seq<Segment>)
    requires Sorted(rest) && forall x :: x in rest ==> s.created <= x.created
    ensures Sorted([s] + rest)
  {
    var all := [s] + rest;
    forall i, j | 0 <= i < j < |all|
      ensures all[i].created <= all[j].created
    {
      assert all[j] == rest[j - 1] && all[j] in rest;
    }
  }

  lemma {:induction false} HeadOldest(segments: seq<Segment>, x: Segment)
    requires Sorted(segments) && x in segments
    ensures segments[0].created <= x.created
  {
    var i :| 0 <= i < |segments| && segments[i] == x;
    assert i > 0 ==> segments[0].created <= segments[i].created;
  }

  lemma {:induction false} InsertSorted(segments: seq<Segment>, s: Segment)
    requires Sorted(segments)
    ensures Sorted(Insert(segments, s))
  {
    if segments == [] || Before(s, segments[0]) {
      forall x | x in segments
        ensures s.created <= x.created
      {
        HeadOldest(segments, x);
      }
      ConsSorted(s, segments);
    } else {
      assert segments == [segments[0]] + segments[1..];
      InsertSorted(segments[1..], s);
      forall x | x in Insert(segments[1..], s)
        ensures segments[0].created <= x.created
      {
        InsertHas(segments[1..], s, x);
        if x != s {
          HeadOldest(segments, x);
        }
      }
      ConsSorted(segments[0], Insert(segments[1..], s));
    }
  }

  lemma {:induction false} BytesUpdate(segments: seq<Segment>, i: nat, s: Segment)
    requires i < |segments|
    ensures Bytes(segments[i := s]) + Size(segments[i].events) == Bytes(segments) + Size(s.events)
  {
    if i == 0 {
      assert segments[0 := s][1..] == segments[1..];
    } else {
      BytesUpdate(segments[1..], i - 1, s);
      assert segments[i := s][1..] == segments[1..][i - 1 := s];
    }
  }

  lemma {:induction false} SizeAppend(events: seq<Event>, e: Event)
    ensures Size(events + [e]) == Size(events) + e.size
  {
    assert (events + [e])[..|events|] == events;
  }

  ghost predicate Extends(segments: seq<Segment>) {
    Sorted(segments) && Capped(segments)
  }

  lemma {:induction false} AppendedBounded(segments: seq<Segment>, e: Event, now: nat, tag: nat)
    requires Extends(segments) && e.size <= RECORD_BYTES
    ensures var r := Appended(segments, e, now, tag);
            Extends(r) && Bytes(r) == Bytes(segments) + e.size && exists i :: 0 <= i < |r| && e in r[i].events
  {
    var n := |segments|;
    if n > 0 && Size(segments[n - 1].events) + e.size <= SEGMENT_BYTES {
      GrownSegment(segments, e);
    } else {
      NewSegment(segments, e, now, tag);
    }
  }

  lemma {:induction false} GrownSegment(segments: seq<Segment>, e: Event)
    requires Extends(segments) && segments != []
    requires Size(segments[|segments| - 1].events) + e.size <= SEGMENT_BYTES
    ensures var n := |segments| - 1;
            var r := segments[n := segments[n].(events := segments[n].events + [e])];
            Extends(r) && Bytes(r) == Bytes(segments) + e.size && exists i :: 0 <= i < |r| && e in r[i].events
  {
    var n := |segments| - 1;
    var s := segments[n].(events := segments[n].events + [e]);
    SizeAppend(segments[n].events, e);
    BytesUpdate(segments, n, s);
    assert e in segments[n := s][n].events;
  }

  lemma {:induction false} NewSegment(segments: seq<Segment>, e: Event, now: nat, tag: nat)
    requires Extends(segments) && e.size <= RECORD_BYTES
    ensures var r := Insert(segments, Segment(now, tag, [e]));
            Extends(r) && Bytes(r) == Bytes(segments) + e.size && exists i :: 0 <= i < |r| && e in r[i].events
  {
    var s := Segment(now, tag, [e]);
    var r := Insert(segments, s);
    SizeAppend([], e);
    assert [] + [e] == [e];
    InsertBytes(segments, s);
    InsertSorted(segments, s);
    forall i | 0 <= i < |r|
      ensures Size(r[i].events) <= SEGMENT_BYTES
    {
      InsertHas(segments, s, r[i]);
      assert r[i] in r;
    }
    InsertHas(segments, s, s);
    var i :| 0 <= i < |r| && r[i] == s;
    assert e in r[i].events;
  }

  /** A record keeps the bounds; a recorded event is on disk, and an audit with the same
      clock counts it. */
  lemma {:induction false} RecordBounded(d: Disk, epoch: nat, e: Event, now: nat, tag: nat)
    requires Bounded(d)
    ensures Bounded(AfterRecord(d, epoch, e, now, tag).0)
    ensures var r := AfterRecord(d, epoch, e, now, tag);
            r.1 == Recorded ==> Admits(d, epoch, e) && Audited(r.0, e, e.timestamp, e.session)
  {
    var k := PruneCount(d.segments, d.database, e.size, now);
    SuffixBounded(d, k);
    var p := AfterPrune(d, e.size, now);
    if e.size <= RECORD_BYTES {
      AppendedBounded(p.segments, e, now, tag);
    }
  }

  /** Within the database cap, pruning always makes room for a record or a session. */
  lemma {:induction false} PruneMakesRoom(d: Disk, incoming: nat, now: nat)
    requires d.database <= DATABASE_BYTES && d.database + incoming + DATABASE_BYTES <= TOTAL_BYTES
    ensures HasRoom(AfterPrune(d, incoming, now), incoming)
  {
    PruneStops(d.segments, d.database, incoming, now);
  }

  /** An admitted record of legal size is always recorded. */
  lemma {:induction false} AdmittedIsRecorded(d: Disk, epoch: nat, e: Event, now: nat, tag: nat)
    requires Bounded(d) && e.size <= RECORD_BYTES
    ensures AfterRecord(d, epoch, e, now, tag).1 == if Admits(d, epoch, e) then Recorded else Invalidated
  {
    PruneMakesRoom(d, e.size, now);
  }

  // ------------------------------------------------------------ runs

  /** The directory and the epoch each open writer read when it was opened. */
  datatype State = State(disk: Disk, writers: map<nat, nat>)

  datatype Action =
    | Open(writer: nat)
    | Record(writer: nat, event: Event, now: nat, tag: nat)
    | Session(now: nat, started: set<nat>)
    | Resize(bytes: nat)
    | Forget(now: nat, deleted: nat)

  const INIT: State := State(EMPTY, map[])

  function Next(s: State, a: Action): Option<State> {
    match a
    case Open(w) => if w in s.writers then None else Some(s.(writers := s.writers[w := s.disk.epoch]))
    case Record(w, e, now, tag) =>
      if w !in s.writers then None
      else Some(s.(disk := AfterRecord(s.disk, s.writers[w], e, now, tag).0))
    case Session(now, started) => Some(s.(disk := AfterSession(s.disk, now, started).0))
    case Resize(n) => if n <= DATABASE_BYTES then Some(s.(disk := s.disk.(database := n))) else None
    case Forget(now, k) =>
      if k <= |s.disk.segments| then Some(s.(disk := AfterForget(s.disk, now, k))) else None
  }

  ghost predicate StepAt(states: seq<State>, acts: seq<Action>, i: int)
    requires |states| == |acts| + 1
  {
    0 <= i < |acts| && Next(states[i], acts[i]) == Some(states[i + 1])
  }

  ghost predicate Run(states: seq<State>, acts: seq<Action>) {
    && |states| == |acts| + 1 && states[0] == INIT
    && forall i :: 0 <= i < |acts| ==> StepAt(states, acts, i)
  }

  lemma {:induction false} BoundedStep(s: State, a: Action)
    requires Bounded(s.disk) && Next(s, a).Some?
    ensures Bounded(Next(s, a).value.disk)
  {
    match a
    case Open(_) =>
    case Record(w, e, now, tag) =>
      RecordBounded(s.disk, s.writers[w], e, now, tag);
    case Session(now, _) =>
      SessionBounded(s.disk, now, a.started);
    case Resize(_) =>
    case Forget(_, k) =>
      SuffixBounded(s.disk, k);
  }

  lemma {:induction false} SessionBounded(d: Disk, now: nat, started: set<nat>)
    requires Bounded(d)
    ensures Bounded(AfterSession(d, now, started).0) && AfterSession(d, now, started).1
  {
    var growth := DATABASE_BYTES - d.database;
    SuffixBounded(d, PruneCount(d.segments, d.database, growth, now));
    PruneMakesRoom(d, growth, now);
  }

  /** In every run each segment stays within 50 MiB, and the segments with the database
      stay within 200 MiB. */
  lemma {:induction false} LimitsHold(states: seq<State>, acts: seq<Action>, i: nat)
    requires Run(states, acts) && i < |states|
    ensures Bounded(states[i].disk)
    ensures Bytes(states[i].disk.segments) + states[i].disk.database <= TOTAL_BYTES
  {
    if i > 0 {
      LimitsHold(states, acts, i - 1);
      assert StepAt(states, acts, i - 1);
      BoundedStep(states[i - 1], acts[i - 1]);
    }
  }

  // ------------------------------------------------------------ forgetting

  lemma {:induction false} EpochOfWriter(states: seq<State>, acts: seq<Action>, i: nat, w: nat)
    requires Run(states, acts) && i < |states| && w in states[i].writers
    ensures states[i].writers[w] <= states[i].disk.epoch
  {
    if i > 0 {
      assert StepAt(states, acts, i - 1);
      if w in states[i - 1].writers {
        EpochOfWriter(states, acts, i - 1, w);
      }
    }
  }

  lemma {:induction false} WriterKeepsEpoch(states: seq<State>, acts: seq<Action>, i: nat, k: nat, w: nat)
    requires Run(states, acts) && i <= k < |states| && w in states[i].writers
    ensures w in states[k].writers && states[k].writers[w] == states[i].writers[w]
    ensures states[i].disk.epoch <= states[k].disk.epoch
  {
    if i < k {
      WriterKeepsEpoch(states, acts, i, k - 1, w);
      assert StepAt(states, acts, k - 1);
    }
  }

  /** Once a `forget` has committed, no writer opened before it ever records again. */
  lemma {:induction false} ForgetShutsOutWriters(states: seq<State>, acts: seq<Action>, i: nat, k: nat)
    requires Run(states, acts) && i < k < |acts| && acts[i].Forget? && acts[k].Record?
    requires acts[k].writer in states[i].writers
    ensures var a := acts[k];
            && a.writer in states[k].writers
            && AfterRecord(states[k].disk, states[k].writers[a.writer], a.event, a.now, a.tag) == (states[k].disk, Invalidated)
            && states[k + 1] == states[k]
  {
    var w := acts[k].writer;
    assert StepAt(states, acts, i) && StepAt(states, acts, k);
    EpochOfWriter(states, acts, i, w);
    WriterKeepsEpoch(states, acts, i + 1, k, w);
  }

  lemma {:induction false} ForgottenStays(states: seq<State>, acts: seq<Action>, i: nat, k: nat)
    requires Run(states, acts) && i < k < |states| && acts[i].Forget?
    requires forall m :: i < m < k && acts[m].Forget? ==> acts[i].now <= acts[m].now
    ensures states[k].disk.forgotten >= acts[i].now
  {
    assert StepAt(states, acts, k - 1);
    if i + 1 < k {
      ForgottenStays(states, acts, i, k - 1);
    }
  }

  /** With a clock that does not run backwards, no audit after a `forget` counts an event
      created at or before it, even when the deletion of segments was cut short. */
  lemma {:induction false} ForgottenIsNeverCounted(
    states: seq<State>, acts: seq<Action>, i: nat, k: nat, e: Event, now: nat, session: Option<nat>)
    requires Run(states, acts) && i < k < |states| && acts[i].Forget?
    requires forall m :: i < m < k && acts[m].Forget? ==> acts[i].now <= acts[m].now
    requires e.created <= acts[i].now
    ensures !Audited(states[k].disk, e, now, session)
  {
    ForgottenStays(states, acts, i, k);
  }

  /** Nor can such an event be recorded anew. */
  lemma {:induction false} ForgottenIsNeverRecorded(states: seq<State>, acts: seq<Action>, i: nat, k: nat)
    requires Run(states, acts) && i < k < |acts| && acts[i].Forget? && acts[k].Record?
    requires forall m :: i < m < k && acts[m].Forget? ==> acts[i].now <= acts[m].now
    requires acts[k].event.created <= acts[i].now
    ensures states[k + 1] == states[k]
  {
    ForgottenStays(states, acts, i, k);
    assert StepAt(states, acts, k);
  }

  /** The last `forget` of a run decides: an event left on disk is counted exactly when it
      was created after that `forget`'s reading of the clock, is no more than thirty days old,
      and belongs to the session that was asked for, if any. */
  lemma {:induction false} LastForgetDecides(
    states: seq<State>, acts: seq<Action>, i: nat, k: nat, e: Event, now: nat, session: Option<nat>)
    requires Run(states, acts) && i < k < |states| && acts[i].Forget?
    requires forall m :: i < m < k ==> !acts[m].Forget?
    requires OnDisk(states[k].disk, e)
    ensures Audited(states[k].disk, e, now, session) <==>
              && e.created > acts[i].now && now - e.timestamp <= 30 * 24 * 60 * 60
              && (session.Some? ==> e.session == session)
  {
    ForgottenExactly(states, acts, i, k);
  }

  lemma {:induction false} ForgottenExactly(states: seq<State>, acts: seq<Action>, i: nat, k: nat)
    requires Run(states, acts) && i < k < |states| && acts[i].Forget?
    requires forall m :: i < m < k ==> !acts[m].Forget?
    ensures states[k].disk.forgotten == acts[i].now
  {
    assert StepAt(states, acts, k - 1);
    if i + 1 < k {
      ForgottenExactly(states, acts, i, k - 1);
    }
  }

  /** Step `i` registered the session. */
  ghost predicate RegistersAt(states: seq<State>, acts: seq<Action>, i: int, session: nat)
    requires |states| == |acts| + 1
  {
    && 0 <= i < |acts| && acts[i].Session? && session in acts[i].started
    && AfterSession(states[i].disk, acts[i].now, acts[i].started).1
  }

  /** Step `i` registered the session and no `forget` came between it and point `k`. */
  ghost predicate RegisteredSince(states: seq<State>, acts: seq<Action>, i: int, k: nat, session: nat)
    requires |states| == |acts| + 1 && k < |states|
  {
    i < k && RegistersAt(states, acts, i, session) && forall m :: i < m < k ==> !acts[m].Forget?
  }

  lemma {:induction false} SessionsAfter(s: State, a: Action)
    requires Next(s, a).Some?
    ensures var before, after := s.disk.sessions, Next(s, a).value.disk.sessions;
            match a
            case Session(now, started) =>
              after == before + if AfterSession(s.disk, now, started).1 then started else {}
            case Forget(_, _) => after == {}
            case _ => after == before
  {
  }

  /** Which sessions may record: exactly those registered since the last `forget`. */
  lemma {:induction false} SessionsAreExact(states: seq<State>, acts: seq<Action>, k: nat, session: nat)
    requires Run(states, acts) && k < |states|
    ensures session in states[k].disk.sessions <==> exists i :: RegisteredSince(states, acts, i, k, session)
  {
    if k > 0 {
      var n := k - 1;
      SessionsAreExact(states, acts, n, session);
      assert StepAt(states, acts, n);
      SessionsAfter(states[n], acts[n]);
      if i :| RegisteredSince(states, acts, i, n, session) {
        assert !acts[n].Forget? ==> RegisteredSince(states, acts, i, k, session);
      }
      if i :| RegisteredSince(states, acts, i, k, session) {
        assert i < n ==> RegisteredSince(states, acts, i, n, session);
      }
      assert RegistersAt(states, acts, n, session) ==> RegisteredSince(states, acts, n, k, session);
    }
  }

  lemma {:induction false} RecordedInEmpty(d: Disk, e: Event, now: nat, tag: nat)
    requires d.segments == [] && d.database == 0 && Admits(d, d.epoch, e) && e.size <= RECORD_BYTES
    ensures AfterRecord(d, d.epoch, e, now, tag) == (d.(segments := [Segment(now, tag, [e])]), Recorded)
  {
    var p, s := AfterPrune(d, e.size, now), Segment(now, tag, [e]);
    assert p == d;
    assert Bytes(p.segments) == 0;
    assert Insert([], s) == [s];
    assert Appended(p.segments, e, now, tag) == [s];
  }

  lemma {:induction false} KeepsAll(d: Disk, now: nat)
    ensures AfterForget(d, now, 0) == d.(epoch := d.epoch + 1, forgotten := now, sessions := {}, evicted := 0)
  {
    assert d.segments[0..] == d.segments;
  }

  /** The clock condition is needed: for every event created between two clock readings,
      a cut-short `forget` at the later reading followed by one at the earlier reading
      brings the event back. */
  lemma {:induction false} BackwardClockRevives(e: Event, late: nat, early: nat, w: nat, now: nat, tag: nat)
    returns (states: seq<State>, acts: seq<Action>)
    requires early < e.created <= late && e.session.None? && e.size <= RECORD_BYTES
    ensures Run(states, acts) && |acts| == 4 && acts[2] == Forget(late, 0) && acts[3] == Forget(early, 0)
    ensures Audited(states[4].disk, e, e.timestamp, None)
  {
    acts := [Open(w), Record(w, e, now, tag), Forget(late, 0), Forget(early, 0)];
    var d := INIT.disk;
    RecordedInEmpty(d, e, now, tag);
    var d2 := d.(segments := [Segment(now, tag, [e])]);
    KeepsAll(d2, late);
    var d3 := AfterForget(d2, late, 0);
    KeepsAll(d3, early);
    var d4 := AfterForget(d3, early, 0);
    var ws: map<nat, nat> := map[w := d.epoch];
    states := [INIT, State(d, ws), State(d2, ws), State(d3, ws), State(d4, ws)];
    assert StepAt(states, acts, 0) && StepAt(states, acts, 1) && StepAt(states, acts, 2) && StepAt(states, acts, 3);
    assert e in d4.segments[0].events;
  }
}
