/** What an audit makes of the journal's records (src/diagnostics/audit.rs): which events
    count, the evidence kept per request, and the delivery tallies. */
module Audit {
  import opened Basics
  import Journal
  import ReadRecord

  const MAX_REQUESTS: nat := 10_000
  const MAX_RETAINED: nat := 32 * 1024 * 1024

  datatype Stage = Server | Delivery | Maintenance

  datatype Receipt = Receipt(tokens: nat, prepared: nat, accepted: nat, complete: bool)

  datatype Event = Event(
    base: Journal.Event,
    request: nat,
    stage: Stage,
    truncated: bool,
    residency: bool,
    receipt: Option<Receipt>,
    stderr: nat,
    emitted: seq<bool>) // for each emitted identity, whether it showed a source body

  /** How a record's bytes parse. */
  type Parser = seq<Byte> -> Option<Event>

  datatype Evidence = Evidence(server: bool, delivery: Option<Event>)

  datatype Filter = Filter(now: nat, forgotten: nat, session: Option<nat>)

  datatype Tally = Tally(
    requests: map<nat, Evidence>,
    malformed: nat,
    truncated: nat,
    capped: bool,
    residency: nat,
    retained: nat)

  const START: Tally := Tally(map[], 0, 0, false, 0, 0)

  predicate Counts(e: Event, f: Filter) {
    Journal.Counts(f.forgotten, e.base, f.now, f.session)
  }

  function Known(requests: map<nat, Evidence>, id: nat): Evidence {
    if id in requests then requests[id] else Evidence(false, None)
  }

  function Noted(old_: Evidence, e: Event): Evidence {
    match e.stage
    case Server => old_.(server := true)
    case Delivery => old_.(delivery := Some(e))
    case Maintenance => old_
  }

  /** One counted event of length `size`. */
  function AddEvent(t: Tally, e: Event, size: nat): Tally {
    var t := if e.truncated then t.(truncated := t.truncated + 1) else t;
    if e.stage.Maintenance? then (if e.residency then t.(residency := t.residency + 1) else t)
    else if (|t.requests| >= MAX_REQUESTS || t.retained + size > MAX_RETAINED) && e.request !in t.requests then
      t.(capped := true)
    else
      t.(retained := t.retained + size, requests := t.requests[e.request := Noted(Known(t.requests, e.request), e)])
  }

  function AddRecord(t: Tally, r: ReadRecord.Record, f: Filter, parse: Parser): Tally {
    match r
    case Oversized => t.(malformed := t.malformed + 1)
    case Text(bytes) =>
      if bytes == [] then t
      else
        var e := parse(bytes);
        if e.None? then t.(malformed := t.malformed + 1)
        else if !Counts(e.value, f) then t
        else AddEvent(t, e.value, |bytes|)
  }

  function TallyAll(records: seq<ReadRecord.Record>, f: Filter, parse: Parser): Tally {
    if records == [] then START
    else AddRecord(TallyAll(records[..|records| - 1], f, parse), records[|records| - 1], f, parse)
  }

  /** The loop over the records of all segments. */
  method Run(records: seq<ReadRecord.Record>, f: Filter, parse: Parser) returns (t: Tally)
    ensures t == TallyAll(records, f, parse)
  {
    var requests: map<nat, Evidence>, capped := map[], false;
    var malformed: nat, truncated: nat, residency: nat, retained: nat := 0, 0, 0, 0;
    assert records[..0] == [];
    for i := 0 to |records|
      invariant Tally(requests, malformed, truncated, capped, residency, retained) == TallyAll(records[..i], f, parse)
    {
      assert records[..i + 1][..i] == records[..i];
      if records[i].Oversized? {
        malformed := malformed + 1;
        continue;
      }
      var line := records[i].bytes;
      if line == [] {
        continue;
      }
      var parsed := parse(line);
      if parsed.None? {
        malformed := malformed + 1;
        continue;
      }
      var e := parsed.value;
      if !Counts(e, f) {
        continue;
      }
      if e.truncated {
        truncated := truncated + 1;
      }
      if e.stage.Maintenance? {
        residency := residency + if e.residency then 1 else 0;
        continue;
      }
      if (|requests| >= MAX_REQUESTS || retained + |line| > MAX_RETAINED) && e.request !in requests {
        capped := true;
        continue;
      }
      retained := retained + |line|;
      requests := requests[e.request := Noted(Known(requests, e.request), e)];
    }
    assert records[..|records|] == records;
    t := Tally(requests, malformed, truncated, capped, residency, retained);
  }

  // ------------------------------------------------------------ what the evidence means

  /** The event a record contributes, if it parses and counts. */
  function Counted(r: ReadRecord.Record, f: Filter, parse: Parser): Option<Event> {
    if r.Oversized? || r.bytes == [] then None
    else
      var e := parse(r.bytes);
      if e.Some? && Counts(e.value, f) then e else None
  }

  /** The counted events, in order. */
  function Events(records: seq<ReadRecord.Record>, f: Filter, parse: Parser): seq<Event> {
    if records == [] then []
    else
      var n := |records| - 1;
      var front, e := Events(records[..n], f, parse), Counted(records[n], f, parse);
      if e.None? then front else front + [e.value]
  }

  /** Some counted event of this request reached the stage. */
  ghost predicate Reached(events: seq<Event>, id: nat, stage: Stage) {
    exists i :: 0 <= i < |events| && events[i].request == id && events[i].stage == stage
  }

  /** The request's last delivery event. */
  function LastDelivery(events: seq<Event>, id: nat): Option<Event> {
    if events == [] then None
    else
      var n := |events| - 1;
      if events[n].request == id && events[n].stage.Delivery? then Some(events[n]) else LastDelivery(events[..n], id)
  }

  /** The evidence of a request is exactly what its counted events say. */
  ghost predicate Exact(requests: map<nat, Evidence>, events: seq<Event>, id: nat) {
    && (id in requests <==> Reached(events, id, Server) || Reached(events, id, Delivery))
    && (id in requests ==> requests[id].server == Reached(events, id, Server))
    && (id in requests ==> requests[id].delivery == LastDelivery(events, id))
  }

  lemma {:induction false} ReachedOneMore(events: seq<Event>, e: Event, id: nat, stage: Stage)
    ensures Reached(events + [e], id, stage) <==> Reached(events, id, stage) || (e.request == id && e.stage == stage)
  {
    var all := events + [e];
    if Reached(events, id, stage) {
      var i :| 0 <= i < |events| && events[i].request == id && events[i].stage == stage;
      assert all[i] == events[i];
    }
    assert all[|events|] == e;
  }

  lemma {:induction false} NoDelivery(events: seq<Event>, id: nat)
    ensures LastDelivery(events, id).Some? <==> Reached(events, id, Delivery)
  {
    if events != [] {
      var n := |events| - 1;
      NoDelivery(events[..n], id);
      ReachedOneMore(events[..n], events[n], id, Delivery);
      assert events == events[..n] + [events[n]];
    }
  }

  lemma {:induction false} ExactOneMore(t: Tally, events: seq<Event>, e: Event, size: nat, id: nat)
    requires Exact(t.requests, events, id) && Exact(t.requests, events, e.request) && !AddEvent(t, e, size).capped
    ensures Exact(AddEvent(t, e, size).requests, events + [e], id)
  {
    ReachedOneMore(events, e, id, Server);
    ReachedOneMore(events, e, id, Delivery);
    NoDelivery(events, id);
    LastOneMore(events, e, id);
    ExactEntry(t, e, size, id);
  }

  lemma {:induction false} LastOneMore(events: seq<Event>, e: Event, id: nat)
    ensures LastDelivery(events + [e], id) == if e.request == id && e.stage.Delivery? then Some(e) else LastDelivery(events, id)
  {
    assert (events + [e])[..|events|] == events;
  }

  /** What an event that is taken does to the entry of a request. */
  lemma {:induction false} ExactEntry(t: Tally, e: Event, size: nat, id: nat)
    requires !AddEvent(t, e, size).capped
    ensures var m, m' := t.requests, AddEvent(t, e, size).requests;
            if e.request != id || e.stage.Maintenance? then (id in m' <==> id in m) && (id in m ==> m'[id] == m[id])
            else id in m' && m'[id] == Noted(Known(m, id), e)
  {
  }

  lemma {:induction false} ExactUnlessCapped(records: seq<ReadRecord.Record>, f: Filter, parse: Parser, id: nat)
    requires !TallyAll(records, f, parse).capped
    ensures Exact(TallyAll(records, f, parse).requests, Events(records, f, parse), id)
  {
    if records != [] {
      var n := |records| - 1;
      var t, e := TallyAll(records[..n], f, parse), Counted(records[n], f, parse);
      ExactUnlessCapped(records[..n], f, parse, id);
      if e.Some? {
        ExactUnlessCapped(records[..n], f, parse, e.value.request);
        ExactOneMore(t, Events(records[..n], f, parse), e.value, |records[n].bytes|, id);
      }
    }
  }

  // ------------------------------------------------------------ when the limits are met

  /** The request a record gives evidence of. */
  function Mentioned(r: ReadRecord.Record, f: Filter, parse: Parser): Option<nat> {
    var e := Counted(r, f, parse);
    if e.Some? && !e.value.stage.Maintenance? then Some(e.value.request) else None
  }

  /** The requests the records give evidence of. */
  function Mentions(records: seq<ReadRecord.Record>, f: Filter, parse: Parser): set<nat> {
    if records == [] then {}
    else
      var n := |records| - 1;
      var front, id := Mentions(records[..n], f, parse), Mentioned(records[n], f, parse);
      if id.None? then front else front + {id.value}
  }

  /** The bytes of the records that give evidence of some request. */
  function Weight(records: seq<ReadRecord.Record>, f: Filter, parse: Parser): nat {
    if records == [] then 0
    else
      var n := |records| - 1;
      Weight(records[..n], f, parse) + if Mentioned(records[n], f, parse).Some? then |records[n].bytes| else 0
  }

  /** If the last record is the first to mention its request, everything up to it is within
      the limits. */
  predicate Room(records: seq<ReadRecord.Record>, f: Filter, parse: Parser)
    requires records != []
  {
    var n := |records| - 1;
    var id := Mentioned(records[n], f, parse);
    id.Some? && id.value !in Mentions(records[..n], f, parse) ==>
      |Mentions(records, f, parse)| <= MAX_REQUESTS && Weight(records, f, parse) <= MAX_RETAINED
  }

  /** Every request is first mentioned within the limits. */
  ghost predicate Fits(records: seq<ReadRecord.Record>, f: Filter, parse: Parser) {
    forall n :: 0 < n <= |records| ==> Room(records[..n], f, parse)
  }

  lemma {:induction false} FitsOneMore(records: seq<ReadRecord.Record>, f: Filter, parse: Parser)
    requires records != []
    ensures Fits(records, f, parse) <==> Fits(records[..|records| - 1], f, parse) && Room(records, f, parse)
  {
    var front := records[..|records| - 1];
    forall n | 0 < n <= |front| ensures front[..n] == records[..n] {
    }
    assert records[..|records|] == records;
  }

  lemma {:induction false} AddEventKept(t: Tally, e: Event, size: nat)
    requires !e.stage.Maintenance?
    ensures var t' := AddEvent(t, e, size);
            if (|t.requests| >= MAX_REQUESTS || t.retained + size > MAX_RETAINED) && e.request !in t.requests then
              t'.requests == t.requests && t'.retained == t.retained && t'.capped
            else
              && t'.requests.Keys == t.requests.Keys + {e.request}
              && t'.retained == t.retained + size && t'.capped == t.capped
  {
  }

  lemma {:induction false} AddRecordKept(t: Tally, r: ReadRecord.Record, f: Filter, parse: Parser)
    requires Mentioned(r, f, parse).None?
    ensures var t' := AddRecord(t, r, f, parse);
            t'.requests == t.requests && t'.retained == t.retained && t'.capped == t.capped
  {
  }

  /** The audit is capped exactly when some request is first mentioned beyond the limits;
      otherwise it keeps every mentioned request. */
  lemma {:induction false} CappedBeyondLimits(records: seq<ReadRecord.Record>, f: Filter, parse: Parser)
    ensures var t := TallyAll(records, f, parse);
            && (t.capped <==> !Fits(records, f, parse))
            && (!t.capped ==>
                  t.requests.Keys == Mentions(records, f, parse) && t.retained == Weight(records, f, parse))
  {
    if records != [] {
      var n := |records| - 1;
      var t, r := TallyAll(records[..n], f, parse), records[n];
      CappedBeyondLimits(records[..n], f, parse);
      FitsOneMore(records, f, parse);
      if Mentioned(r, f, parse).None? {
        AddRecordKept(t, r, f, parse);
      } else {
        AddEventKept(t, Counted(r, f, parse).value, |r.bytes|);
      }
      assert |t.requests| == |t.requests.Keys|;
    }
  }

  lemma {:induction false} PrefixMentionsLess(records: seq<ReadRecord.Record>, f: Filter, parse: Parser, n: nat)
    requires n <= |records|
    ensures Mentions(records[..n], f, parse) <= Mentions(records, f, parse)
    ensures Weight(records[..n], f, parse) <= Weight(records, f, parse)
  {
    if n == |records| {
      assert records[..n] == records;
    } else {
      var front := records[..|records| - 1];
      assert front[..n] == records[..n];
      PrefixMentionsLess(front, f, parse, n);
    }
  }

  lemma {:induction false} FewerElements(a: set<nat>, b: set<nat>)
    requires a <= b
    ensures |a| <= |b|
  {
    assert b == a + (b - a);
  }

  /** Records within both limits fit. */
  lemma {:induction false} FewRecordsFit(records: seq<ReadRecord.Record>, f: Filter, parse: Parser)
    requires |Mentions(records, f, parse)| <= MAX_REQUESTS && Weight(records, f, parse) <= MAX_RETAINED
    ensures Fits(records, f, parse)
  {
    forall n | 0 < n <= |records| ensures Room(records[..n], f, parse) {
      PrefixMentionsLess(records, f, parse, n);
      FewerElements(Mentions(records[..n], f, parse), Mentions(records, f, parse));
    }
  }

  /** When every request is first mentioned within the limits, every request's evidence is
      exact: it has an entry when and only when some counted event mentions it, and its
      delivery is the last one. */
  lemma {:induction false} EvidenceIsExact(records: seq<ReadRecord.Record>, f: Filter, parse: Parser, id: nat)
    requires Fits(records, f, parse)
    ensures Exact(TallyAll(records, f, parse).requests, Events(records, f, parse), id)
  {
    CappedBeyondLimits(records, f, parse);
    ExactUnlessCapped(records, f, parse, id);
  }

  /** The limits are tight: a request first mentioned beyond them is reached by a counted event
      and has no entry. */
  lemma {:induction false} BeyondLimitsIsDropped(records: seq<ReadRecord.Record>, f: Filter, parse: Parser)
    requires records != [] && Fits(records[..|records| - 1], f, parse) && !Room(records, f, parse)
    ensures var id := Mentioned(records[|records| - 1], f, parse);
            && id.Some? && id.value !in TallyAll(records, f, parse).requests
            && (Reached(Events(records, f, parse), id.value, Server) || Reached(Events(records, f, parse), id.value, Delivery))
  {
    var n := |records| - 1;
    var front, e := records[..n], Counted(records[n], f, parse).value;
    CappedBeyondLimits(front, f, parse);
    AddEventKept(TallyAll(front, f, parse), e, |records[n].bytes|);
    assert |TallyAll(front, f, parse).requests| == |Mentions(front, f, parse)|;
    ReachedOneMore(Events(front, f, parse), e, e.request, Server);
    ReachedOneMore(Events(front, f, parse), e, e.request, Delivery);
  }

  /** The evidence of a kept request is true of its counted events, if perhaps not all of it. */
  ghost predicate True(v: Evidence, events: seq<Event>, id: nat) {
    && (v.server ==> Reached(events, id, Server))
    && (v.delivery.Some? ==> v.delivery == LastDelivery(events, id))
    && (v.server || v.delivery.Some?)
  }

  lemma {:induction false} TrueOneMore(v: Evidence, events: seq<Event>, e: Event, id: nat)
    requires True(v, events, id)
    ensures e.request == id && !e.stage.Maintenance? ==> True(Noted(v, e), events + [e], id)
    ensures e.request != id || e.stage.Maintenance? ==> True(v, events + [e], id)
  {
    ReachedOneMore(events, e, id, Server);
    assert (events + [e])[..|events|] == events;
  }

  lemma {:induction false} FirstIsTrue(events: seq<Event>, e: Event)
    requires !e.stage.Maintenance?
    ensures True(Noted(Evidence(false, None), e), events + [e], e.request)
  {
    ReachedOneMore(events, e, e.request, Server);
  }

  /** Capped or not, a kept request's evidence is true: its server event happened, and its
      delivery is the last one counted. */
  lemma {:induction false} KeptEvidenceIsTrue(records: seq<ReadRecord.Record>, f: Filter, parse: Parser, id: nat)
    requires id in TallyAll(records, f, parse).requests
    ensures True(TallyAll(records, f, parse).requests[id], Events(records, f, parse), id)
  {
    var n := |records| - 1;
    var t, events, e := TallyAll(records[..n], f, parse), Events(records[..n], f, parse), Counted(records[n], f, parse);
    if id in t.requests {
      KeptEvidenceIsTrue(records[..n], f, parse, id);
      if e.Some? {
        TrueOneMore(t.requests[id], events, e.value, id);
      }
    } else {
      FirstIsTrue(events, e.value);
    }
  }

  /** At most `MAX_REQUESTS` requests are kept. */
  lemma {:induction false} RequestsAreBounded(records: seq<ReadRecord.Record>, f: Filter, parse: Parser)
    ensures |TallyAll(records, f, parse).requests| <= MAX_REQUESTS
  {
    if records != [] {
      var n := |records| - 1;
      RequestsAreBounded(records[..n], f, parse);
      var t, e := TallyAll(records[..n], f, parse), Counted(records[n], f, parse);
      if e.Some? {
        EntryOneMore(t.requests, e.value.request, Noted(Known(t.requests, e.value.request), e.value));
      }
    }
  }

  lemma {:induction false} EntryOneMore(m: map<nat, Evidence>, k: nat, v: Evidence)
    ensures |m[k := v]| == |m| + if k in m then 0 else 1
  {
    assert m[k := v].Keys == m.Keys + {k};
    assert |m[k := v]| == |m[k := v].Keys| && |m| == |m.Keys|;
  }

  lemma {:induction false} LastDeliveryIsAnEvent(events: seq<Event>, id: nat)
    ensures var last := LastDelivery(events, id); last.Some? ==> last.value in events
  {
    if events != [] {
      LastDeliveryIsAnEvent(events[..|events| - 1], id);
    }
  }

  lemma {:induction false} EventsCount(records: seq<ReadRecord.Record>, f: Filter, parse: Parser)
    ensures forall e :: e in Events(records, f, parse) ==> Counts(e, f)
  {
    if records != [] {
      EventsCount(records[..|records| - 1], f, parse);
    }
  }

  /** Nothing forgotten is ever tallied: every piece of delivery evidence was created after
      the forgotten mark. */
  lemma {:induction false} ForgottenLeavesNoEvidence(records: seq<ReadRecord.Record>, f: Filter, parse: Parser, id: nat)
    requires id in TallyAll(records, f, parse).requests
    ensures var v := TallyAll(records, f, parse).requests[id];
            && (v.delivery.Some? ==> v.delivery.value.base.created > f.forgotten && Counts(v.delivery.value, f))
            && (v.delivery.None? ==> v.server)
  {
    var events := Events(records, f, parse);
    KeptEvidenceIsTrue(records, f, parse, id);
    LastDeliveryIsAnEvent(events, id);
    EventsCount(records, f, parse);
  }

  // ------------------------------------------------------------ counters

  datatype Counter = Malformed | Truncated | Residency

  /** The record is one that the counter counts: a line that is too long or does not parse, a
      counted event that was cut, or a counted maintenance event with a residency sample. */
  predicate Marks(what: Counter, r: ReadRecord.Record, f: Filter, parse: Parser) {
    match what
    case Malformed => r.Oversized? || (r.bytes != [] && parse(r.bytes).None?)
    case Truncated => IsCounted(r, f, parse) && parse(r.bytes).value.truncated
    case Residency => IsCounted(r, f, parse) && parse(r.bytes).value.stage.Maintenance? && parse(r.bytes).value.residency
  }

  predicate IsCounted(r: ReadRecord.Record, f: Filter, parse: Parser) {
    r.Text? && r.bytes != [] && parse(r.bytes).Some? && Counts(parse(r.bytes).value, f)
  }

  /** Which records the counter counts. */
  ghost function Marked(what: Counter, records: seq<ReadRecord.Record>, f: Filter, parse: Parser): set<int> {
    set i | 0 <= i < |records| && Marks(what, records[i], f, parse)
  }

  lemma {:induction false} MarkedOneMore(what: Counter, records: seq<ReadRecord.Record>, f: Filter, parse: Parser)
    requires records != []
    ensures var n := |records| - 1;
            |Marked(what, records, f, parse)|
              == |Marked(what, records[..n], f, parse)| + if Marks(what, records[n], f, parse) then 1 else 0
  {
    MarkedSet(what, records, f, parse);
    assert |records| - 1 !in Marked(what, records[..|records| - 1], f, parse);
  }

  lemma {:induction false} MarkedSet(what: Counter, records: seq<ReadRecord.Record>, f: Filter, parse: Parser)
    requires records != []
    ensures var n := |records| - 1;
            Marked(what, records, f, parse)
              == Marked(what, records[..n], f, parse) + if Marks(what, records[n], f, parse) then {n} else {}
  {
    var n := |records| - 1;
    forall i | 0 <= i < n
      ensures records[..n][i] == records[i]
    {
    }
  }

  lemma {:induction false} AddRecordCounts(t: Tally, r: ReadRecord.Record, f: Filter, parse: Parser)
    ensures var t' := AddRecord(t, r, f, parse);
            && t'.malformed == t.malformed + (if Marks(Malformed, r, f, parse) then 1 else 0)
            && t'.truncated == t.truncated + (if Marks(Truncated, r, f, parse) then 1 else 0)
            && t'.residency == t.residency + (if Marks(Residency, r, f, parse) then 1 else 0)
  {
  }

  /** The counters number exactly the records they stand for, capped or not. */
  lemma {:induction false} CountersAreExact(records: seq<ReadRecord.Record>, f: Filter, parse: Parser)
    ensures var t := TallyAll(records, f, parse);
            && t.malformed == |Marked(Malformed, records, f, parse)|
            && t.truncated == |Marked(Truncated, records, f, parse)|
            && t.residency == |Marked(Residency, records, f, parse)|
  {
    if records != [] {
      var n := |records| - 1;
      CountersAreExact(records[..n], f, parse);
      AddRecordCounts(TallyAll(records[..n], f, parse), records[n], f, parse);
      MarkedOneMore(Malformed, records, f, parse);
      MarkedOneMore(Truncated, records, f, parse);
      MarkedOneMore(Residency, records, f, parse);
    } else {
      assert Marked(Malformed, records, f, parse) == {};
      assert Marked(Truncated, records, f, parse) == {};
      assert Marked(Residency, records, f, parse) == {};
    }
  }

  // ------------------------------------------------------------ delivery tallies

  /** A request's delivery was received whole. */
  predicate Whole(v: Evidence) {
    && v.delivery.Some? && v.delivery.value.receipt.Some?
    && v.delivery.value.receipt.value.complete
    && v.delivery.value.receipt.value.accepted == v.delivery.value.receipt.value.prepared
  }

  function ReceiptOf(v: Evidence): Option<Receipt> {
    if v.delivery.Some? then v.delivery.value.receipt else None
  }

  /** How many of the flags equal `flag`. */
  function Count(flags: seq<bool>, flag: bool): nat {
    if flags == [] then 0 else Count(flags[..|flags| - 1], flag) + if flags[|flags| - 1] == flag then 1 else 0
  }

  /** What the deliveries of some requests come to. */
  datatype Totals = Totals(
    complete: nat, incomplete: nat, tokens: nat, stdout: nat, stderr: nat, sources: nat, metadata: nat)

  const NOTHING: Totals := Totals(0, 0, 0, 0, 0, 0, 0)

  function Plus(a: Totals, b: Totals): Totals {
    Totals(a.complete + b.complete, a.incomplete + b.incomplete, a.tokens + b.tokens, a.stdout + b.stdout,
           a.stderr + b.stderr, a.sources + b.sources, a.metadata + b.metadata)
  }

  /** One request's share: tokens and bytes from any receipt, identities only from a delivery
      that was received whole. */
  function Share(v: Evidence): Totals {
    var receipt := ReceiptOf(v);
    Totals(
      if Whole(v) then 1 else 0,
      if Whole(v) then 0 else 1,
      if receipt.Some? then receipt.value.tokens else 0,
      if receipt.Some? then receipt.value.accepted else 0,
      if v.delivery.Some? then v.delivery.value.stderr else 0,
      if Whole(v) then Count(v.delivery.value.emitted, true) else 0,
      if Whole(v) then Count(v.delivery.value.emitted, false) else 0)
  }

  /** The totals of a set of requests, in whatever order they are visited. */
  ghost function SumOf(requests: map<nat, Evidence>, ids: set<nat>): Totals
    requires ids <= requests.Keys
  {
    if ids == {} then NOTHING
    else var id :| id in ids; Plus(Share(requests[id]), SumOf(requests, ids - {id}))
  }

  lemma {:induction false} PlusSwaps(a: Totals, b: Totals, c: Totals)
    ensures Plus(a, Plus(b, c)) == Plus(b, Plus(a, c))
  {
  }

  lemma {:induction false} SumWithout(requests: map<nat, Evidence>, ids: set<nat>, id: nat)
    requires ids <= requests.Keys && id in ids
    ensures SumOf(requests, ids) == Plus(Share(requests[id]), SumOf(requests, ids - {id}))
    decreases |ids|
  {
    var first :| first in ids && SumOf(requests, ids) == Plus(Share(requests[first]), SumOf(requests, ids - {first}));
    if first != id {
      SumWithout(requests, ids - {first}, id);
      SumWithout(requests, ids - {id}, first);
      var rest := ids - {id} - {first};
      assert ids - {first} - {id} == rest;
      PlusSwaps(Share(requests[first]), Share(requests[id]), SumOf(requests, rest));
    }
  }

  ghost function WholeOf(requests: map<nat, Evidence>, ids: set<nat>): set<nat>
    requires ids <= requests.Keys
  {
    set id | id in ids && Whole(requests[id])
  }

  /** The totals count every request once, as whole or not. */
  lemma {:induction false} TotalsAddUp(requests: map<nat, Evidence>, ids: set<nat>)
    requires ids <= requests.Keys
    ensures SumOf(requests, ids).complete == |WholeOf(requests, ids)|
    ensures SumOf(requests, ids).complete + SumOf(requests, ids).incomplete == |ids|
    decreases |ids|
  {
    if ids == {} {
      assert WholeOf(requests, ids) == {};
    } else {
      var id :| id in ids;
      SumWithout(requests, ids, id);
      TotalsAddUp(requests, ids - {id});
      var all, few := WholeOf(requests, ids), WholeOf(requests, ids - {id});
      assert all == if Whole(requests[id]) then few + {id} else few;
    }
  }

  /** Where a flag occurs. */
  ghost function Occurs(flags: seq<bool>, flag: bool): set<int> {
    set i | 0 <= i < |flags| && flags[i] == flag
  }

  lemma {:induction false} CountIsCardinality(flags: seq<bool>, flag: bool)
    ensures Count(flags, flag) == |Occurs(flags, flag)|
  {
    if flags == [] {
      assert Occurs(flags, flag) == {};
    } else {
      var n := |flags| - 1;
      CountIsCardinality(flags[..n], flag);
      var few := Occurs(flags[..n], flag);
      assert Occurs(flags, flag) == if flags[n] == flag then few + {n} else few;
    }
  }

  /** One request's share in terms of its delivery alone; without one it is incomplete and adds
      nothing else. */
  lemma {:induction false} ShareOfDelivery(server: bool, e: Event)
    ensures var share, receipt := Share(Evidence(server, Some(e))), e.receipt;
            var whole := receipt.Some? && receipt.value.complete && receipt.value.accepted == receipt.value.prepared;
            && share.complete + share.incomplete == 1 && (share.complete == 1 <==> whole)
            && share.tokens == (if receipt.Some? then receipt.value.tokens else 0)
            && share.stdout == (if receipt.Some? then receipt.value.accepted else 0)
            && share.stderr == e.stderr
            && share.sources == (if whole then |set i | 0 <= i < |e.emitted| && e.emitted[i]| else 0)
            && share.metadata == (if whole then |set i | 0 <= i < |e.emitted| && !e.emitted[i]| else 0)
    ensures Share(Evidence(server, None)) == Totals(0, 1, 0, 0, 0, 0, 0)
  {
    CountIsCardinality(e.emitted, true);
    CountIsCardinality(e.emitted, false);
    assert Occurs(e.emitted, true) == set i | 0 <= i < |e.emitted| && e.emitted[i];
    assert Occurs(e.emitted, false) == set i | 0 <= i < |e.emitted| && !e.emitted[i];
  }

  /** Every emitted identity is counted once, as source or as metadata. */
  lemma {:induction false} CountsAddUp(flags: seq<bool>)
    ensures Count(flags, true) + Count(flags, false) == |flags|
  {
    if flags != [] {
      CountsAddUp(flags[..|flags| - 1]);
    }
  }

  /** `r` is the sum over the requests of `all` that are not among `left`. */
  ghost predicate Summed(requests: map<nat, Evidence>, all: set<nat>, left: set<nat>, r: Totals)
    requires left <= all <= requests.Keys
  {
    Plus(r, SumOf(requests, left)) == SumOf(requests, all)
  }

  lemma {:induction false} PlusNothing(a: Totals)
    ensures Plus(NOTHING, a) == a && Plus(a, NOTHING) == a
  {
  }

  lemma {:induction false} NothingSummed(requests: map<nat, Evidence>, all: set<nat>)
    requires all <= requests.Keys
    ensures Summed(requests, all, all, NOTHING)
  {
    PlusNothing(SumOf(requests, all));
  }

  lemma {:induction false} PlusJoins(a: Totals, b: Totals, c: Totals)
    ensures Plus(Plus(a, b), c) == Plus(a, Plus(b, c))
  {
  }

  lemma {:induction false} SummedOneMore(requests: map<nat, Evidence>, all: set<nat>, left: set<nat>, r: Totals, id: nat)
    requires left <= all <= requests.Keys && id in left && Summed(requests, all, left, r)
    ensures Summed(requests, all, left - {id}, Plus(r, Share(requests[id])))
  {
    SumWithout(requests, left, id);
    PlusJoins(r, Share(requests[id]), SumOf(requests, left - {id}));
  }

  lemma {:induction false} AllSummed(requests: map<nat, Evidence>, all: set<nat>, r: Totals)
    requires all <= requests.Keys && Summed(requests, all, {}, r)
    ensures r == SumOf(requests, all)
  {
    PlusNothing(r);
  }

  /** The second loop visits the requests in arbitrary order; its totals do not depend on it. */
  method Summarize(requests: map<nat, Evidence>) returns (r: Totals)
    ensures r == SumOf(requests, requests.Keys)
    ensures r.complete == |WholeOf(requests, requests.Keys)| && r.complete + r.incomplete == |requests|
  {
    r := SumEach(requests, requests.Keys);
    assert |requests| == |requests.Keys|;
  }

  method SumEach(requests: map<nat, Evidence>, all: set<nat>) returns (r: Totals)
    requires all <= requests.Keys
    ensures r == SumOf(requests, all)
    ensures r.complete == |WholeOf(requests, all)| && r.complete + r.incomplete == |all|
  {
    r := NOTHING;
    var left := all;
    NothingSummed(requests, all);
    while left != {}
      invariant left <= all && Summed(requests, all, left, r)
      decreases |left|
    {
      var id :| id in left;
      SummedOneMore(requests, all, left, r, id);
      r := AddDelivery(r, requests[id]);
      left := left - {id};
    }
    AllSummed(requests, all, r);
    TotalsAddUp(requests, all);
  }

  /** One pass of that loop. */
  method AddDelivery(r: Totals, v: Evidence) returns (r': Totals)
    ensures r' == Plus(r, Share(v))
  {
    r' := r;
    if v.delivery.Some? {
      r' := r'.(stderr := r'.stderr + v.delivery.value.stderr);
    }
    var receipt := ReceiptOf(v);
    if receipt.Some? {
      r' := r'.(tokens := r'.tokens + receipt.value.tokens, stdout := r'.stdout + receipt.value.accepted);
    }
    if !(receipt.Some? && receipt.value.complete && receipt.value.accepted == receipt.value.prepared) {
      return r'.(incomplete := r'.incomplete + 1);
    }
    r' := r'.(complete := r'.complete + 1);
    var emitted := v.delivery.value.emitted;
    ghost var sources, metadata := r'.sources, r'.metadata;
    for i := 0 to |emitted|
      invariant r' == Totals(r.complete + 1, r.incomplete, r.tokens + receipt.value.tokens, r.stdout + receipt.value.accepted,
                             r.stderr + v.delivery.value.stderr,
                             sources + Count(emitted[..i], true), metadata + Count(emitted[..i], false))
    {
      assert emitted[..i + 1][..i] == emitted[..i];
      if emitted[i] {
        r' := r'.(sources := r'.sources + 1);
      } else {
        r' := r'.(metadata := r'.metadata + 1);
      }
    }
    assert emitted[..|emitted|] == emitted;
  }
}
