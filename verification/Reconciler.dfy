/** Scheduling of reconciliation on the maintenance thread
    (src/daemon/reconciler.rs). Times are milliseconds of a monotonic clock. */
module Reconciler {
  import opened Basics

  const RECONCILE_INTERVAL: nat := 30_000
  const WATCHED_RECONCILE_INTERVAL: nat := 300_000
  const DEBOUNCE: nat := 75
  const MAX_DEBOUNCE: nat := 1_000

  // ------------------------------------------------------------ the schedule

  datatype Plan = Plan(interval: nat, last: int, first: Option<int>, latest: Option<int>)

  /** `duration_since`, zero for an earlier instant. */
  function Since(now: int, earlier: int): nat {
    if now >= earlier then now - earlier else 0
  }

  function Noted(p: Plan, now: int, changed: bool): Plan {
    if changed then p.(first := Some(if p.first.Some? then p.first.value else now), latest := Some(now)) else p
  }

  predicate Due(p: Plan, now: int) {
    || Since(now, p.last) >= p.interval
    || (p.latest.Some? && Since(now, p.latest.value) >= DEBOUNCE)
    || (p.first.Some? && Since(now, p.first.value) >= MAX_DEBOUNCE)
  }

  class Schedule {
    const interval: nat
    var last: int
    var first: Option<int>
    var latest: Option<int>

    ghost function View(): Plan
      reads this
    {
      Plan(interval, last, first, latest)
    }

    constructor (now: int, interval: nat)
      ensures View() == Plan(interval, now, None, None)
    {
      this.interval, last, first, latest := interval, now, None, None;
    }

    method CheckDue(now: int, changed: bool) returns (due: bool)
      modifies this
      ensures View() == Noted(old(View()), now, changed) && due == Due(View(), now)
    {
      if changed {
        if first.None? {
          first := Some(now);
        }
        latest := Some(now);
      }
      due := Since(now, last) >= interval;
      if !due && latest.Some? {
        due := Since(now, latest.value) >= DEBOUNCE;
      }
      if !due && first.Some? {
        due := Since(now, first.value) >= MAX_DEBOUNCE;
      }
    }

    method Completed(now: int)
      modifies this
      ensures View() == Plan(interval, now, None, None)
    {
      last, first, latest := now, None, None;
    }
  }

  // ------------------------------------------------------------ the thread

  /** Where the maintenance thread stands. The clock is read before the flag is taken. */
  datatype Pc =
    | Opening
    | FirstScan
    | LoopTop
    | Clocked(now: int)
    | Deciding
    | Scanning
    | Resting
    | Ended

  datatype State = State(pc: Pc, dirty: bool, plan: Plan, time: int, stopping: bool)

  datatype Action =
    | Change                 // the watcher sets the dirty flag
    | Advance(to: int)       // time passes
    | Stop                   // another thread asks the server to stop
    | StartFirst
    | FirstDone(interval: nat)
    | ReadClock
    | TakeFlag               // swap the flag and consult the schedule
    | StartScan
    | ScanDone               // successful or failed, the schedule is completed
    | Rest                   // spool, idle work and the pause
    | Leave                  // a panic, a failed first scan, a vanished root or a stop

  const INIT: State := State(Opening, false, Plan(RECONCILE_INTERVAL, 0, None, None), 0, false)

  function Take(s: State): State
    requires s.pc.Clocked?
  {
    var plan := Noted(s.plan, s.pc.now, s.dirty);
    s.(dirty := false, plan := plan, pc := if Due(plan, s.pc.now) then Deciding else Resting)
  }

  function Next(s: State, a: Action): Option<State> {
    match a
    case Change => Some(s.(dirty := true))
    case Advance(t) => if t >= s.time then Some(s.(time := t)) else None
    case Stop => Some(s.(stopping := true))
    case StartFirst => if s.pc.Opening? then Some(s.(pc := FirstScan)) else None
    case FirstDone(i) =>
      if s.pc.FirstScan? && (i == RECONCILE_INTERVAL || i == WATCHED_RECONCILE_INTERVAL)
      then Some(s.(pc := LoopTop, plan := Plan(i, s.time, None, None))) else None
    case ReadClock => if s.pc.LoopTop? && !s.stopping then Some(s.(pc := Clocked(s.time))) else None
    case TakeFlag => if s.pc.Clocked? then Some(Take(s)) else None
    case StartScan => if s.pc.Deciding? then Some(s.(pc := Scanning)) else None
    case ScanDone =>
      if s.pc.Scanning? then Some(s.(pc := Resting, plan := Plan(s.plan.interval, s.time, None, None))) else None
    case Rest => if s.pc.Resting? then Some(s.(pc := LoopTop)) else None
    case Leave =>
      if s.pc.Ended? || s.pc.Clocked? || s.pc.Opening? || (s.pc.LoopTop? && !s.stopping) then None
      else Some(s.(pc := Ended))
  }

  ghost predicate StepAt(states: seq<State>, acts: seq<Action>, i: int)
    requires |states| == |acts| + 1
  {
    0 <= i < |acts| && Next(states[i], acts[i]) == Some(states[i + 1])
  }

  ghost predicate Run(states: seq<State>, acts: seq<Action>) {
    && |states| == |acts| + 1 && states[0] == INIT
    && forall i :: 0 <= i < |acts| ==> StepAt(states, acts, i)
  }

  // ------------------------------------------------------------ invariant

  ghost predicate Timely(p: Plan, now: int) {
    && p.last <= now && p.first.Some? == p.latest.Some? && p.interval >= RECONCILE_INTERVAL
    && (p.first.Some? ==> p.last <= p.first.value <= p.latest.value <= now)
  }

  ghost predicate Inv(s: State) {
    && Timely(s.plan, s.time)
    && (s.pc.Clocked? ==> Timely(s.plan, s.pc.now) && s.pc.now <= s.time)
  }

  lemma {:induction false} InvStep(s: State, a: Action)
    requires Inv(s) && Next(s, a).Some?
    ensures Inv(Next(s, a).value)
  {
  }

  lemma {:induction false} InvAlways(states: seq<State>, acts: seq<Action>, i: nat)
    requires Run(states, acts) && i < |states|
    ensures Inv(states[i])
  {
    if i > 0 {
      InvAlways(states, acts, i - 1);
      assert StepAt(states, acts, i - 1);
      InvStep(states[i - 1], acts[i - 1]);
    }
  }

  // ------------------------------------------------------------ no change is lost

  /** The thread took the flag at step `i`, having read the clock as `now`. */
  ghost predicate TakesAt(states: seq<State>, acts: seq<Action>, i: int, now: int)
    requires |states| == |acts| + 1
  {
    0 <= i < |acts| && acts[i].TakeFlag? && states[i].pc == Clocked(now)
  }

  /** At step `i` the thread decided to reconcile. */
  ghost predicate DecidesAt(states: seq<State>, acts: seq<Action>, i: int)
    requires |states| == |acts| + 1
  {
    0 <= i < |acts| && acts[i].TakeFlag? && states[i + 1].pc.Deciding?
  }

  /** No decision strictly between two steps. */
  ghost predicate NoDecision(states: seq<State>, acts: seq<Action>, from: int, to: int)
    requires |states| == |acts| + 1
  {
    forall m :: from < m < to ==> !DecidesAt(states, acts, m)
  }

  ghost predicate Calm(pc: Pc) {
    pc.LoopTop? || pc.Clocked? || pc.Resting? || pc.Ended?
  }

  /** A change is still owed a scan: flagged, or noted by the schedule. */
  ghost predicate Owed(s: State) {
    s.dirty || (s.plan.first.Some? && Calm(s.pc))
  }

  /** The schedule noted a change no later than `now`. */
  ghost predicate Noticed(s: State, now: int) {
    s.plan.first.Some? && s.plan.first.value <= now && Calm(s.pc)
  }

  ghost predicate Decides(s: State, a: Action) {
    a.TakeFlag? && s.pc.Clocked? && Take(s).pc.Deciding?
  }

  lemma {:induction false} OwedStep(s: State, a: Action)
    requires Owed(s) && Next(s, a).Some? && !Decides(s, a)
    ensures Owed(Next(s, a).value)
  {
  }

  lemma {:induction false} NoticedStep(s: State, a: Action, now: int)
    requires Noticed(s, now) && Next(s, a).Some? && !Decides(s, a)
    ensures Noticed(Next(s, a).value, now)
  {
  }

  lemma {:induction false} OwedUntilDecision(states: seq<State>, acts: seq<Action>, e: nat, i: nat)
    requires Run(states, acts) && e < i < |states| && acts[e].Change?
    requires NoDecision(states, acts, e, i)
    ensures Owed(states[i])
  {
    assert StepAt(states, acts, i - 1);
    if i > e + 1 {
      OwedUntilDecision(states, acts, e, i - 1);
      assert !DecidesAt(states, acts, i - 1);
      OwedStep(states[i - 1], acts[i - 1]);
    }
  }

  lemma {:induction false} NoticedUntilDecision(states: seq<State>, acts: seq<Action>, j: nat, i: nat, now: int)
    requires Run(states, acts) && j < i < |states| && TakesAt(states, acts, j, now)
    requires Owed(states[j]) && NoDecision(states, acts, j - 1, i)
    ensures Noticed(states[i], now)
  {
    assert StepAt(states, acts, i - 1);
    assert !DecidesAt(states, acts, i - 1);
    if i == j + 1 {
      InvAlways(states, acts, j);
    } else {
      NoticedUntilDecision(states, acts, j, i - 1, now);
      NoticedStep(states[i - 1], acts[i - 1], now);
    }
  }

  /** No change is lost: once the thread has consulted the schedule after a change, a
      consultation at least `MAX_DEBOUNCE` later (by the clock readings) comes with or
      after a decision to reconcile, whatever else happens in between. */
  lemma {:induction false} ChangeIsReconciled(
    states: seq<State>, acts: seq<Action>, e: nat, j: nat, k: nat, seen: int, now: int) returns (m: nat)
    requires Run(states, acts) && e < j < k < |acts| && acts[e].Change?
    requires TakesAt(states, acts, j, seen) && TakesAt(states, acts, k, now)
    requires now >= seen + MAX_DEBOUNCE
    ensures e < m <= k && DecidesAt(states, acts, m)
  {
    if !NoDecision(states, acts, e, k) {
      m :| e < m < k && DecidesAt(states, acts, m);
    } else {
      m := k;
      OwedUntilDecision(states, acts, e, j);
      NoticedUntilDecision(states, acts, j, k, seen);
      assert StepAt(states, acts, k);
    }
  }

  /** A quiet tree is scanned sooner: a consultation that finds the flag clear, at least
      `DEBOUNCE` after the last one that found it set, comes with or after a decision. */
  lemma {:induction false} QuietIsReconciled(
    states: seq<State>, acts: seq<Action>, e: nat, j: nat, k: nat, seen: int, now: int) returns (m: nat)
    requires Run(states, acts) && e < j < k < |acts| && acts[e].Change?
    requires TakesAt(states, acts, j, seen) && TakesAt(states, acts, k, now)
    requires forall i, t :: j < i <= k && TakesAt(states, acts, i, t) ==> !states[i].dirty
    requires now >= seen + DEBOUNCE
    ensures e < m <= k && DecidesAt(states, acts, m)
  {
    if !NoDecision(states, acts, e, k) {
      m :| e < m < k && DecidesAt(states, acts, m);
    } else {
      m := k;
      OwedUntilDecision(states, acts, e, j);
      QuietSince(states, acts, j, k, seen);
      assert StepAt(states, acts, k);
    }
  }

  lemma {:induction false} QuietSince(states: seq<State>, acts: seq<Action>, j: nat, i: nat, seen: int)
    requires Run(states, acts) && j < i < |states| && TakesAt(states, acts, j, seen)
    requires Owed(states[j]) && NoDecision(states, acts, j - 1, i)
    requires forall k, t :: j < k < i && TakesAt(states, acts, k, t) ==> !states[k].dirty
    ensures states[i].plan.latest.Some? && states[i].plan.latest.value <= seen && Calm(states[i].pc)
  {
    assert StepAt(states, acts, i - 1);
    assert !DecidesAt(states, acts, i - 1);
    InvAlways(states, acts, i - 1);
    if i > j + 1 {
      QuietSince(states, acts, j, i - 1, seen);
      if acts[i - 1].TakeFlag? {
        assert TakesAt(states, acts, i - 1, states[i - 1].pc.now);
      }
    }
  }

  /** A decision is acted on: the thread does nothing else before it starts the scan or
      leaves because the root is gone. */
  lemma {:induction false} DecisionIsActedOn(states: seq<State>, acts: seq<Action>, m: nat, i: nat)
    requires Run(states, acts) && m < i < |states| && DecidesAt(states, acts, m)
    requires forall n :: m < n < i ==> !acts[n].StartScan? && !acts[n].Leave?
    ensures states[i].pc.Deciding?
  {
    if i > m + 1 {
      DecisionIsActedOn(states, acts, m, i - 1);
      assert StepAt(states, acts, i - 1);
    }
  }

  lemma {:induction false} EndedStays(states: seq<State>, acts: seq<Action>, n: nat, i: nat)
    requires Run(states, acts) && n < i < |states| && acts[n].Leave?
    ensures states[i].pc.Ended?
  {
    assert StepAt(states, acts, i - 1);
    if i > n + 1 {
      EndedStays(states, acts, n, i - 1);
    }
  }

  /** A change is scanned: after the consultation that `ChangeIsReconciled` speaks of, a thread
      that has not left and is not just about to scan has started a scan since the change. In
      particular it has by its next consultation. */
  lemma {:induction false} ChangeIsScanned(
    states: seq<State>, acts: seq<Action>, e: nat, j: nat, k: nat, i: nat, seen: int, now: int) returns (n: nat)
    requires Run(states, acts) && e < j < k < i < |states| && acts[e].Change?
    requires TakesAt(states, acts, j, seen) && TakesAt(states, acts, k, now)
    requires now >= seen + MAX_DEBOUNCE
    requires !states[i].pc.Deciding? && !states[i].pc.Ended?
    ensures e < n < i && acts[n].StartScan?
  {
    var m := ChangeIsReconciled(states, acts, e, j, k, seen, now);
    if n0: nat :| m < n0 < i && acts[n0].Leave? {
      EndedStays(states, acts, n0, i);
    }
    if forall n0 :: m < n0 < i ==> !acts[n0].StartScan? {
      DecisionIsActedOn(states, acts, m, i);
    }
    n :| m < n < i && acts[n].StartScan?;
  }

  // ------------------------------------------------------------ no needless scan

  /** A decision comes at least `DEBOUNCE` after every earlier completed scan. */
  lemma {:induction false} ScansAreSpaced(states: seq<State>, acts: seq<Action>, i: nat, k: nat, now: int)
    requires Run(states, acts) && i < k < |acts| && (acts[i].ScanDone? || acts[i].FirstDone?)
    requires TakesAt(states, acts, k, now) && DecidesAt(states, acts, k)
    ensures now >= states[i].time + DEBOUNCE
  {
    assert StepAt(states, acts, i) && StepAt(states, acts, k);
    LastNotBefore(states, acts, i + 1, k);
    InvAlways(states, acts, k);
  }

  lemma {:induction false} LastNotBefore(states: seq<State>, acts: seq<Action>, i: nat, k: nat)
    requires Run(states, acts) && i <= k < |states| && !states[i].pc.Opening? && !states[i].pc.FirstScan?
    ensures states[i].plan.last <= states[k].plan.last && !states[k].pc.Opening? && !states[k].pc.FirstScan?
  {
    if i < k {
      LastNotBefore(states, acts, i, k - 1);
      assert StepAt(states, acts, k - 1);
      InvAlways(states, acts, k - 1);
    }
  }

  /** Every `interval` without a completed scan makes the next consultation decide. */
  lemma {:induction false} PeriodicRecovery(states: seq<State>, acts: seq<Action>, i: nat, k: nat, now: int)
    requires Run(states, acts) && i <= k < |acts| && TakesAt(states, acts, k, now)
    requires forall m :: i <= m < k ==> !acts[m].ScanDone? && !acts[m].FirstDone?
    requires now >= states[i].time + states[k].plan.interval
    ensures DecidesAt(states, acts, k)
  {
    SamePlanLast(states, acts, i, k);
    InvAlways(states, acts, i);
    assert StepAt(states, acts, k);
  }

  lemma {:induction false} SamePlanLast(states: seq<State>, acts: seq<Action>, i: nat, k: nat)
    requires Run(states, acts) && i <= k < |states|
    requires forall m :: i <= m < k ==> !acts[m].ScanDone? && !acts[m].FirstDone?
    ensures states[i].plan.last == states[k].plan.last
  {
    if i < k {
      SamePlanLast(states, acts, i, k - 1);
      assert StepAt(states, acts, k - 1);
    }
  }

  /** Without any change since a completed scan, a decision waits the whole interval. */
  lemma {:induction false} NoChangeNoScan(states: seq<State>, acts: seq<Action>, i: nat, k: nat, now: int)
    requires Run(states, acts) && i < k < |acts| && (acts[i].ScanDone? || acts[i].FirstDone?)
    requires !states[i].dirty && (forall m :: i <= m < k ==> !acts[m].Change?)
    requires TakesAt(states, acts, k, now) && DecidesAt(states, acts, k)
    ensures now >= states[i].time + states[k].plan.interval
  {
    assert StepAt(states, acts, i) && StepAt(states, acts, k);
    StaysQuiet(states, acts, i + 1, k);
    LastNotBefore(states, acts, i + 1, k);
    InvAlways(states, acts, k);
  }

  lemma {:induction false} StaysQuiet(states: seq<State>, acts: seq<Action>, i: nat, k: nat)
    requires Run(states, acts) && i <= k < |states| && !states[i].dirty && states[i].plan.first.None?
    requires states[i].plan.latest.None? && forall m :: i <= m < k ==> !acts[m].Change?
    ensures !states[k].dirty && states[k].plan.first.None? && states[k].plan.latest.None?
  {
    if i < k {
      StaysQuiet(states, acts, i, k - 1);
      assert StepAt(states, acts, k - 1);
    }
  }
}
