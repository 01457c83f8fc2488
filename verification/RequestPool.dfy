/** The daemon's bounded worker pool (src/daemon/pool.rs) as a step system.

    Every atomic operation of the source is one step of one thread, so a run of
    this system is an interleaving of submitters, workers, shutdowns and drains.
    Threads are numbered; a thread that is in no pool operation is `Idle`. */
module RequestPool {

  type Thread = nat
  type Job = nat

  import opened Basics

  /** `submit`: before the sender mutex; holding it; past the flag test; past the
      increment of `pending`; past a `try_send` that found the queue full. */
  datatype SubmitStage = Called | Entered | Admitted | Charged | Bounced

  /** The worker loop while it owns no job. */
  datatype WorkerStage = Top | Waiting | Receiving | Exited

  /** A worker that took a job: still holding the receiver mutex; past releasing
      it; past reading the shutdown flag as true; past reading it as false but not
      yet calling the job; running it. */
  datatype WorkStage = Holding | Got | Discarding | Cleared | Running

  /** `shutdown`, statement by statement. */
  datatype ShutStage = Begun | Flagged | SenderHeld | Taken | ReceiverWanted | Draining | Dropped | Emptied

  datatype Pc =
    | Idle
    | Submitting(at: SubmitStage, offer: Job)
    | SubmitLeaving                       // releases the sender mutex and returns
    | Looping(loop: WorkerStage)
    | Working(work: WorkStage, job: Job)
    | WorkerOwing(exits: bool)            // the job ended, `pending` not yet decremented
    | Shutting(shut: ShutStage)
    | DrainPolling

  /** What has happened to jobs so far. */
  datatype Log = Log(accepted: set<Job>, started: set<Job>, finished: set<Job>, dropped: set<Job>)

  /** `returned` records that some shutdown has returned. */
  datatype State = State(
    capacity: nat,
    pending: int,
    shutting: bool,
    senderOpen: bool,
    senderLock: Option<Thread>,
    receiverLock: Option<Thread>,
    queue: seq<Job>,
    threads: map<Thread, Pc>,
    log: Log,
    returned: bool)

  datatype Action =
    | Submit(t: Thread, job: Job)
    | Shutdown(t: Thread)
    | Drain(t: Thread)
    | DrainTimesOut(t: Thread)
    | Advance(t: Thread)

  /** `RequestPool::new`: an empty queue, any number of workers and callers. */
  ghost predicate Init(s: State) {
    && s.pending == 0 && !s.shutting && s.senderOpen
    && s.senderLock == None && s.receiverLock == None && s.queue == []
    && (forall t <- s.threads :: s.threads[t] == Idle || s.threads[t] == Looping(Top))
    && s.log == Log({}, {}, {}, {})
    && !s.returned
  }

  /** A submitted job is a moved box: nobody else owns it and it was never accepted before. */
  ghost predicate Fresh(s: State, j: Job) {
    && j !in s.log.accepted
    && forall t <- s.threads :: s.threads[t].Submitting? ==> s.threads[t].offer != j
  }

  ghost predicate Enabled(s: State, a: Action) {
    && a.t in s.threads
    && var pc := s.threads[a.t];
    match a
    case Submit(_, j) => pc == Idle && Fresh(s, j)
    case Shutdown(_) => pc == Idle
    case Drain(_) => pc == Idle
    case DrainTimesOut(_) => pc == DrainPolling && s.pending > 0
    case Advance(_) => CanAdvance(s, pc)
  }

  /** Mutexes block, `recv` blocks on an empty connected queue, a poll of `drain` needs zero. */
  predicate CanAdvance(s: State, pc: Pc) {
    match pc
    case Idle => false
    case Submitting(at, _) => at == Called ==> s.senderLock == None
    case Looping(at) =>
      && at != Exited
      && (at == Waiting ==> s.receiverLock == None)
      && (at == Receiving ==> s.queue != [] || !s.senderOpen)
    case Shutting(at) =>
      && (at == Flagged ==> s.senderLock == None)
      && (at == ReceiverWanted ==> s.receiverLock == None)
    case DrainPolling => s.pending == 0
    case _ => true
  }

  /** The one effect on shared state that an atomic operation has. */
  datatype Effect =
    | Quiet
    | LockSender | UnlockSender | LockReceiver | UnlockReceiver
    | Charge | Refund            // pending.fetch_add(1), pending.fetch_sub(1)
    | Push(job: Job)             // try_send with room
    | Take | DropFront           // recv by a worker, try_recv and drop by a shutdown
    | Start(job: Job) | Finish(job: Job) | Discard(job: Job)
    | RaiseFlag | CloseSender | ReturnFromShutdown

  /** The acting thread's next position and the effect of the operation in between. */
  function Move(s: State, a: Action): (Pc, Effect)
    requires a.t in s.threads
  {
    match a
    case Submit(_, j) => (Submitting(Called, j), Quiet)
    case Shutdown(_) => (Shutting(Begun), Quiet)
    case Drain(_) => (DrainPolling, Quiet)
    case DrainTimesOut(_) => (Idle, Quiet)
    case Advance(t) =>
      match s.threads[t]
      case Idle => (Idle, Quiet)
      case Submitting(at, j) => SubmitMove(s, at, j)
      case SubmitLeaving => (Idle, UnlockSender)
      case Looping(at) => LoopMove(s, at)
      case Working(at, j) => WorkMove(s, at, j)
      case WorkerOwing(exits) => (Looping(if exits then Exited else Top), Refund)
      case Shutting(at) => ShutMove(s, at)
      case DrainPolling => (Idle, Quiet)
  }

  /** `submit` */
  function SubmitMove(s: State, at: SubmitStage, j: Job): (Pc, Effect) {
    match at
    case Called => (Submitting(Entered, j), LockSender)
    case Entered => (if s.shutting then SubmitLeaving else Submitting(Admitted, j), Quiet)
    case Admitted => if s.senderOpen then (Submitting(Charged, j), Charge) else (SubmitLeaving, Quiet)
    case Charged => if |s.queue| < s.capacity then (SubmitLeaving, Push(j)) else (Submitting(Bounced, j), Quiet)
    case Bounced => (SubmitLeaving, Refund)
  }

  /** The worker loop up to the receipt of a job. */
  function LoopMove(s: State, at: WorkerStage): (Pc, Effect) {
    match at
    case Top => (Looping(if s.shutting then Exited else Waiting), Quiet)
    case Waiting => (Looping(Receiving), LockReceiver)
    case Receiving => if s.queue != [] then (Working(Holding, s.queue[0]), Take) else (Looping(Exited), UnlockReceiver)
    case Exited => (Looping(Exited), Quiet)
  }

  /** The worker loop from the receipt of a job to its end. */
  function WorkMove(s: State, at: WorkStage, j: Job): (Pc, Effect) {
    match at
    case Holding => (Working(Got, j), UnlockReceiver)
    case Got => (Working(if s.shutting then Discarding else Cleared, j), Quiet)
    case Discarding => (WorkerOwing(true), Discard(j))
    case Cleared => (Working(Running, j), Start(j))
    case Running => (WorkerOwing(false), Finish(j))
  }

  /** `shutdown` */
  function ShutMove(s: State, at: ShutStage): (Pc, Effect) {
    match at
    case Begun => (Shutting(Flagged), RaiseFlag)
    case Flagged => (Shutting(SenderHeld), LockSender)
    case SenderHeld => (Shutting(Taken), CloseSender)
    case Taken => (Shutting(ReceiverWanted), UnlockSender)
    case ReceiverWanted => (Shutting(Draining), LockReceiver)
    case Draining => if s.queue == [] then (Shutting(Emptied), Quiet) else (Shutting(Dropped), DropFront)
    case Dropped => (Shutting(Draining), Refund)
    case Emptied => (Idle, ReturnFromShutdown)
  }

  /** The shared state after an effect of thread `t`. */
  function Affect(s: State, t: Thread, e: Effect): State {
    match e
    case Quiet => s
    case LockSender => s.(senderLock := Some(t))
    case UnlockSender => s.(senderLock := None)
    case LockReceiver => s.(receiverLock := Some(t))
    case UnlockReceiver => s.(receiverLock := None)
    case Charge => s.(pending := s.pending + 1)
    case Refund => s.(pending := s.pending - 1)
    case Push(j) => s.(queue := s.queue + [j], log := s.log.(accepted := s.log.accepted + {j}))
    case Take => if s.queue == [] then s else s.(queue := s.queue[1..])
    case DropFront =>
      if s.queue == [] then s
      else s.(queue := s.queue[1..], log := s.log.(dropped := s.log.dropped + {s.queue[0]}))
    case Start(j) => s.(log := s.log.(started := s.log.started + {j}))
    case Finish(j) => s.(log := s.log.(finished := s.log.finished + {j}))
    case Discard(j) => s.(log := s.log.(dropped := s.log.dropped + {j}))
    case RaiseFlag => s.(shutting := true)
    case CloseSender => s.(senderOpen := false)
    case ReturnFromShutdown => s.(receiverLock := None, returned := true)
  }

  function Apply(s: State, a: Action): State
    requires a.t in s.threads
  {
    Perform(s, a.t, Move(s, a))
  }

  function Perform(s: State, t: Thread, move: (Pc, Effect)): State {
    Affect(s, t, move.1).(threads := s.threads[t := move.0])
  }

  /** A run: any interleaving from a fresh pool, with the action taken at each point. */
  datatype Trace = Trace(states: seq<State>, acts: seq<Action>)

  ghost predicate Run(r: Trace) {
    && |r.states| == |r.acts| + 1
    && Init(r.states[0])
    && forall i :: 0 <= i < |r.acts| ==> StepAt(r, i)
  }

  ghost predicate StepAt(r: Trace, i: nat)
    requires i + 1 < |r.states| && i < |r.acts|
  {
    Enabled(r.states[i], r.acts[i]) && r.states[i + 1] == Apply(r.states[i], r.acts[i])
  }

  /** The effect of step `i` of a run. */
  ghost function EffectAt(r: Trace, i: nat): Effect
    requires Run(r) && i < |r.acts|
  {
    assert StepAt(r, i);
    Move(r.states[i], r.acts[i]).1
  }

  /** Step `i` runs job `j`. */
  ghost predicate StartsAt(r: Trace, i: nat, j: Job)
    requires Run(r) && i < |r.acts|
  {
    EffectAt(r, i) == Start(j)
  }

  /** Step `i` ends job `j`: it finishes, or a worker or a shutdown drops it. */
  ghost predicate EndsAt(r: Trace, i: nat, j: Job)
    requires Run(r) && i < |r.acts|
  {
    var e := EffectAt(r, i);
    e == Finish(j) || DropsAt(r, i, j)
  }

  ghost predicate DropsAt(r: Trace, i: nat, j: Job)
    requires Run(r) && i < |r.acts|
  {
    var e := EffectAt(r, i);
    var q := r.states[i].queue;
    e == Discard(j) || (e == DropFront && q != [] && q[0] == j)
  }

  // ---------------------------------------------------------------- invariant

  /** The thread has one unit of `pending` to give back. */
  predicate Owes(pc: Pc) {
    || (pc.Submitting? && (pc.at == Charged || pc.at == Bounced))
    || pc.Working? || pc.WorkerOwing? || pc == Shutting(Dropped)
  }

  predicate HoldsSender(pc: Pc) {
    || (pc.Submitting? && pc.at != Called)
    || pc.SubmitLeaving? || pc == Shutting(SenderHeld) || pc == Shutting(Taken)
  }

  predicate HoldsReceiver(pc: Pc) {
    || pc == Looping(Receiving) || (pc.Working? && pc.work == Holding)
    || pc == Shutting(Draining) || pc == Shutting(Dropped) || pc == Shutting(Emptied)
  }

  function Owing(threads: map<Thread, Pc>): set<Thread> {
    set t | t in threads && Owes(threads[t])
  }

  function SenderHolders(threads: map<Thread, Pc>): set<Thread> {
    set t | t in threads && HoldsSender(threads[t])
  }

  function ReceiverHolders(threads: map<Thread, Pc>): set<Thread> {
    set t | t in threads && HoldsReceiver(threads[t])
  }

  /** `pending` counts the submissions in progress, the queued jobs and the jobs
      a worker or a shutdown has not settled. */
  ghost predicate Counted(s: State) {
    s.pending == |Owing(s.threads)| + |s.queue|
  }

  function Holder(lock: Option<Thread>): set<Thread> {
    if lock.Some? then {lock.value} else {}
  }

  ghost predicate SenderExclusive(s: State) {
    SenderHolders(s.threads) == Holder(s.senderLock)
  }

  ghost predicate ReceiverExclusive(s: State) {
    ReceiverHolders(s.threads) == Holder(s.receiverLock)
  }

  predicate PastTake(pc: Pc) {
    pc.Shutting? && pc.shut != Begun && pc.shut != Flagged && pc.shut != SenderHeld
  }

  /** What one thread's position says about the flag, the sender and the queue. */
  predicate Consistent(s: State, pc: Pc) {
    && (pc.Shutting? && pc.shut != Begun ==> s.shutting)
    && (pc.Working? && pc.work == Discarding ==> s.shutting)
    && (PastTake(pc) ==> !s.senderOpen)
    && (pc.Submitting? && pc.at == Charged ==> s.senderOpen)
    && (pc == Shutting(Emptied) ==> s.queue == [])
  }

  ghost predicate Closing(s: State) {
    && (forall t <- s.threads :: Consistent(s, s.threads[t]))
    && Shut(s)
  }

  /** The flag, the sender, the queue and what was dropped or returned agree. */
  ghost predicate Shut(s: State) {
    && (!s.senderOpen ==> s.shutting)
    && (s.log.dropped != {} ==> s.shutting)
    && (s.returned ==> !s.senderOpen && s.queue == [])
    && |s.queue| <= s.capacity
  }

  /** A job still owned by its submitter was never accepted, and has one owner. */
  ghost predicate Offered(s: State) {
    && (forall t <- s.threads :: s.threads[t].Submitting? ==> s.threads[t].offer !in s.log.accepted)
    && (forall t, u :: t in s.threads && u in s.threads && t != u && s.threads[t].Submitting? && s.threads[u].Submitting?
          ==> s.threads[t].offer != s.threads[u].offer)
  }

  ghost predicate Open(s: State, j: Job) {
    j in s.log.accepted && j !in s.log.finished && j !in s.log.dropped
  }

  /** A job in a worker's hands is in no other hands, not queued, and started iff it is running. */
  ghost predicate Handled(s: State) {
    && (forall t <- s.threads :: s.threads[t].Working? ==>
          var j := s.threads[t].job;
          Open(s, j) && j !in s.queue && (j in s.log.started <==> s.threads[t].work == Running))
    && (forall t, u :: t in s.threads && u in s.threads && t != u && s.threads[t].Working? && s.threads[u].Working?
          ==> s.threads[t].job != s.threads[u].job)
  }

  ghost predicate Carried(s: State, j: Job) {
    exists t :: t in s.threads && s.threads[t].Working? && s.threads[t].job == j
  }

  /** A queued job is unstarted and queued once; a job starts or is dropped, never both. */
  ghost predicate Queued(s: State) {
    && (forall i, k :: 0 <= i < k < |s.queue| ==> s.queue[i] != s.queue[k])
    && (forall j <- s.queue :: Open(s, j) && j !in s.log.started)
    && s.log.finished <= s.log.started <= s.log.accepted
    && s.log.dropped <= s.log.accepted
    && s.log.started !! s.log.dropped
  }

  /** No accepted job is lost. */
  ghost predicate Covered(s: State) {
    forall j <- s.log.accepted :: j in s.queue || j in s.log.finished || j in s.log.dropped || Carried(s, j)
  }

  ghost predicate Inv(s: State) {
    Counted(s) && SenderExclusive(s) && ReceiverExclusive(s) && Closing(s) && Offered(s) && Handled(s) && Queued(s) && Covered(s)
  }

  // ------------------------------------------------------- one step at a time

  lemma {:induction false} OwingAfter(threads: map<Thread, Pc>, t: Thread, pc: Pc)
    requires t in threads
    ensures |Owing(threads[t := pc])|
            == |Owing(threads)| - (if Owes(threads[t]) then 1 else 0) + (if Owes(pc) then 1 else 0)
  {
    var rest := Owing(threads) - {t};
    assert Owing(threads) == if Owes(threads[t]) then rest + {t} else rest;
    assert Owing(threads[t := pc]) == if Owes(pc) then rest + {t} else rest;
  }

  lemma {:induction false} SenderHoldersAfter(threads: map<Thread, Pc>, t: Thread, pc: Pc)
    requires t in threads
    ensures SenderHolders(threads[t := pc])
            == SenderHolders(threads) - {t} + (if HoldsSender(pc) then {t} else {})
  {
  }

  lemma {:induction false} ReceiverHoldersAfter(threads: map<Thread, Pc>, t: Thread, pc: Pc)
    requires t in threads
    ensures ReceiverHolders(threads[t := pc])
            == ReceiverHolders(threads) - {t} + (if HoldsReceiver(pc) then {t} else {})
  {
  }

  /** A mutex taken when free and released by its holder has its holder as only one. */
  lemma {:induction false} OneHolder(holders: set<Thread>, t: Thread, lock: Option<Thread>, locks: bool, releases: bool)
    requires holders == Holder(lock) && (locks ==> lock == None) && (releases ==> t in holders && !locks)
    ensures holders - {t} + (if locks || (t in holders && !releases) then {t} else {})
         == Holder(if locks then Some(t) else if releases then None else lock)
  {
  }

  function Debt(pc: Pc): int {
    if Owes(pc) then 1 else 0
  }

  /** What an effect adds to `pending` beyond what it adds to the queue. */
  function Levy(e: Effect): int {
    match e
    case Charge => 1
    case Refund => -1
    case Push(_) => -1
    case Take => 1
    case DropFront => 1
    case _ => 0
  }

  /** A thread owes exactly what the operation it performed charged. */
  lemma {:induction false} DebtFollows(s: State, a: Action)
    requires Enabled(s, a)
    ensures Debt(Move(s, a).0) == Debt(s.threads[a.t]) + Levy(Move(s, a).1)
  {
  }

  lemma {:induction false} LevyIsBalance(s: State, t: Thread, e: Effect)
    requires e == Take || e == DropFront ==> s.queue != []
    ensures Affect(s, t, e).pending - |Affect(s, t, e).queue| == s.pending - |s.queue| + Levy(e)
  {
    match e {
      case Push(_) =>
      case Take =>
      case DropFront =>
      case _ =>
    }
  }

  lemma {:induction false} CountedStep(s: State, a: Action)
    requires Counted(s) && Enabled(s, a)
    ensures Counted(Apply(s, a))
  {
    var (pc, effect) := Move(s, a);
    DebtFollows(s, a);
    OwingAfter(s.threads, a.t, pc);
    LevyIsBalance(s, a.t, effect);
  }

  /** The sender mutex is taken when free and released by its holder. */
  lemma {:induction false} SenderFollows(s: State, a: Action)
    requires Enabled(s, a)
    ensures var (pc, e) := Move(s, a); var was := s.threads[a.t];
            && (HoldsSender(pc) <==> (e == LockSender || (HoldsSender(was) && e != UnlockSender)))
            && (e == LockSender ==> s.senderLock == None)
            && (e == UnlockSender ==> HoldsSender(was))
  {
  }

  /** The same of the receiver mutex. */
  lemma {:induction false} ReceiverFollows(s: State, a: Action)
    requires Enabled(s, a)
    ensures var (pc, e) := Move(s, a); var was := s.threads[a.t];
            && (HoldsReceiver(pc) <==> (e == LockReceiver || (HoldsReceiver(was) && !Releases(e))))
            && (e == LockReceiver ==> s.receiverLock == None)
            && (Releases(e) ==> HoldsReceiver(was))
  {
  }

  predicate Releases(e: Effect) {
    e == UnlockReceiver || e == ReturnFromShutdown
  }

  lemma {:induction false} SenderAfter(s: State, t: Thread, pc: Pc, e: Effect)
    requires SenderExclusive(s) && t in s.threads
    requires HoldsSender(pc) <==> e == LockSender || (HoldsSender(s.threads[t]) && e != UnlockSender)
    requires e == LockSender ==> s.senderLock == None
    requires e == UnlockSender ==> HoldsSender(s.threads[t])
    ensures SenderExclusive(Perform(s, t, (pc, e)))
  {
    var holders := SenderHolders(s.threads);
    assert t in holders <==> HoldsSender(s.threads[t]);
    SenderHoldersAfter(s.threads, t, pc);
    OneHolder(holders, t, s.senderLock, e == LockSender, e == UnlockSender);
    assert e != LockSender && e != UnlockSender ==> Affect(s, t, e).senderLock == s.senderLock;
  }

  lemma {:induction false} ReceiverAfter(s: State, t: Thread, pc: Pc, e: Effect)
    requires ReceiverExclusive(s) && t in s.threads
    requires HoldsReceiver(pc) <==> e == LockReceiver || (HoldsReceiver(s.threads[t]) && !Releases(e))
    requires e == LockReceiver ==> s.receiverLock == None
    requires Releases(e) ==> HoldsReceiver(s.threads[t])
    ensures ReceiverExclusive(Perform(s, t, (pc, e)))
  {
    var holders := ReceiverHolders(s.threads);
    assert t in holders <==> HoldsReceiver(s.threads[t]);
    ReceiverHoldersAfter(s.threads, t, pc);
    OneHolder(holders, t, s.receiverLock, e == LockReceiver, Releases(e));
    assert e != LockReceiver && !Releases(e) ==> Affect(s, t, e).receiverLock == s.receiverLock;
  }

  /** An effect keeps what another thread's position relies on. */
  lemma {:induction false} ConsistentKept(s: State, t: Thread, e: Effect, pc: Pc)
    requires Consistent(s, pc)
    requires e == CloseSender ==> !(pc.Submitting? && pc.at == Charged)
    requires e.Push? ==> pc != Shutting(Emptied)
    ensures Consistent(Affect(s, t, e), pc)
  {
  }

  /** The acting thread's new position is consistent. */
  lemma {:induction false} ConsistentMove(s: State, a: Action)
    requires Enabled(s, a) && Consistent(s, s.threads[a.t])
    ensures var (pc, e) := Move(s, a); Consistent(Affect(s, a.t, e), pc)
  {
  }

  /** The effects that could disturb others happen only where the source performs them. */
  ghost predicate Guarded(s: State, pc: Pc, e: Effect) {
    && (e == CloseSender ==> HoldsSender(pc) && s.shutting)
    && (e.Push? ==> s.senderOpen && |s.queue| < s.capacity)
    && (e.Discard? || e == DropFront ==> s.shutting)
    && (e == ReturnFromShutdown ==> !s.senderOpen && s.queue == [])
  }

  lemma {:induction false} MovesGuarded(s: State, a: Action)
    requires Enabled(s, a) && Consistent(s, s.threads[a.t])
    ensures Guarded(s, s.threads[a.t], Move(s, a).1)
  {
  }

  lemma {:induction false} ShutAfter(s: State, t: Thread, pc: Pc, e: Effect)
    requires Shut(s) && Guarded(s, pc, e)
    ensures Shut(Affect(s, t, e))
  {
    match e {
      case Push(_) => case Take => case DropFront => case Discard(_) => case ReturnFromShutdown =>
      case _ =>
    }
  }

  /** Another thread's position stays consistent: only the holder of the sender mutex closes it. */
  lemma {:induction false} OtherConsistent(s: State, t: Thread, e: Effect, u: Thread)
    requires SenderExclusive(s) && Closing(s) && t in s.threads && u in s.threads && u != t
    requires Guarded(s, s.threads[t], e)
    ensures Consistent(Affect(s, t, e), s.threads[u])
  {
    assert t in SenderHolders(s.threads) <==> HoldsSender(s.threads[t]);
    assert u in SenderHolders(s.threads) <==> HoldsSender(s.threads[u]);
    ConsistentKept(s, t, e, s.threads[u]);
  }

  lemma {:induction false} ClosingStep(s: State, a: Action)
    requires SenderExclusive(s) && Closing(s) && Enabled(s, a)
    ensures Closing(Apply(s, a))
  {
    MovesGuarded(s, a);
    ConsistentMove(s, a);
    var (pc, e) := Move(s, a);
    ShutAfter(s, a.t, s.threads[a.t], e);
    ClosingAfter(s, a.t, pc, e);
  }

  lemma {:induction false} ClosingAfter(s: State, t: Thread, pc: Pc, e: Effect)
    requires SenderExclusive(s) && Closing(s) && t in s.threads && Guarded(s, s.threads[t], e)
    requires Consistent(Affect(s, t, e), pc) && Shut(Affect(s, t, e))
    ensures Closing(Perform(s, t, (pc, e)))
  {
    var s' := Perform(s, t, (pc, e));
    forall u | u in s'.threads
      ensures Consistent(s', s'.threads[u])
    {
      if u != t {
        OtherConsistent(s, t, e, u);
      }
    }
  }

  /** A thread offers what it offered before, or a fresh job; a pushed job is no longer offered. */
  lemma {:induction false} OffersFollow(s: State, a: Action)
    requires Enabled(s, a)
    ensures var (pc, e) := Move(s, a); var was := s.threads[a.t];
            && (pc.Submitting? ==> (was.Submitting? && was.offer == pc.offer) || Fresh(s, pc.offer))
            && (e.Push? ==> was.Submitting? && e.job == was.offer && !pc.Submitting?)
  {
  }

  lemma {:induction false} OfferedAfter(s: State, t: Thread, pc: Pc, e: Effect)
    requires Offered(s) && t in s.threads
    requires pc.Submitting? ==>
               (s.threads[t].Submitting? && s.threads[t].offer == pc.offer) || Fresh(s, pc.offer)
    requires e.Push? ==> s.threads[t].Submitting? && e.job == s.threads[t].offer && !pc.Submitting?
    ensures Offered(Perform(s, t, (pc, e)))
  {
    EffectsOnlyAdd(s, t, e);
    var s' := Perform(s, t, (pc, e));
    assert s'.log.accepted == Affect(s, t, e).log.accepted && s'.threads == s.threads[t := pc];
    forall u, v | u in s'.threads && v in s'.threads && s'.threads[u].Submitting? && s'.threads[v].Submitting?
      ensures s'.threads[u].offer !in s'.log.accepted
      ensures u != v ==> s'.threads[u].offer != s'.threads[v].offer
    {
      if u != t {
        assert s'.threads[u] == s.threads[u];
      }
      if v != t {
        assert s'.threads[v] == s.threads[v];
      }
    }
  }

  /** Where a move puts a worker's job, and which log entry it writes. */
  ghost predicate Tracked(s: State, was: Pc, pc: Pc, e: Effect) {
    match e
    case Take => s.queue != [] && pc == Working(Holding, s.queue[0]) && !was.Working?
    case DropFront => s.queue != [] && !was.Working? && !pc.Working?
    case Start(j) => was == Working(Cleared, j) && pc == Working(Running, j)
    case Finish(j) => was == Working(Running, j) && !pc.Working?
    case Discard(j) => was == Working(Discarding, j) && !pc.Working?
    case Push(j) => was == Submitting(Charged, j) && !pc.Working?
    case _ =>
      && (pc.Working? <==> was.Working?)
      && (pc.Working? ==> was.job == pc.job && pc.work != Running && was.work != Running)
  }

  lemma {:induction false} MovesTracked(s: State, a: Action)
    requires Enabled(s, a)
    ensures Tracked(s, s.threads[a.t], Move(s, a).0, Move(s, a).1)
  {
  }

  lemma {:induction false} HandledAfter(s: State, t: Thread, pc: Pc, e: Effect)
    requires Handled(s) && Queued(s)
    requires t in s.threads && Tracked(s, s.threads[t], pc, e)
    requires e.Push? ==> e.job !in s.log.accepted
    ensures Handled(Perform(s, t, (pc, e)))
  {
    var s' := Perform(s, t, (pc, e));
    forall u | u in s'.threads && s'.threads[u].Working?
      ensures var j := s'.threads[u].job;
              Open(s', j) && j !in s'.queue && (j in s'.log.started <==> s'.threads[u].work == Running)
    {
      HandledOne(s, t, pc, e, u);
    }
    assert forall u :: u in s.threads && s.threads[u].Working? ==> s.threads[u].job !in s.queue;
    assert pc.Working? ==> (s.threads[t].Working? && s.threads[t].job == pc.job) || (e == Take && pc.job in s.queue);
  }

  lemma {:induction false} HandledOne(s: State, t: Thread, pc: Pc, e: Effect, u: Thread)
    requires Handled(s) && Queued(s)
    requires t in s.threads && Tracked(s, s.threads[t], pc, e)
    requires e.Push? ==> e.job !in s.log.accepted
    requires u in s.threads && Perform(s, t, (pc, e)).threads[u].Working?
    ensures var s' := Perform(s, t, (pc, e));
            var j := s'.threads[u].job;
            Open(s', j) && j !in s'.queue && (j in s'.log.started <==> s'.threads[u].work == Running)
  {
    match e {
      case Take => FrontGoes(s);
      case DropFront => FrontGoes(s);
      case Start(j) =>
      case Finish(j) =>
      case Discard(j) =>
      case Push(j) =>
      case _ => assert Affect(s, t, e).log == s.log && Affect(s, t, e).queue == s.queue;
    }
  }

  lemma {:induction false} QueuedAfter(s: State, t: Thread, pc: Pc, e: Effect)
    requires Handled(s) && Queued(s)
    requires t in s.threads && Tracked(s, s.threads[t], pc, e)
    requires e.Push? ==> e.job !in s.log.accepted
    ensures Queued(Perform(s, t, (pc, e)))
  {
    if e.Take? || e.DropFront? || e.Push? {
      QueueMoves(s, t, e);
    } else {
      JobMoves(s, t, pc, e);
    }
    assert Perform(s, t, (pc, e)).log == Affect(s, t, e).log && Perform(s, t, (pc, e)).queue == Affect(s, t, e).queue;
  }

  lemma {:induction false} QueueMoves(s: State, t: Thread, e: Effect)
    requires Queued(s) && (e.Take? || e.DropFront? || e.Push?)
    requires e.Push? ==> e.job !in s.log.accepted
    ensures Queued(Affect(s, t, e))
  {
    if e.Push? {
      PushKeepsQueued(s, t, e.job);
    } else if s.queue != [] {
      FrontGoes(s);
    }
  }

  lemma {:induction false} PushKeepsQueued(s: State, t: Thread, j: Job)
    requires Queued(s) && j !in s.log.accepted
    ensures Queued(Affect(s, t, Push(j)))
  {
  }

  lemma {:induction false} FrontGoes(s: State)
    requires Queued(s) && s.queue != []
    ensures s.queue[0] !in s.queue[1..] && forall j <- s.queue[1..] :: j in s.queue
    ensures forall i, k :: 0 <= i < k < |s.queue[1..]| ==> s.queue[1..][i] != s.queue[1..][k]
  {
  }

  lemma {:induction false} JobMoves(s: State, t: Thread, pc: Pc, e: Effect)
    requires Handled(s) && Queued(s) && !(e.Take? || e.DropFront? || e.Push?)
    requires t in s.threads && Tracked(s, s.threads[t], pc, e)
    ensures Queued(Affect(s, t, e))
  {
    if !e.Start? && !e.Finish? && !e.Discard? {
      assert Affect(s, t, e).log == s.log && Affect(s, t, e).queue == s.queue;
    }
  }

  lemma {:induction false} CarriedKept(s: State, t: Thread, pc: Pc, e: Effect, j: Job)
    requires t in s.threads && Tracked(s, s.threads[t], pc, e)
    requires Carried(s, j) && e != Finish(j) && e != Discard(j)
    ensures Carried(Perform(s, t, (pc, e)), j)
  {
    var u :| u in s.threads && s.threads[u].Working? && s.threads[u].job == j;
    assert var pc' := Perform(s, t, (pc, e)).threads[u]; pc'.Working? && pc'.job == j;
  }

  lemma {:induction false} CoveredAfter(s: State, t: Thread, pc: Pc, e: Effect)
    requires Covered(s)
    requires t in s.threads && Tracked(s, s.threads[t], pc, e)
    ensures Covered(Perform(s, t, (pc, e)))
  {
    var s' := Perform(s, t, (pc, e));
    forall j | j in s'.log.accepted
      ensures j in s'.queue || j in s'.log.finished || j in s'.log.dropped || Carried(s', j)
    {
      if e == Take && j == s.queue[0] {
        assert s'.threads[t] == Working(Holding, j);
      } else if Carried(s, j) && e != Finish(j) && e != Discard(j) {
        CarriedKept(s, t, pc, e, j);
      }
    }
  }

  /** Every step keeps the invariant. */
  lemma {:induction false} InvStep(s: State, a: Action)
    requires Inv(s) && Enabled(s, a)
    ensures Inv(Apply(s, a))
  {
    CountedStep(s, a);
    SenderFollows(s, a);
    ReceiverFollows(s, a);
    ClosingStep(s, a);
    OffersFollow(s, a);
    MovesTracked(s, a);
    var (pc, e) := Move(s, a);
    SenderAfter(s, a.t, pc, e);
    ReceiverAfter(s, a.t, pc, e);
    OfferedAfter(s, a.t, pc, e);
    HandledAfter(s, a.t, pc, e);
    QueuedAfter(s, a.t, pc, e);
    CoveredAfter(s, a.t, pc, e);
  }

  lemma {:induction false} InitHolds(s: State)
    requires Init(s)
    ensures Inv(s)
  {
    assert Owing(s.threads) == {};
    assert SenderHolders(s.threads) == {} == ReceiverHolders(s.threads);
  }

  /** The invariant holds at every point of every run. */
  lemma {:induction false} InvAlways(r: Trace, i: nat)
    requires Run(r) && i < |r.states|
    ensures Inv(r.states[i])
  {
    if i == 0 {
      InitHolds(r.states[0]);
    } else {
      InvAlways(r, i - 1);
      assert StepAt(r, i - 1);
      InvStep(r.states[i - 1], r.acts[i - 1]);
    }
  }

  // ------------------------------------------------------------------ theorems

  /** `pending` is exactly the submissions in progress, queued jobs and unsettled
      jobs, and a decrement never takes it below zero. */
  lemma {:induction false} PendingIsExact(r: Trace, i: nat)
    requires Run(r) && i < |r.states|
    ensures r.states[i].pending == |Owing(r.states[i].threads)| + |r.states[i].queue|
    ensures r.states[i].pending >= 0
    ensures i < |r.acts| && EffectAt(r, i) == Refund ==> r.states[i].pending >= 1
  {
    InvAlways(r, i);
    if i < |r.acts| && EffectAt(r, i) == Refund {
      InvAlways(r, i + 1);
      assert StepAt(r, i);
      assert r.states[i + 1].pending == r.states[i].pending - 1;
    }
  }

  ghost predicate Grows(l: Log, l': Log) {
    l.accepted <= l'.accepted && l.started <= l'.started && l.finished <= l'.finished && l.dropped <= l'.dropped
  }

  /** Which effects write which parts of the shared state. */
  lemma {:induction false} EffectsOnlyAdd(s: State, t: Thread, e: Effect)
    ensures var s' := Affect(s, t, e);
            && Grows(s.log, s'.log)
            && s'.log.accepted == s.log.accepted + (if e.Push? then {e.job} else {})
            && s'.log.started == s.log.started + (if e.Start? then {e.job} else {})
            && (s.returned ==> s'.returned)
            && (s.shutting ==> s'.shutting)
            && (!s.senderOpen ==> !s'.senderOpen)
  {
  }

  lemma {:induction false} LogGrows(r: Trace, i: nat, k: nat)
    requires Run(r) && i <= k < |r.states|
    ensures Grows(r.states[i].log, r.states[k].log)
    decreases k
  {
    if i < k {
      LogGrows(r, i, k - 1);
      var s, a := r.states[k - 1], r.acts[k - 1];
      assert StepAt(r, k - 1);
      EffectsOnlyAdd(s, a.t, Move(s, a).1);
    }
  }

  /** What a start, a finish or a drop presupposes and records. */
  lemma {:induction false} EffectsAreFirst(r: Trace, i: nat, j: Job)
    requires Run(r) && i < |r.acts|
    ensures var l, l' := r.states[i].log, r.states[i + 1].log;
            && (StartsAt(r, i, j) ==>
                  j in l.accepted && j !in l.started && j !in l.dropped && j in l'.started
                  && r.acts[i].t in r.states[i].threads && r.states[i].threads[r.acts[i].t] == Working(Cleared, j))
            && (EffectAt(r, i) == Finish(j) ==>
                  j in l.started && j !in l.finished && j !in l.dropped && j in l'.finished)
            && (DropsAt(r, i, j) ==>
                  j in l.accepted && j !in l.started && j !in l.dropped && j in l'.dropped && r.states[i].shutting)
  {
    InvAlways(r, i);
    var s, a := r.states[i], r.acts[i];
    assert StepAt(r, i);
    MovesTracked(s, a);
    ConsistentMove(s, a);
  }

  /** In every interleaving a job is started at most once, ended at most once, and
      never both run and dropped. */
  lemma {:induction false} EachJobOnce(r: Trace, i: nat, k: nat, j: Job)
    requires Run(r) && i < k < |r.acts|
    ensures StartsAt(r, i, j) ==> !StartsAt(r, k, j) && !DropsAt(r, k, j)
    ensures EndsAt(r, i, j) ==> !EndsAt(r, k, j) && !StartsAt(r, k, j)
  {
    EffectsAreFirst(r, i, j);
    EffectsAreFirst(r, k, j);
    LogGrows(r, i + 1, k);
    InvAlways(r, k);
  }

  /** A drain that returns true did so at a moment when every accepted job had
      either finished or, after a shutdown began, been dropped. */
  lemma {:induction false} DrainMeansEnded(r: Trace, i: nat)
    requires Run(r) && i < |r.acts|
    requires r.acts[i].Advance? && r.acts[i].t in r.states[i].threads
    requires r.states[i].threads[r.acts[i].t] == DrainPolling
    ensures var s := r.states[i];
            && s.queue == []
            && s.log.accepted == s.log.finished + s.log.dropped
            && s.log.finished !! s.log.dropped
            && (!s.shutting ==> s.log.accepted == s.log.finished)
            && forall t <- s.threads :: !s.threads[t].Working?
  {
    InvAlways(r, i);
    assert StepAt(r, i);
    var s := r.states[i];
    forall t | t in s.threads
      ensures !s.threads[t].Working?
    {
      assert t in Owing(s.threads) <==> Owes(s.threads[t]);
    }
  }

  lemma {:induction false} ClosedStays(r: Trace, i: nat)
    requires Run(r) && i < |r.acts| && r.states[i].returned && !r.states[i].senderOpen && Closing(r.states[i])
    ensures var s, s' := r.states[i], r.states[i + 1];
            s'.returned && s'.log.accepted == s.log.accepted
  {
    var s, a := r.states[i], r.acts[i];
    assert StepAt(r, i);
    ConsistentMove(s, a);
    EffectsOnlyAdd(s, a.t, Move(s, a).1);
  }

  /** Once some shutdown has returned, the flag stays up, the queue stays empty, the
      sender stays closed and no submission is ever accepted again. */
  lemma {:induction false} ShutdownIsFinal(r: Trace, i: nat, k: nat)
    requires Run(r) && i <= k < |r.states| && r.states[i].returned
    ensures var s, s' := r.states[i], r.states[k];
            s'.returned && s'.shutting && !s'.senderOpen && s'.queue == [] && s'.log.accepted == s.log.accepted
    decreases k
  {
    InvAlways(r, k);
    if i < k {
      ShutdownIsFinal(r, i, k - 1);
      InvAlways(r, k - 1);
      ClosedStays(r, k - 1);
    }
  }

  // ---------------------------------------------------- after the flag is raised

  /** Submissions past the flag test that may still be accepted. */
  function Admissible(threads: map<Thread, Pc>): set<Thread> {
    set t | t in threads && MayEnter(threads[t])
  }

  predicate MayEnter(pc: Pc) {
    pc.Submitting? && (pc.at == Admitted || pc.at == Charged)
  }

  /** Workers past the second flag test whose job has not been called yet. */
  function ClearedWorkers(threads: map<Thread, Pc>): set<Thread> {
    set t | t in threads && IsCleared(threads[t])
  }

  predicate IsCleared(pc: Pc) {
    pc.Working? && pc.work == Cleared
  }

  function ClearedJobs(threads: map<Thread, Pc>): set<Job> {
    set t | t in threads && IsCleared(threads[t]) :: threads[t].job
  }

  /** With the flag up, a thread is admissible or cleared only if it was, and stops being
      so when it pushes or starts. */
  lemma {:induction false} FlaggedMoves(s: State, a: Action)
    requires s.shutting && Enabled(s, a)
    ensures var (pc, e) := Move(s, a); var was := s.threads[a.t];
            && (MayEnter(pc) ==> MayEnter(was))
            && (e.Push? ==> MayEnter(was) && !MayEnter(pc))
            && !IsCleared(pc)
            && (e.Start? ==> IsCleared(was) && was.job == e.job)
  {
  }

  lemma {:induction false} AdmissibleAfter(s: State, a: Action)
    requires s.shutting && Enabled(s, a)
    ensures var s' := Apply(s, a);
            && s'.shutting
            && |s'.log.accepted - s.log.accepted| + |Admissible(s'.threads)| <= |Admissible(s.threads)|
  {
    var (pc, e) := Move(s, a);
    FlaggedMoves(s, a);
    EffectsOnlyAdd(s, a.t, e);
    AdmissibleShrinks(s.threads, a.t, pc);
    var gained := Apply(s, a).log.accepted - s.log.accepted;
    if e.Push? {
      CardinalityMonotone(gained, {e.job});
    } else {
      assert gained == {};
    }
  }

  lemma {:induction false} AdmissibleShrinks(threads: map<Thread, Pc>, t: Thread, pc: Pc)
    requires t in threads && (MayEnter(pc) ==> MayEnter(threads[t]))
    ensures var was, now := Admissible(threads), Admissible(threads[t := pc]);
            |now| <= |was| - (if MayEnter(threads[t]) && !MayEnter(pc) then 1 else 0)
  {
    var was, now := Admissible(threads), Admissible(threads[t := pc]);
    if MayEnter(threads[t]) && !MayEnter(pc) {
      assert now == was - {t} && t in was;
    } else {
      CardinalityMonotone(now, was);
    }
  }

  lemma {:induction false} CardinalityMonotone<T>(a: set<T>, b: set<T>)
    requires a <= b
    ensures |a| <= |b|
  {
    assert b == a + (b - a);
  }

  /** From the moment the flag is raised at most one submission (the one that had
      already passed the flag test) is still accepted. */
  lemma {:induction false} FlagStopsSubmissions(r: Trace, i: nat, k: nat)
    requires Run(r) && i <= k < |r.states| && r.states[i].shutting
    ensures r.states[k].shutting && |r.states[k].log.accepted - r.states[i].log.accepted| <= 1
  {
    FlagBudget(r, i, k);
    InvAlways(r, i);
    var s := r.states[i];
    assert Admissible(s.threads) <= SenderHolders(s.threads);
    CardinalityMonotone(Admissible(s.threads), SenderHolders(s.threads));
  }

  lemma {:induction false} FlagBudget(r: Trace, i: nat, k: nat)
    requires Run(r) && i <= k < |r.states| && r.states[i].shutting
    ensures var s, s' := r.states[i], r.states[k];
            && s'.shutting
            && |s'.log.accepted - s.log.accepted| + |Admissible(s'.threads)| <= |Admissible(s.threads)|
    decreases k
  {
    if i < k {
      FlagBudget(r, i, k - 1);
      assert StepAt(r, k - 1);
      AdmissibleAfter(r.states[k - 1], r.acts[k - 1]);
      LogGrows(r, i, k - 1);
      LogGrows(r, k - 1, k);
      var a, m, b := r.states[i].log.accepted, r.states[k - 1].log.accepted, r.states[k].log.accepted;
      assert b - a == (b - m) + (m - a);
    } else {
      assert r.states[k].log.accepted - r.states[i].log.accepted == {};
    }
  }

  /** One step with the flag up starts only a cleared job and clears none. */
  lemma {:induction false} ClearedAfter(s: State, a: Action)
    requires s.shutting && Enabled(s, a)
    ensures var s' := Apply(s, a);
            && s'.shutting
            && ClearedJobs(s'.threads) <= ClearedJobs(s.threads)
            && s'.log.started <= s.log.started + ClearedJobs(s.threads)
  {
    var (pc, e) := Move(s, a);
    var s' := Apply(s, a);
    FlaggedMoves(s, a);
    EffectsOnlyAdd(s, a.t, e);
    forall j | j in ClearedJobs(s'.threads)
      ensures j in ClearedJobs(s.threads)
    {
      var t :| t in s'.threads && IsCleared(s'.threads[t]) && s'.threads[t].job == j;
      assert t in s.threads && s.threads[t] == s'.threads[t];
    }
  }

  /** What can still start: once the flag is up, only jobs that some worker had taken
      past the second flag test by then, at most one for each such worker. */
  lemma {:induction false} OnlyClearedJobsStart(r: Trace, i: nat, k: nat)
    requires Run(r) && i <= k < |r.states| && r.states[i].shutting
    ensures var late := r.states[k].log.started - r.states[i].log.started;
            && late <= ClearedJobs(r.states[i].threads)
            && |late| <= |ClearedWorkers(r.states[i].threads)|
  {
    var late, jobs := r.states[k].log.started - r.states[i].log.started, ClearedJobs(r.states[i].threads);
    ClearedBudget(r, i, k);
    CardinalityMonotone(late, jobs);
    OneJobEach(r.states[i].threads, ClearedWorkers(r.states[i].threads));
    assert jobs == JobsOf(r.states[i].threads, ClearedWorkers(r.states[i].threads));
  }

  lemma {:induction false} ClearedBudget(r: Trace, i: nat, k: nat)
    requires Run(r) && i <= k < |r.states| && r.states[i].shutting
    ensures var s, s' := r.states[i], r.states[k];
            && s'.shutting
            && ClearedJobs(s'.threads) <= ClearedJobs(s.threads)
            && s'.log.started <= s.log.started + ClearedJobs(s.threads)
    decreases k
  {
    if i < k {
      ClearedBudget(r, i, k - 1);
      assert StepAt(r, k - 1);
      ClearedAfter(r.states[k - 1], r.acts[k - 1]);
    }
  }

  ghost function JobsOf(threads: map<Thread, Pc>, ts: set<Thread>): set<Job> {
    set t | t in ts && t in threads && IsCleared(threads[t]) :: threads[t].job
  }

  lemma {:induction false} OneJobEach(threads: map<Thread, Pc>, ts: set<Thread>)
    ensures |JobsOf(threads, ts)| <= |ts|
    decreases |ts|
  {
    if ts != {} {
      var t :| t in ts;
      var rest := ts - {t};
      OneJobEach(threads, rest);
      var own := if t in threads && IsCleared(threads[t]) then {threads[t].job} else {};
      assert JobsOf(threads, ts) == JobsOf(threads, rest) + own;
    }
  }

  /** Run `r'` continues run `r`. */
  ghost predicate Continues(r: Trace, r': Trace) {
    Run(r) && Run(r') && r.states <= r'.states && r.acts <= r'.acts
  }

  ghost predicate StartsLater(r: Trace, r': Trace, j: Job) {
    Continues(r, r') && exists k :: |r.acts| <= k < |r'.acts| && StartsAt(r', k, j)
  }

  /** Exactly which jobs can still start once the flag is up, and after a shutdown has
      returned as well: those a worker holds past its second flag test. */
  lemma {:induction false} LateStartsExactly(r: Trace, j: Job)
    requires Run(r) && r.states[|r.acts|].shutting
    ensures (exists r' :: StartsLater(r, r', j)) <==> j in ClearedJobs(r.states[|r.acts|].threads)
  {
    var n := |r.acts|;
    var s := r.states[n];
    if j in ClearedJobs(s.threads) {
      var t :| t in s.threads && IsCleared(s.threads[t]) && s.threads[t].job == j;
      var r' := StartNow(r, t, j);
    }
    if r' :| StartsLater(r, r', j) {
      var k :| n <= k < |r'.acts| && StartsAt(r', k, j);
      assert r'.states[n] == s;
      StartedWasCleared(r', n, k, j);
    }
  }

  lemma {:induction false} StartedWasCleared(r: Trace, i: nat, k: nat, j: Job)
    requires Run(r) && i <= k < |r.acts| && r.states[i].shutting && StartsAt(r, k, j)
    ensures j in ClearedJobs(r.states[i].threads)
  {
    ClearedBudget(r, i, k);
    EffectsAreFirst(r, k, j);
    assert StepAt(r, k);
    var t := r.acts[k].t;
    assert t in r.states[k].threads && IsCleared(r.states[k].threads[t]) && r.states[k].threads[t].job == j;
    assert j in ClearedJobs(r.states[k].threads);
  }

  lemma {:induction false} ExtendRun(r: Trace, a: Action) returns (r': Trace)
    requires Run(r) && Enabled(r.states[|r.acts|], a)
    ensures Continues(r, r') && r'.acts == r.acts + [a] && r'.states == r.states + [Apply(r.states[|r.acts|], a)]
  {
    var n := |r.acts|;
    r' := Trace(r.states + [Apply(r.states[n], a)], r.acts + [a]);
    forall i | 0 <= i < |r'.acts|
      ensures StepAt(r', i)
    {
      if i < n {
        assert StepAt(r, i);
      }
    }
  }

  lemma {:induction false} StartNow(r: Trace, t: Thread, j: Job) returns (r': Trace)
    requires Run(r) && t in r.states[|r.acts|].threads && r.states[|r.acts|].threads[t] == Working(Cleared, j)
    ensures StartsLater(r, r', j)
  {
    r' := ExtendRun(r, Advance(t));
    assert StartsAt(r', |r.acts|, j);
  }

  // ---------------------------------------------------- before the flag is raised

  /** The thread has left the worker loop, or will once it has settled `pending`. */
  predicate Leaves(pc: Pc) {
    pc == Looping(Exited) || pc == WorkerOwing(true)
  }

  /** A worker that will take another job. */
  predicate Keeps(pc: Pc) {
    IsWorker(pc) && !Leaves(pc) && !(pc.Working? && pc.work == Discarding)
  }

  predicate IsWorker(pc: Pc) {
    pc.Looping? || pc.Working? || pc.WorkerOwing?
  }

  lemma {:induction false} LeavesForCause(s: State, a: Action)
    requires Enabled(s, a) && Consistent(s, s.threads[a.t]) && Shut(s)
    requires Leaves(s.threads[a.t]) ==> s.shutting
    ensures Leaves(Move(s, a).0) ==> s.shutting
  {
  }

  /** A worker leaves only for a shutdown: after a job it goes round the loop. */
  lemma {:induction false} WorkersStay(r: Trace, i: nat, t: Thread)
    requires Run(r) && i < |r.states| && t in r.states[i].threads
    requires r.states[i].threads[t] == Looping(Exited) || r.states[i].threads[t] == WorkerOwing(true)
    ensures r.states[i].shutting
  {
    if i > 0 {
      var s, a := r.states[i - 1], r.acts[i - 1];
      assert StepAt(r, i - 1);
      ClosingAlways(r, i - 1);
      if Leaves(s.threads[t]) {
        WorkersStay(r, i - 1, t);
      }
      LeavesAfter(s, a, t);
    }
  }

  lemma {:induction false} ClosingAlways(r: Trace, i: nat)
    requires Run(r) && i < |r.states|
    ensures SenderExclusive(r.states[i]) && ReceiverExclusive(r.states[i]) && Closing(r.states[i])
  {
    InvAlways(r, i);
  }

  lemma {:induction false} LeavesAfter(s: State, a: Action, t: Thread)
    requires Closing(s) && Enabled(s, a) && t in s.threads && (Leaves(s.threads[t]) ==> s.shutting)
    ensures Leaves(Apply(s, a).threads[t]) ==> Apply(s, a).shutting
  {
    EffectsOnlyAdd(s, a.t, Move(s, a).1);
    if a.t == t {
      assert Consistent(s, s.threads[t]);
      LeavesForCause(s, a);
    }
  }

  lemma {:induction false} WorkerOnce(r: Trace, i: nat, k: nat, t: Thread)
    requires Run(r) && i <= k < |r.states| && t in r.states[i].threads && IsWorker(r.states[i].threads[t])
    ensures t in r.states[k].threads && IsWorker(r.states[k].threads[t])
    decreases k
  {
    if i < k {
      WorkerOnce(r, i, k - 1, t);
      assert StepAt(r, k - 1);
    }
  }

  /** How many steps a worker is from taking a job. */
  function ToTake(pc: Pc): nat {
    match pc
    case Looping(Receiving) => 0
    case Looping(Waiting) => 1
    case Looping(Top) => 2
    case WorkerOwing(_) => 3
    case Working(Running, _) => 4
    case Working(Cleared, _) => 5
    case Working(Got, _) => 6
    case Working(Holding, _) => 7
    case _ => 8
  }

  /** The worker is free to go on: nobody else holds the receiver mutex. */
  ghost predicate Unhindered(s: State, w: Thread) {
    && w in s.threads && Keeps(s.threads[w])
    && (s.receiverLock == None || s.receiverLock == Some(w))
    && (HoldsReceiver(s.threads[w]) <==> s.receiverLock == Some(w))
  }

  lemma {:induction false} WorkerMoves(s: State, w: Thread)
    requires !s.shutting && s.queue != [] && Unhindered(s, w)
    ensures Enabled(s, Advance(w))
    ensures var (pc, e) := Move(s, Advance(w));
            && Keeps(pc)
            && (if s.threads[w] == Looping(Receiving) then pc == Working(Holding, s.queue[0]) && e == Take
                else
                  && ToTake(pc) < ToTake(s.threads[w])
                  && (e == Quiet || e == LockReceiver || e == UnlockReceiver || e.Start? || e.Finish? || e == Refund))
  {
  }

  lemma {:induction false} WorkerEffect(s: State, w: Thread, e: Effect)
    requires !s.shutting
    requires e == Quiet || e == LockReceiver || e == UnlockReceiver || e.Start? || e.Finish? || e == Refund || e == Take
    ensures var s' := Affect(s, w, e);
            && !s'.shutting && s'.queue == (if e == Take && s.queue != [] then s.queue[1..] else s.queue)
            && s'.receiverLock == if e == LockReceiver then Some(w) else if e == UnlockReceiver then None else s.receiverLock
  {
  }

  lemma {:induction false} WorkerAdvances(s: State, w: Thread)
    requires !s.shutting && s.queue != [] && Unhindered(s, w)
    ensures Enabled(s, Advance(w))
    ensures var s', pc := Apply(s, Advance(w)), s.threads[w];
            && !s'.shutting && Unhindered(s', w)
            && (if pc == Looping(Receiving) then s'.threads[w] == Working(Holding, s.queue[0]) && s'.queue == s.queue[1..]
                else ToTake(s'.threads[w]) < ToTake(pc) && s'.queue == s.queue)
  {
    WorkerMoves(s, w);
    WorkerEffect(s, w, Move(s, Advance(w)).1);
    ReceiverFollows(s, Advance(w));
  }

  lemma {:induction false} HolderAdvances(s: State, w: Thread)
    requires !s.shutting && Unhindered(s, w) && s.threads[w].Working?
    requires s.threads[w].work == Holding || s.threads[w].work == Got
    ensures Enabled(s, Advance(w))
    ensures var s' := Apply(s, Advance(w));
            && !s'.shutting && Unhindered(s', w)
            && s'.threads[w] == Working(if s.threads[w].work == Holding then Got else Cleared, s.threads[w].job)
  {
  }

  lemma {:induction false} StartsAfterStep(r: Trace, r1: Trace, r': Trace, j: Job)
    requires Continues(r, r1) && StartsLater(r1, r', j)
    ensures StartsLater(r, r', j)
  {
    var k :| |r1.acts| <= k < |r'.acts| && StartsAt(r', k, j);
    assert |r.acts| <= |r1.acts|;
    PrefixTransitive(r.states, r1.states, r'.states);
    PrefixTransitive(r.acts, r1.acts, r'.acts);
  }

  lemma {:induction false} PrefixTransitive<T>(a: seq<T>, b: seq<T>, c: seq<T>)
    requires a <= b <= c
    ensures a <= c
  {
  }

  /** A worker that took a job before the flag can start it. */
  lemma {:induction false} HeldStarts(r: Trace, w: Thread, j: Job) returns (r': Trace)
    requires Run(r) && !r.states[|r.acts|].shutting && Unhindered(r.states[|r.acts|], w)
    requires var pc := r.states[|r.acts|].threads[w]; pc.Working? && pc.work != Discarding && pc.work != Running && pc.job == j
    ensures StartsLater(r, r', j)
    decreases ToTake(r.states[|r.acts|].threads[w])
  {
    var s := r.states[|r.acts|];
    if s.threads[w].work == Cleared {
      r' := StartNow(r, w, j);
    } else {
      HolderAdvances(s, w);
      var r1 := ExtendRun(r, Advance(w));
      r' := HeldStarts(r1, w, j);
      StartsAfterStep(r, r1, r', j);
    }
  }

  lemma {:induction false} QueuedStarts(r: Trace, w: Thread, p: nat) returns (r': Trace)
    requires Run(r) && !r.states[|r.acts|].shutting && Unhindered(r.states[|r.acts|], w)
    requires p < |r.states[|r.acts|].queue|
    ensures StartsLater(r, r', r.states[|r.acts|].queue[p])
    decreases p, ToTake(r.states[|r.acts|].threads[w])
  {
    var s := r.states[|r.acts|];
    WorkerAdvances(s, w);
    var r1 := ExtendRun(r, Advance(w));
    if s.threads[w] != Looping(Receiving) {
      r' := QueuedStarts(r1, w, p);
    } else if p == 0 {
      r' := HeldStarts(r1, w, s.queue[0]);
    } else {
      r' := QueuedStarts(r1, w, p - 1);
    }
    StartsAfterStep(r, r1, r', s.queue[p]);
  }

  /** The worker to run next: the holder of the receiver mutex, or else any. */
  lemma {:induction false} SomeUnhindered(r: Trace, i: nat, t: Thread) returns (w: Thread)
    requires Run(r) && i < |r.states| && !r.states[i].shutting
    requires t in r.states[i].threads && IsWorker(r.states[i].threads[t])
    ensures Unhindered(r.states[i], w)
  {
    InvAlways(r, i);
    var s := r.states[i];
    w := if s.receiverLock.Some? then s.receiverLock.value else t;
    assert w in ReceiverHolders(s.threads) <==> w in s.threads && HoldsReceiver(s.threads[w]);
    assert Consistent(s, s.threads[w]);
    if Leaves(s.threads[w]) {
      WorkersStay(r, i, w);
    }
  }

  /** An accepted job runs: at every point of every run of a pool made with some worker, while
      the flag is down, every queued job is started by some continuation. */
  lemma {:induction false} QueuedJobCanStart(r: Trace, j: Job, t: Thread) returns (r': Trace)
    requires Run(r) && !r.states[|r.acts|].shutting && j in r.states[|r.acts|].queue
    requires t in r.states[0].threads && r.states[0].threads[t] == Looping(Top)
    ensures StartsLater(r, r', j)
  {
    WorkerOnce(r, 0, |r.acts|, t);
    var w := SomeUnhindered(r, |r.acts|, t);
    var p :| 0 <= p < |r.states[|r.acts|].queue| && r.states[|r.acts|].queue[p] == j;
    r' := QueuedStarts(r, w, p);
  }

  /** Thread `t` is in one call of `submit` with job `j` from point `i` to point `k`. */
  ghost predicate Offers(r: Trace, t: Thread, j: Job, i: nat, k: nat)
    requires Run(r) && i <= k < |r.states|
  {
    forall m :: i <= m <= k ==>
      t in r.states[m].threads && r.states[m].threads[t].Submitting? && r.states[m].threads[t].offer == j
  }

  /** A call of `submit` ends at step `k`. */
  ghost predicate SubmitEndsAt(r: Trace, k: nat, t: Thread, j: Job)
    requires Run(r) && k < |r.acts|
  {
    && t in r.states[k].threads && r.states[k].threads[t].Submitting? && r.states[k].threads[t].offer == j
    && t in r.states[k + 1].threads && !r.states[k + 1].threads[t].Submitting?
  }

  /** What makes `submit` hand a job back. */
  ghost predicate Refuses(s: State) {
    s.shutting || !s.senderOpen || |s.queue| >= s.capacity
  }

  lemma {:induction false} SubmitEnds(s: State, a: Action)
    requires Enabled(s, a) && s.threads[a.t].Submitting?
    ensures var (pc, e) := Move(s, a); var was := s.threads[a.t];
            && (pc.Submitting? ==> pc.offer == was.offer)
            && (pc.Submitting? && pc.at == Bounced ==> |s.queue| >= s.capacity)
            && (!pc.Submitting? ==> e == Push(was.offer) || was.at == Bounced || Refuses(s))
  {
  }

  lemma {:induction false} BouncedForCause(r: Trace, k: nat, t: Thread, j: Job) returns (i: nat)
    requires Run(r) && k < |r.states| && t in r.states[k].threads && r.states[k].threads[t] == Submitting(Bounced, j)
    ensures i <= k && Offers(r, t, j, i, k) && Refuses(r.states[i])
  {
    var a := r.acts[k - 1];
    assert StepAt(r, k - 1);
    if a.t == t {
      SubmitEnds(r.states[k - 1], a);
      i := k - 1;
    } else {
      i := BouncedForCause(r, k - 1, t, j);
    }
  }

  /** A call of `submit` either has its job accepted or, at some point of that same call, the
      flag was up, the sender closed or the queue full. */
  lemma {:induction false} RefusedForCause(r: Trace, k: nat, t: Thread, j: Job) returns (i: nat)
    requires Run(r) && k < |r.acts| && SubmitEndsAt(r, k, t, j) && j !in r.states[k + 1].log.accepted
    ensures i <= k && Offers(r, t, j, i, k)
    ensures var s := r.states[i]; s.shutting || !s.senderOpen || |s.queue| >= s.capacity
  {
    assert StepAt(r, k);
    SubmitEnds(r.states[k], r.acts[k]);
    EffectsOnlyAdd(r.states[k], t, Move(r.states[k], r.acts[k]).1);
    if r.states[k].threads[t].at == Bounced {
      i := BouncedForCause(r, k, t, j);
    } else {
      i := k;
    }
  }

  ghost predicate AcceptsLater(r: Trace, r': Trace, j: Job) {
    Continues(r, r') && j in r'.states[|r'.acts|].log.accepted
  }

  lemma {:induction false} OfferAdvances(s: State, t: Thread)
    requires t in s.threads && s.threads[t].Submitting? && s.threads[t].at != Bounced
    requires !s.shutting && s.senderOpen && |s.queue| < s.capacity
    requires s.threads[t].at == Called ==> s.senderLock == None
    ensures Enabled(s, Advance(t))
    ensures var s', was := Apply(s, Advance(t)), s.threads[t];
            if was.at == Charged then was.offer in s'.log.accepted
            else
              && s'.threads[t] == Submitting(if was.at == Called then Entered else if was.at == Entered then Admitted else Charged,
                                             was.offer)
              && !s'.shutting && s'.senderOpen && s'.queue == s.queue && s'.capacity == s.capacity
  {
  }

  /** While the flag is down, a submission that finds the mutex free, or holds it, and the
      queue with room can have its job accepted. */
  lemma {:induction false} OfferCanBeAccepted(r: Trace, t: Thread) returns (r': Trace)
    requires Run(r)
    requires var s := r.states[|r.acts|];
             && t in s.threads && s.threads[t].Submitting? && s.threads[t].at != Bounced
             && !s.shutting && |s.queue| < s.capacity && (s.senderLock == None || s.senderLock == Some(t))
    ensures AcceptsLater(r, r', r.states[|r.acts|].threads[t].offer)
  {
    var s := r.states[|r.acts|];
    InvAlways(r, |r.acts|);
    assert t in SenderHolders(s.threads) <==> HoldsSender(s.threads[t]);
    r' := Accept(r, t);
  }

  lemma {:induction false} Accept(r: Trace, t: Thread) returns (r': Trace)
    requires Run(r)
    requires var s := r.states[|r.acts|];
             && t in s.threads && s.threads[t].Submitting? && s.threads[t].at != Bounced
             && !s.shutting && s.senderOpen && |s.queue| < s.capacity && (s.threads[t].at == Called ==> s.senderLock == None)
    ensures AcceptsLater(r, r', r.states[|r.acts|].threads[t].offer)
    decreases match r.states[|r.acts|].threads[t].at
              case Called => 3 case Entered => 2 case Admitted => 1 case _ => 0
  {
    var s := r.states[|r.acts|];
    OfferAdvances(s, t);
    var r1 := ExtendRun(r, Advance(t));
    if s.threads[t].at == Charged {
      r' := r1;
    } else {
      r' := Accept(r1, t);
      PrefixTransitive(r.states, r1.states, r'.states);
      PrefixTransitive(r.acts, r1.acts, r'.acts);
    }
  }

  // -------------------------------------------- a start after a returned shutdown

  ghost predicate Reaches(r: Trace, s: State) {
    Run(r) && r.states[|r.acts|] == s
  }

  lemma {:induction false} Go(r: Trace, s: State, a: Action, s': State) returns (r': Trace)
    requires Reaches(r, s) && Enabled(s, a) && Apply(s, a) == s'
    ensures Reaches(r', s')
  {
    r' := ExtendRun(r, a);
  }

  /** A pool of one worker, thread 0, and one caller, thread 1. */
  function Duo(
    worker: Pc, caller: Pc, pending: int, queue: seq<Job>, accepted: set<Job>,
    senderLock: Option<Thread>, receiverLock: Option<Thread>): State
  {
    State(1, pending, false, true, senderLock, receiverLock, queue,
          map[0 := worker, 1 := caller], Log(accepted, {}, {}, {}), false)
  }

  lemma {:induction false} DuoMoves(worker: Pc, caller: Pc, pc: Pc)
    ensures map[0 := worker, 1 := caller][0 := pc] == map[0 := pc, 1 := caller]
    ensures map[0 := worker, 1 := caller][1 := pc] == map[0 := worker, 1 := pc]
  {
  }

  /** The caller submits a job. */
  lemma {:induction false} DuoSubmits(j: Job) returns (r: Trace)
    ensures Reaches(r, Duo(Looping(Top), Idle, 1, [j], {j}, None, None))
  {
    var top := Looping(Top);
    var s0 := Duo(top, Idle, 0, [], {}, None, None);
    r := Trace([s0], []);
    var s1 := Duo(top, Submitting(Called, j), 0, [], {}, None, None);
    DuoMoves(top, Idle, Submitting(Called, j));
    r := Go(r, s0, Submit(1, j), s1);
    var s2 := Duo(top, Submitting(Entered, j), 0, [], {}, Some(1), None);
    DuoMoves(top, Submitting(Called, j), Submitting(Entered, j));
    r := Go(r, s1, Advance(1), s2);
    var s3 := Duo(top, Submitting(Admitted, j), 0, [], {}, Some(1), None);
    DuoMoves(top, Submitting(Entered, j), Submitting(Admitted, j));
    r := Go(r, s2, Advance(1), s3);
    var s4 := Duo(top, Submitting(Charged, j), 1, [], {}, Some(1), None);
    DuoMoves(top, Submitting(Admitted, j), Submitting(Charged, j));
    r := Go(r, s3, Advance(1), s4);
    var s5 := Duo(top, SubmitLeaving, 1, [j], {j}, Some(1), None);
    DuoMoves(top, Submitting(Charged, j), SubmitLeaving);
    assert [] + [j] == [j] && {} + {j} == {j};
    r := Go(r, s4, Advance(1), s5);
    DuoMoves(top, SubmitLeaving, Idle);
    r := Go(r, s5, Advance(1), Duo(top, Idle, 1, [j], {j}, None, None));
  }

  /** The worker takes it and reads the flag as false. */
  lemma {:induction false} DuoClears(j: Job) returns (r: Trace)
    ensures Reaches(r, Duo(Working(Cleared, j), Idle, 1, [], {j}, None, None))
  {
    r := DuoSubmits(j);
    var s0 := Duo(Looping(Top), Idle, 1, [j], {j}, None, None);
    var s1 := Duo(Looping(Waiting), Idle, 1, [j], {j}, None, None);
    DuoMoves(Looping(Top), Idle, Looping(Waiting));
    r := Go(r, s0, Advance(0), s1);
    var s2 := Duo(Looping(Receiving), Idle, 1, [j], {j}, None, Some(0));
    DuoMoves(Looping(Waiting), Idle, Looping(Receiving));
    r := Go(r, s1, Advance(0), s2);
    var s3 := Duo(Working(Holding, j), Idle, 1, [], {j}, None, Some(0));
    DuoMoves(Looping(Receiving), Idle, Working(Holding, j));
    assert [j][1..] == [];
    r := Go(r, s2, Advance(0), s3);
    var s4 := Duo(Working(Got, j), Idle, 1, [], {j}, None, None);
    DuoMoves(Working(Holding, j), Idle, Working(Got, j));
    r := Go(r, s3, Advance(0), s4);
    DuoMoves(Working(Got, j), Idle, Working(Cleared, j));
    r := Go(r, s4, Advance(0), Duo(Working(Cleared, j), Idle, 1, [], {j}, None, None));
  }

  /** Meanwhile the caller shuts the pool down, up to the receiver mutex. */
  lemma {:induction false} DuoCloses(j: Job) returns (r: Trace)
    ensures Reaches(r, Duo(Working(Cleared, j), Shutting(ReceiverWanted), 1, [], {j}, None, None)
                         .(shutting := true, senderOpen := false))
  {
    r := DuoClears(j);
    var w := Working(Cleared, j);
    var s0 := Duo(w, Idle, 1, [], {j}, None, None);
    var s1 := Duo(w, Shutting(Begun), 1, [], {j}, None, None);
    DuoMoves(w, Idle, Shutting(Begun));
    r := Go(r, s0, Shutdown(1), s1);
    var s2 := Duo(w, Shutting(Flagged), 1, [], {j}, None, None).(shutting := true);
    DuoMoves(w, Shutting(Begun), Shutting(Flagged));
    r := Go(r, s1, Advance(1), s2);
    var s3 := Duo(w, Shutting(SenderHeld), 1, [], {j}, Some(1), None).(shutting := true);
    DuoMoves(w, Shutting(Flagged), Shutting(SenderHeld));
    r := Go(r, s2, Advance(1), s3);
    var s4 := Duo(w, Shutting(Taken), 1, [], {j}, Some(1), None).(shutting := true, senderOpen := false);
    DuoMoves(w, Shutting(SenderHeld), Shutting(Taken));
    r := Go(r, s3, Advance(1), s4);
    DuoMoves(w, Shutting(Taken), Shutting(ReceiverWanted));
    r := Go(r, s4, Advance(1), Duo(w, Shutting(ReceiverWanted), 1, [], {j}, None, None)
                                 .(shutting := true, senderOpen := false));
  }

  /** And finds the queue empty and returns. */
  lemma {:induction false} DuoReturns(j: Job) returns (r: Trace)
    ensures Run(r) && r.states[|r.acts|].returned && r.states[|r.acts|].threads == map[0 := Working(Cleared, j), 1 := Idle]
  {
    r := DuoCloses(j);
    var w := Working(Cleared, j);
    var s0 := Duo(w, Shutting(ReceiverWanted), 1, [], {j}, None, None).(shutting := true, senderOpen := false);
    var s1 := Duo(w, Shutting(Draining), 1, [], {j}, None, Some(1)).(shutting := true, senderOpen := false);
    DuoMoves(w, Shutting(ReceiverWanted), Shutting(Draining));
    r := Go(r, s0, Advance(1), s1);
    var s2 := Duo(w, Shutting(Emptied), 1, [], {j}, None, Some(1)).(shutting := true, senderOpen := false);
    DuoMoves(w, Shutting(Draining), Shutting(Emptied));
    r := Go(r, s1, Advance(1), s2);
    DuoMoves(w, Shutting(Emptied), Idle);
    r := Go(r, s2, Advance(1), Duo(w, Idle, 1, [], {j}, None, None)
                                 .(shutting := true, senderOpen := false, returned := true));
  }

  /** A start after the flag, and even after a shutdown has returned, does happen: the
      worker read the flag before it was raised and calls its job only then. */
  lemma {:induction false} JobStartsAfterReturn(j: Job) returns (r: Trace, k: nat)
    ensures Run(r) && k < |r.acts| && r.states[k].returned && StartsAt(r, k, j)
  {
    var before := DuoReturns(j);
    r := ExtendRun(before, Advance(0));
    k := |before.acts|;
  }

  // ------------------------------------------------------------ a shutdown returns

  ghost predicate ReturnsLater(r: Trace, r': Trace, t: Thread) {
    && Continues(r, r')
    && exists k :: |r.acts| <= k < |r'.acts| && r'.acts[k] == Advance(t) && EffectAt(r', k) == ReturnFromShutdown
  }

  lemma {:induction false} ReturnsAfter(r: Trace, r1: Trace, r': Trace, t: Thread)
    requires Continues(r, r1) && ReturnsLater(r1, r', t)
    ensures ReturnsLater(r, r', t)
  {
    var k :| |r1.acts| <= k < |r'.acts| && r'.acts[k] == Advance(t) && EffectAt(r', k) == ReturnFromShutdown;
    assert |r.acts| <= |r1.acts|;
    PrefixTransitive(r.states, r1.states, r'.states);
    PrefixTransitive(r.acts, r1.acts, r'.acts);
  }

  /** How far the holder of the sender mutex is from releasing it. */
  function ToUnlockSender(pc: Pc): nat {
    match pc
    case Submitting(Entered, _) => 5
    case Submitting(Admitted, _) => 4
    case Submitting(Charged, _) => 3
    case Submitting(Bounced, _) => 2
    case Shutting(SenderHeld) => 2
    case _ => 1
  }

  lemma {:induction false} SenderHolderMoves(s: State, u: Thread)
    requires u in s.threads && HoldsSender(s.threads[u])
    ensures Enabled(s, Advance(u))
    ensures var (pc, e) := Move(s, Advance(u));
            e == UnlockSender || (e != LockSender && HoldsSender(pc) && ToUnlockSender(pc) < ToUnlockSender(s.threads[u]))
  {
  }

  /** Another thread stands where it stood, and a closed sender stays closed. */
  lemma {:induction false} OthersStand(s: State, u: Thread, t: Thread)
    requires Enabled(s, Advance(u)) && t in s.threads && t != u
    ensures var s' := Apply(s, Advance(u));
            && t in s'.threads && s'.threads[t] == s.threads[t]
            && (!s.senderOpen ==> !s'.senderOpen)
  {
    EffectsOnlyAdd(s, u, Move(s, Advance(u)).1);
  }

  lemma {:induction false} SenderKept(s: State, u: Thread, e: Effect)
    ensures Affect(s, u, e).senderLock
         == if e == LockSender then Some(u) else if e == UnlockSender then None else s.senderLock
  {
  }

  lemma {:induction false} SenderHolderSteps(s: State, u: Thread, t: Thread)
    requires SenderExclusive(s) && s.senderLock == Some(u) && t in s.threads && !HoldsSender(s.threads[t])
    ensures u in s.threads && Enabled(s, Advance(u))
    ensures var s' := Apply(s, Advance(u));
            && t in s'.threads && s'.threads[t] == s.threads[t]
            && (s'.senderLock == None
                || (s'.senderLock == Some(u) && ToUnlockSender(s'.threads[u]) < ToUnlockSender(s.threads[u])))
  {
    assert u in SenderHolders(s.threads);
    SenderHolderMoves(s, u);
    OthersStand(s, u, t);
    SenderKept(s, u, Move(s, Advance(u)).1);
  }

  lemma {:induction false} FreeSender(r: Trace, t: Thread) returns (r': Trace)
    requires Run(r) && t in r.states[|r.acts|].threads && r.states[|r.acts|].threads[t] == Shutting(Flagged)
    ensures Continues(r, r') && r'.states[|r'.acts|].senderLock == None
    ensures t in r'.states[|r'.acts|].threads && r'.states[|r'.acts|].threads[t] == Shutting(Flagged)
    decreases var s := r.states[|r.acts|];
              if s.senderLock.Some? && s.senderLock.value in s.threads then ToUnlockSender(s.threads[s.senderLock.value]) else 0
  {
    var s := r.states[|r.acts|];
    if s.senderLock == None {
      r' := r;
    } else {
      ClosingAlways(r, |r.acts|);
      var u := s.senderLock.value;
      SenderHolderSteps(s, u, t);
      var r1 := ExtendRun(r, Advance(u));
      r' := FreeSender(r1, t);
      PrefixTransitive(r.states, r1.states, r'.states);
      PrefixTransitive(r.acts, r1.acts, r'.acts);
    }
  }

  /** How far the holder of the receiver mutex is from releasing it once the sender is closed. */
  function ToUnlockReceiver(s: State, pc: Pc): nat {
    match pc
    case Looping(_) => 2
    case Shutting(Draining) => 2 * |s.queue| + 2
    case Shutting(Dropped) => 2 * |s.queue| + 3
    case _ => 1
  }

  lemma {:induction false} ReceiverHolderMoves(s: State, u: Thread)
    requires !s.senderOpen && u in s.threads && HoldsReceiver(s.threads[u])
    ensures Enabled(s, Advance(u))
    ensures var (pc, e) := Move(s, Advance(u));
            || Releases(e)
            || (e != LockReceiver && HoldsReceiver(pc)
                && ToUnlockReceiver(Affect(s, u, e), pc) < ToUnlockReceiver(s, s.threads[u]))
  {
  }

  lemma {:induction false} ReceiverHolderSteps(s: State, u: Thread, t: Thread)
    requires ReceiverExclusive(s) && s.receiverLock == Some(u) && !s.senderOpen
    requires t in s.threads && !HoldsReceiver(s.threads[t])
    ensures u in s.threads && Enabled(s, Advance(u))
    ensures var s' := Apply(s, Advance(u));
            && t in s'.threads && s'.threads[t] == s.threads[t]
            && (s'.receiverLock == None
                || (s'.receiverLock == Some(u) && ToUnlockReceiver(s', s'.threads[u]) < ToUnlockReceiver(s, s.threads[u])))
  {
    assert u in ReceiverHolders(s.threads);
    ReceiverHolderMoves(s, u);
    OthersStand(s, u, t);
    ReceiverKept(s, u, Move(s, Advance(u)).1);
  }

  lemma {:induction false} FreeReceiver(r: Trace, t: Thread) returns (r': Trace)
    requires Run(r) && t in r.states[|r.acts|].threads && r.states[|r.acts|].threads[t] == Shutting(ReceiverWanted)
    ensures Continues(r, r') && r'.states[|r'.acts|].receiverLock == None
    ensures t in r'.states[|r'.acts|].threads && r'.states[|r'.acts|].threads[t] == Shutting(ReceiverWanted)
    decreases var s := r.states[|r.acts|];
              if s.receiverLock.Some? && s.receiverLock.value in s.threads
              then ToUnlockReceiver(s, s.threads[s.receiverLock.value]) else 0
  {
    var s := r.states[|r.acts|];
    if s.receiverLock == None {
      r' := r;
    } else {
      ClosingAlways(r, |r.acts|);
      assert Consistent(s, s.threads[t]);
      var u := s.receiverLock.value;
      ReceiverHolderSteps(s, u, t);
      var r1 := ExtendRun(r, Advance(u));
      r' := FreeReceiver(r1, t);
      PrefixTransitive(r.states, r1.states, r'.states);
      PrefixTransitive(r.acts, r1.acts, r'.acts);
    }
  }

  lemma {:induction false} ReceiverKept(s: State, u: Thread, e: Effect)
    ensures Affect(s, u, e).receiverLock
         == if e == LockReceiver then Some(u) else if Releases(e) then None else s.receiverLock
  {
  }

  /** How far a shutdown is from returning. */
  function ToReturn(s: State, at: ShutStage): nat {
    match at
    case Begun => 2 * |s.queue| + 8
    case Flagged => 2 * |s.queue| + 7
    case SenderHeld => 2 * |s.queue| + 6
    case Taken => 2 * |s.queue| + 5
    case ReceiverWanted => 2 * |s.queue| + 4
    case Dropped => 2 * |s.queue| + 3
    case Draining => 2 * |s.queue| + 2
    case Emptied => 1
  }

  lemma {:induction false} ShutdownMoves(s: State, t: Thread)
    requires t in s.threads && s.threads[t].Shutting?
    requires s.threads[t] == Shutting(Flagged) ==> s.senderLock == None
    requires s.threads[t] == Shutting(ReceiverWanted) ==> s.receiverLock == None
    ensures Enabled(s, Advance(t))
    ensures var (pc, e) := Move(s, Advance(t));
            if s.threads[t] == Shutting(Emptied) then e == ReturnFromShutdown
            else pc.Shutting? && Order(pc.shut) >= Order(s.threads[t].shut)
  {
  }

  lemma {:induction false} ShutdownNears(s: State, t: Thread)
    requires t in s.threads && s.threads[t].Shutting? && s.threads[t].shut != Emptied
    ensures var (pc, e) := Move(s, Advance(t));
            pc.Shutting? && ToReturn(Affect(s, t, e), pc.shut) < ToReturn(s, s.threads[t].shut)
  {
  }

  /** The stage of a shutdown, its loop counted once. */
  function Order(at: ShutStage): nat {
    match at
    case Begun => 0
    case Flagged => 1
    case SenderHeld => 2
    case Taken => 3
    case ReceiverWanted => 4
    case _ => 5
  }

  /** Every call of `shutdown` can return, from every point of every run, whoever holds the
      mutexes and whatever is queued. */
  lemma {:induction false} ShutdownCanReturn(r: Trace, t: Thread) returns (r': Trace)
    requires Run(r) && t in r.states[|r.acts|].threads && r.states[|r.acts|].threads[t].Shutting?
    ensures ReturnsLater(r, r', t)
    decreases 5 - Order(r.states[|r.acts|].threads[t].shut), ToReturn(r.states[|r.acts|], r.states[|r.acts|].threads[t].shut)
  {
    var pc := r.states[|r.acts|].threads[t];
    var r0 := r;
    if pc.shut == Flagged {
      r0 := FreeSender(r, t);
    } else if pc.shut == ReceiverWanted {
      r0 := FreeReceiver(r, t);
    }
    var s := r0.states[|r0.acts|];
    ShutdownMoves(s, t);
    var r1 := ExtendRun(r0, Advance(t));
    if pc.shut == Emptied {
      r' := r1;
      assert EffectAt(r', |r0.acts|) == ReturnFromShutdown;
    } else {
      ShutdownNears(s, t);
      r' := ShutdownCanReturn(r1, t);
      ReturnsAfter(r0, r1, r', t);
      ReturnsAfter(r, r0, r', t);
    }
  }

  /** A shutdown never deadlocks: while it waits for the receiver mutex, the mutex
      is free or its holder can take its next step, even a worker blocked in `recv`. */
  lemma {:induction false} ShutdownIsNeverStuck(r: Trace, i: nat, t: Thread)
    requires Run(r) && i < |r.states|
    requires t in r.states[i].threads && r.states[i].threads[t] == Shutting(ReceiverWanted)
    ensures var s := r.states[i];
            || Enabled(s, Advance(t))
            || (s.receiverLock.Some? && Enabled(s, Advance(s.receiverLock.value)))
  {
    InvAlways(r, i);
    var s := r.states[i];
    assert Consistent(s, s.threads[t]);
    if s.receiverLock.Some? {
      assert s.receiverLock.value in ReceiverHolders(s.threads);
    }
  }
}
