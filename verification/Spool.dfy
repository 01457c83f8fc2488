/** The file-spool transport between sandboxed clients and the daemon
    (src/daemon/spool.rs, dispatched by src/daemon/server.rs) as a step system.

    The spool directory is the shared state. Every file operation of a client or
    a server is one step; failures, heartbeat readings, the fullness of the pool
    and the removal of leftovers are free choices, so a run covers crashed and
    restarted servers and several servers draining the same directory. */
module Spool {
  type Id = nat
  type Text = nat

  datatype File = Request(id: Id) | RequestTmp(id: Id) | Claim(id: Id) | Reply(id: Id) | ReplyTmp(id: Id)

  datatype Verdict = Success(output: Text) | Failure

  datatype Body = Arguments | Answer(verdict: Verdict) | HalfWritten

  datatype Outcome = NoDaemon | Output(text: Text) | Error

  /** Where the client of one request stands in `request`. */
  datatype Client =
    | Fresh
    | Writing                 // heartbeat seen, about to write `<id>.request.tmp`
    | Renaming                // temporary written, about to rename it
    | Waiting                 // polling for the reply
    | Reading(body: Body)     // read the reply file, about to remove it
    | Withdrawing             // heartbeat gone, about to remove the request
    | Abandoning              // removal failed, about to remove the claim
    | TimingOut               // about to remove the request and give up
    | Returned(outcome: Outcome)
    | Crashed

  /** What a server does with one claimed request. */
  datatype Stage =
    | Held                    // claimed, not yet submitted to the pool
    | Queued                  // the pool took the job
    | Answering               // a worker took the claim and reads it
    | Running                 // the handler runs
    | Publishing(verdict: Verdict)   // about to remove the claim file
    | Replying(verdict: Verdict)     // about to write `<id>.reply.tmp`
    | Linking(verdict: Verdict)      // about to rename it
    | Closed

  datatype Ticket = Ticket(id: Id, stage: Stage, ran: bool)

  /** `tickets` lists every successful claim ever made, `starts` counts handler
      starts per request and `answers` holds what a handler returned. */
  datatype State = State(
    dir: map<File, Body>,
    clients: map<Id, Client>,
    tickets: seq<Ticket>,
    starts: multiset<Id>,
    answers: map<Id, Verdict>)

  ghost predicate Init(s: State) {
    && s.dir == map[] && s.tickets == [] && s.starts == multiset{} && s.answers == map[]
    && forall id <- s.clients :: s.clients[id] == Fresh
  }

  /** One operation of a client inside `request`. */
  datatype ClientStep =
    | Begin(alive: bool)
    | WriteRequest
    | WriteFails(partial: bool, outcome: Outcome)
    | Publish
    | PublishFails(outcome: Outcome)
    | ReadReply
    | ReadFails
    | TakeReply
    | LoseHeartbeat
    | ReachDeadline
    | Withdraw
    | WithdrawFails
    | RemoveClaim
    | RemoveLate
    | Crash

  /** One operation of a server on a claimed request. */
  datatype ServerStep =
    | Submit(accepted: bool)
    | RunJob
    | DropJob
    | StartHandler
    | RejectRequest
    | Handle(verdict: Verdict)
    | RemoveClaimed
    | WriteReply
    | WriteReplyFails(partial: bool)
    | LinkReply
    | LinkReplyFails

  datatype Action =
    | ByClient(id: Id, client: ClientStep)
    | ByServer(k: nat, server: ServerStep)
    | ClaimRequest(id: Id)     // the rename inside `claim`
    | Discard(file: File)      // a starting server clears the directory, or the orphan sweep

  ghost predicate Enabled(s: State, a: Action) {
    match a
    case ByClient(id, step) => id in s.clients && ClientCan(s, id, step)
    case ByServer(k, step) => k < |s.tickets| && ServerCan(s, s.tickets[k], step)
    case ClaimRequest(id) => Request(id) in s.dir
    case Discard(_) => true
  }

  ghost predicate ClientCan(s: State, id: Id, step: ClientStep)
    requires id in s.clients
  {
    var c := s.clients[id];
    match step
    case Begin(_) => c == Fresh || c == Returned(NoDaemon)
    case WriteRequest => c == Writing
    case WriteFails(_, o) => c == Writing && !o.Output?
    case Publish => c == Renaming && RequestTmp(id) in s.dir
    case PublishFails(o) => c == Renaming && !o.Output?
    case ReadReply => c == Waiting && Reply(id) in s.dir
    case ReadFails => c == Waiting
    case TakeReply => c.Reading?
    case LoseHeartbeat => c == Waiting
    case ReachDeadline => c == Waiting
    case Withdraw => c == Withdrawing && Request(id) in s.dir
    case WithdrawFails => c == Withdrawing
    case RemoveClaim => c == Abandoning
    case RemoveLate => c == TimingOut
    case Crash => !c.Returned?
  }

  ghost predicate ServerCan(s: State, t: Ticket, step: ServerStep) {
    match step
    case Submit(_) => t.stage == Held
    case RunJob => t.stage == Queued
    case DropJob => t.stage == Queued
    case StartHandler => t.stage == Answering && Claim(t.id) in s.dir && s.dir[Claim(t.id)] == Arguments
    case RejectRequest => t.stage == Answering
    case Handle(_) => t.stage == Running
    case RemoveClaimed => t.stage.Publishing?
    case WriteReply => t.stage.Replying?
    case WriteReplyFails(_) => t.stage.Replying?
    case LinkReply => t.stage.Linking? && ReplyTmp(t.id) in s.dir
    case LinkReplyFails => t.stage.Linking?
  }

  function Rename(dir: map<File, Body>, from: File, to: File): map<File, Body>
    requires from in dir
  {
    (dir - {from})[to := dir[from]]
  }

  /** What the client makes of the reply it read. */
  function Decoded(body: Body): Outcome {
    if body.Answer? && body.verdict.Success? then Output(body.verdict.output) else Error
  }

  /** The client's next position. */
  ghost function ClientGoes(s: State, id: Id, step: ClientStep): Client
    requires id in s.clients && ClientCan(s, id, step)
  {
    match step
    case Begin(alive) => if alive then Writing else Returned(NoDaemon)
    case WriteRequest => Renaming
    case WriteFails(_, o) => Returned(o)
    case Publish => Waiting
    case PublishFails(o) => Returned(o)
    case ReadReply => Reading(s.dir[Reply(id)])
    case ReadFails => Returned(Error)
    case TakeReply => Returned(Decoded(s.clients[id].body))
    case LoseHeartbeat => Withdrawing
    case ReachDeadline => TimingOut
    case Withdraw => Returned(NoDaemon)
    case WithdrawFails => Abandoning
    case RemoveClaim => Returned(Error)
    case RemoveLate => Returned(Error)
    case Crash => Crashed
  }

  /** The directory after the client's operation. */
  ghost function ClientWrites(s: State, id: Id, step: ClientStep): map<File, Body>
    requires id in s.clients && ClientCan(s, id, step)
  {
    match step
    case WriteRequest => s.dir[RequestTmp(id) := Arguments]
    case WriteFails(partial, _) => if partial then s.dir[RequestTmp(id) := HalfWritten] else s.dir
    case Publish => Rename(s.dir, RequestTmp(id), Request(id))
    case TakeReply => s.dir - {Reply(id)}
    case Withdraw => s.dir - {Request(id)}
    case RemoveClaim => s.dir - {Claim(id)}
    case RemoveLate => s.dir - {Request(id)}
    case _ => s.dir
  }

  /** The ticket after the server's operation. */
  ghost function ServerGoes(s: State, t: Ticket, step: ServerStep): Ticket
    requires ServerCan(s, t, step)
  {
    match step
    case Submit(accepted) => t.(stage := if accepted then Queued else Publishing(Failure))
    case RunJob => t.(stage := Answering)
    case DropJob => t.(stage := Closed)
    case StartHandler => t.(stage := Running, ran := true)
    case RejectRequest => t.(stage := Publishing(Failure))
    case Handle(v) => t.(stage := Publishing(v))
    case RemoveClaimed => t.(stage := Replying(t.stage.verdict))
    case WriteReply => t.(stage := Linking(t.stage.verdict))
    case WriteReplyFails(_) => t.(stage := Closed)
    case LinkReply => t.(stage := Closed)
    case LinkReplyFails => t.(stage := Closed)
  }

  /** The directory after the server's operation. */
  ghost function ServerWrites(s: State, t: Ticket, step: ServerStep): map<File, Body>
    requires ServerCan(s, t, step)
  {
    match step
    case RemoveClaimed => s.dir - {Claim(t.id)}
    case WriteReply => s.dir[ReplyTmp(t.id) := Answer(t.stage.verdict)]
    case WriteReplyFails(partial) => if partial then s.dir[ReplyTmp(t.id) := HalfWritten] else s.dir
    case LinkReply => Rename(s.dir, ReplyTmp(t.id), Reply(t.id))
    case _ => s.dir
  }

  ghost function Apply(s: State, a: Action): State
    requires Enabled(s, a)
  {
    match a
    case ByClient(id, step) =>
      s.(dir := ClientWrites(s, id, step), clients := s.clients[id := ClientGoes(s, id, step)])
    case ByServer(k, step) =>
      var t := s.tickets[k];
      s.(dir := ServerWrites(s, t, step),
         tickets := s.tickets[k := ServerGoes(s, t, step)],
         starts := if step == StartHandler then s.starts + multiset{t.id} else s.starts,
         answers := if step.Handle? then s.answers[t.id := step.verdict] else s.answers)
    case ClaimRequest(id) =>
      s.(dir := Rename(s.dir, Request(id), Claim(id)), tickets := s.tickets + [Ticket(id, Held, false)])
    case Discard(f) => s.(dir := s.dir - {f})
  }

  datatype Trace = Trace(states: seq<State>, acts: seq<Action>)

  ghost predicate Run(r: Trace) {
    && |r.states| == |r.acts| + 1
    && Init(r.states[0])
    && forall i :: 0 <= i < |r.acts| ==> StepAt(r, i)
  }

  ghost predicate StepAt(r: Trace, i: nat)
    requires i + 1 < |r.states| && i < |r.acts|
  {
    Enabled(r.states[i], r.acts[i]) && r.states[i + 1] == Apply(r.states[i], r.acts[i])
  }

  // ---------------------------------------------------------------- invariant

  /** The request file does not exist yet, or no longer and for good. */
  predicate Unpublished(c: Client) {
    c == Fresh || c == Writing || c == Renaming || c == Returned(NoDaemon)
  }

  ghost predicate Unclaimed(s: State, id: Id) {
    forall k :: 0 <= k < |s.tickets| ==> s.tickets[k].id != id
  }

  /** A request is in at most one place: not published, in the directory, or claimed once. */
  ghost predicate OnePlace(s: State) {
    && (forall id <- s.clients :: Unpublished(s.clients[id]) ==> Request(id) !in s.dir && Unclaimed(s, id))
    && (forall id :: Request(id) in s.dir ==> id in s.clients && Unclaimed(s, id))
    && (forall i, k :: 0 <= i < k < |s.tickets| ==> s.tickets[i].id != s.tickets[k].id)
    && (forall k :: 0 <= k < |s.tickets| ==> s.tickets[k].id in s.clients)
  }

  /** Handler starts are those of claimed tickets, one each. */
  ghost predicate StartsCounted(s: State) {
    && (forall k :: 0 <= k < |s.tickets| ==> s.starts[s.tickets[k].id] == (if s.tickets[k].ran then 1 else 0))
    && (forall id :: id in s.starts ==> !Unclaimed(s, id))
    && (forall k :: 0 <= k < |s.tickets| ==>
          (s.tickets[k].stage == Held || s.tickets[k].stage == Queued || s.tickets[k].stage == Answering) ==>
            !s.tickets[k].ran)
  }

  /** Client steps publish only from `Renaming` and return `NoDaemon` only unpublished or withdrawn. */
  lemma {:induction false} ClientMoves(s: State, id: Id, step: ClientStep)
    requires id in s.clients && ClientCan(s, id, step)
    ensures var c, c', d' := s.clients[id], ClientGoes(s, id, step), ClientWrites(s, id, step);
            && (forall o <- d' :: o.Request? ==> o in s.dir || (step == Publish && o.id == id))
            && (Unpublished(c') ==>
                  (Unpublished(c) && step != Publish) || (step == Withdraw && Request(id) in s.dir && Request(id) !in d'))
            && (step == Publish ==> Unpublished(c))
  {
  }

  lemma {:induction false} OnePlaceStep(s: State, a: Action)
    requires OnePlace(s) && Enabled(s, a)
    ensures OnePlace(Apply(s, a))
  {
    match a {
      case ByClient(id, step) => ClientMoves(s, id, step);
      case ByServer(k, step) => OnePlaceByServer(s, k, step);
      case ClaimRequest(id) =>
      case Discard(_) =>
    }
  }

  lemma {:induction false} OnePlaceByServer(s: State, k: nat, step: ServerStep)
    requires OnePlace(s) && Enabled(s, ByServer(k, step))
    ensures OnePlace(Apply(s, ByServer(k, step)))
  {
    assert ServerGoes(s, s.tickets[k], step).id == s.tickets[k].id;
    assert forall o <- ServerWrites(s, s.tickets[k], step) :: o.Request? ==> o in s.dir;
  }

  lemma {:induction false} UnclaimedAfter(s: State, a: Action, id: Id)
    requires Enabled(s, a)
    ensures Unclaimed(Apply(s, a), id) <==> (Unclaimed(s, id) && a != ClaimRequest(id))
  {
    var s' := Apply(s, a);
    if a.ClaimRequest? {
      assert s'.tickets[|s.tickets|].id == a.id;
    }
    assert forall k :: 0 <= k < |s.tickets| ==> s'.tickets[k].id == s.tickets[k].id;
  }

  lemma {:induction false} StartsByServer(s: State, k: nat, step: ServerStep)
    requires OnePlace(s) && StartsCounted(s) && Enabled(s, ByServer(k, step))
    ensures StartsCounted(Apply(s, ByServer(k, step)))
  {
    var s' := Apply(s, ByServer(k, step));
    var t, t' := s.tickets[k], s'.tickets[k];
    assert t'.id == t.id && t'.ran == (t.ran || step == StartHandler);
    forall id | id in s'.starts
      ensures !Unclaimed(s', id)
    {
      UnclaimedAfter(s, ByServer(k, step), id);
      assert step == StartHandler ==> !Unclaimed(s, t.id);
    }
  }

  lemma {:induction false} StartsCountedStep(s: State, a: Action)
    requires OnePlace(s) && StartsCounted(s) && Enabled(s, a)
    ensures StartsCounted(Apply(s, a))
  {
    match a {
      case ByClient(_, _) =>
      case ByServer(k, step) => StartsByServer(s, k, step);
      case ClaimRequest(id) => StartsByClaim(s, id);
      case Discard(_) =>
    }
  }

  lemma {:induction false} StartsByClaim(s: State, id: Id)
    requires OnePlace(s) && StartsCounted(s) && Enabled(s, ClaimRequest(id))
    ensures StartsCounted(Apply(s, ClaimRequest(id)))
  {
    var s' := Apply(s, ClaimRequest(id));
    assert Unclaimed(s, id) && id !in s.starts;
    forall k | 0 <= k < |s'.tickets|
      ensures s'.starts[s'.tickets[k].id] == if s'.tickets[k].ran then 1 else 0
    {
      assert k < |s.tickets| ==> s'.tickets[k] == s.tickets[k];
    }
    forall other | other in s'.starts
      ensures !Unclaimed(s', other)
    {
      UnclaimedAfter(s, ClaimRequest(id), other);
    }
  }

  /** What the client of a request is to be told: what its handler returned, or a failure
      when none did. */
  ghost function Due(s: State, id: Id): Verdict {
    if id in s.answers then s.answers[id] else Failure
  }

  /** A verdict is on its way to the client. */
  predicate Sending(stage: Stage) {
    stage.Publishing? || stage.Replying? || stage.Linking?
  }

  /** A ticket sends what its handler returned, and a failure if it never ran; a reply exists
      only once the ticket is closed. */
  ghost predicate TicketHonest(s: State, t: Ticket) {
    TicketSends(s, t) && TicketReplied(s, t)
  }

  ghost predicate TicketSends(s: State, t: Ticket) {
    && (Sending(t.stage) ==> t.stage.verdict == Due(s, t.id))
    && (t.id in s.answers <==> t.ran && t.stage != Running)
    && (t.stage == Running ==> t.ran)
  }

  ghost predicate TicketReplied(s: State, t: Ticket) {
    && (t.stage.Linking? && ReplyTmp(t.id) in s.dir ==> s.dir[ReplyTmp(t.id)] == Answer(t.stage.verdict))
    && (Reply(t.id) in s.dir ==> t.stage == Closed && s.dir[Reply(t.id)] == Answer(Due(s, t.id)))
    && (t.id in s.clients && s.clients[t.id].Reading? ==>
          t.stage == Closed && s.clients[t.id].body == Answer(Due(s, t.id)))
  }

  ghost predicate ClientHonest(s: State, id: Id)
    requires id in s.clients
  {
    && (s.clients[id].Reading? ==> !Unclaimed(s, id))
    && (s.clients[id].Returned? && s.clients[id].outcome.Output? ==>
          id in s.answers && s.answers[id] == Success(s.clients[id].outcome.text))
  }

  /** Replies belong to claimed requests, and request files hold whole arguments. */
  ghost predicate FilesHonest(s: State) {
    && (forall id :: Reply(id) in s.dir ==> !Unclaimed(s, id))
    && (forall id :: Request(id) in s.dir ==> s.dir[Request(id)] == Arguments)
    && (forall id <- s.clients :: s.clients[id] == Renaming && RequestTmp(id) in s.dir ==>
          s.dir[RequestTmp(id)] == Arguments)
  }

  ghost predicate Honest(s: State) {
    && (forall k :: 0 <= k < |s.tickets| ==> TicketHonest(s, s.tickets[k]))
    && (forall id <- s.clients :: ClientHonest(s, id))
    && (forall id <- s.answers :: s.starts[id] == 1)
    && FilesHonest(s)
  }

  ghost predicate Inv(s: State) {
    OnePlace(s) && StartsCounted(s) && Honest(s)
  }

  // ---------------------------------------------------------------- client steps

  /** No reply file, complete or not, was added or changed. */
  ghost predicate SameReplies(dir: map<File, Body>, dir': map<File, Body>) {
    forall f <- dir' :: f.Reply? || f.ReplyTmp? ==> f in dir && dir'[f] == dir[f]
  }

  lemma {:induction false} ClientKeepsReplies(s: State, id: Id, step: ClientStep)
    requires id in s.clients && ClientCan(s, id, step)
    ensures SameReplies(s.dir, ClientWrites(s, id, step))
  {
  }

  /** A client reads only the reply that is there. */
  lemma {:induction false} ClientReads(s: State, id: Id, step: ClientStep)
    requires id in s.clients && ClientCan(s, id, step)
    ensures var c' := ClientGoes(s, id, step);
            && (c'.Reading? ==> Reply(id) in s.dir && c'.body == s.dir[Reply(id)])
            && (c'.Returned? && c'.outcome.Output? ==>
                  s.clients[id].Reading? && s.clients[id].body == Answer(Success(c'.outcome.text)))
  {
  }

  lemma {:induction false} TicketByClient(s: State, id: Id, step: ClientStep, t: Ticket)
    requires Enabled(s, ByClient(id, step)) && TicketHonest(s, t)
    ensures TicketHonest(Apply(s, ByClient(id, step)), t)
  {
    ClientKeepsReplies(s, id, step);
    ClientReads(s, id, step);
  }

  lemma {:induction false} OwnClientHonest(s: State, id: Id, step: ClientStep)
    requires Inv(s) && Enabled(s, ByClient(id, step))
    ensures ClientHonest(Apply(s, ByClient(id, step)), id)
  {
    ClientReads(s, id, step);
    UnclaimedAfter(s, ByClient(id, step), id);
    assert ClientHonest(s, id);
    if s.clients[id].Reading? {
      var k :| 0 <= k < |s.tickets| && s.tickets[k].id == id;
      assert TicketHonest(s, s.tickets[k]);
    }
  }

  /** A client writes only its own request, whole before it can be renamed. */
  lemma {:induction false} ClientRequests(s: State, id: Id, step: ClientStep)
    requires FilesHonest(s) && id in s.clients && ClientCan(s, id, step)
    ensures var d', c' := ClientWrites(s, id, step), ClientGoes(s, id, step);
            && (forall o :: Request(o) in d' ==> d'[Request(o)] == Arguments)
            && (forall o :: RequestTmp(o) in d' && o != id ==> RequestTmp(o) in s.dir && d'[RequestTmp(o)] == s.dir[RequestTmp(o)])
            && (c' == Renaming && RequestTmp(id) in d' ==> d'[RequestTmp(id)] == Arguments)
  {
  }

  lemma {:induction false} FilesByClient(s: State, id: Id, step: ClientStep)
    requires FilesHonest(s) && Enabled(s, ByClient(id, step))
    ensures FilesHonest(Apply(s, ByClient(id, step)))
  {
    var s' := Apply(s, ByClient(id, step));
    ClientKeepsReplies(s, id, step);
    ClientRequests(s, id, step);
    forall o | Reply(o) in s'.dir
      ensures !Unclaimed(s', o)
    {
      UnclaimedAfter(s, ByClient(id, step), o);
    }
  }

  lemma {:induction false} HonestByClient(s: State, id: Id, step: ClientStep)
    requires Inv(s) && Enabled(s, ByClient(id, step))
    ensures Honest(Apply(s, ByClient(id, step)))
  {
    var s' := Apply(s, ByClient(id, step));
    forall k | 0 <= k < |s'.tickets|
      ensures TicketHonest(s', s'.tickets[k])
    {
      TicketByClient(s, id, step, s.tickets[k]);
    }
    forall o | o in s'.clients
      ensures ClientHonest(s', o)
    {
      if o == id {
        OwnClientHonest(s, id, step);
      } else {
        UnclaimedAfter(s, ByClient(id, step), o);
        assert ClientHonest(s, o);
      }
    }
    FilesByClient(s, id, step);
  }

  lemma {:induction false} HonestByDiscard(s: State, f: File)
    requires Inv(s)
    ensures Honest(Apply(s, Discard(f)))
  {
    var s' := Apply(s, Discard(f));
    forall k | 0 <= k < |s'.tickets|
      ensures TicketHonest(s', s'.tickets[k])
    {
      assert TicketHonest(s, s.tickets[k]);
    }
    forall id
      ensures Unclaimed(s', id) <==> Unclaimed(s, id)
      ensures id in s'.clients ==> ClientHonest(s', id)
    {
      UnclaimedAfter(s, Discard(f), id);
      assert id in s.clients ==> ClientHonest(s, id);
    }
  }

  // ---------------------------------------------------------------- server steps

  /** A handler's answer is recorded once and never changes. */
  lemma {:induction false} AnswersKept(s: State, k: nat, step: ServerStep)
    requires Inv(s) && Enabled(s, ByServer(k, step))
    ensures var s' := Apply(s, ByServer(k, step));
            && (forall id <- s.answers :: id in s'.answers && s'.answers[id] == s.answers[id])
            && (forall id <- s'.answers :: id in s.answers || (step.Handle? && id == s.tickets[k].id))
            && (step.Handle? ==> s'.answers[s.tickets[k].id] == step.verdict)
  {
    assert TicketHonest(s, s.tickets[k]);
  }

  lemma {:induction false} OwnTicketHonest(s: State, k: nat, step: ServerStep)
    requires Inv(s) && Enabled(s, ByServer(k, step))
    ensures var s' := Apply(s, ByServer(k, step)); TicketHonest(s', s'.tickets[k])
  {
    assert TicketHonest(s, s.tickets[k]);
    OwnTicketSends(s, k, step);
    OwnTicketReplied(s, k, step);
  }

  lemma {:induction false} OwnTicketSends(s: State, k: nat, step: ServerStep)
    requires StartsCounted(s) && Enabled(s, ByServer(k, step)) && TicketSends(s, s.tickets[k])
    ensures var s' := Apply(s, ByServer(k, step)); TicketSends(s', s'.tickets[k])
  {
  }

  lemma {:induction false} OwnTicketReplied(s: State, k: nat, step: ServerStep)
    requires Enabled(s, ByServer(k, step)) && TicketHonest(s, s.tickets[k])
    ensures var s' := Apply(s, ByServer(k, step)); TicketReplied(s', s'.tickets[k])
  {
  }

  /** A server touches no other request's reply. */
  lemma {:induction false} ServerKeepsOthers(s: State, t: Ticket, step: ServerStep)
    requires ServerCan(s, t, step)
    ensures var d' := ServerWrites(s, t, step);
            && (forall f <- d' :: f == Reply(t.id) || f == ReplyTmp(t.id) || (f in s.dir && d'[f] == s.dir[f]))
            && (Reply(t.id) in d' && Reply(t.id) !in s.dir ==> step == LinkReply)
  {
  }

  lemma {:induction false} OtherTicketHonest(s: State, k: nat, step: ServerStep, i: nat)
    requires Inv(s) && Enabled(s, ByServer(k, step)) && i < |s.tickets| && i != k
    ensures var s' := Apply(s, ByServer(k, step)); TicketHonest(s', s'.tickets[i])
  {
    AnswersKept(s, k, step);
    ServerKeepsOthers(s, s.tickets[k], step);
    assert s.tickets[i].id != s.tickets[k].id;
    TicketKept(s, Apply(s, ByServer(k, step)), s.tickets[i]);
  }

  lemma {:induction false} TicketKept(s: State, s': State, t: Ticket)
    requires TicketHonest(s, t) && s'.clients == s.clients
    requires t.id in s'.answers <==> t.id in s.answers
    requires t.id in s.answers ==> s'.answers[t.id] == s.answers[t.id]
    requires forall f :: f == Reply(t.id) || f == ReplyTmp(t.id) ==> f in s'.dir ==> f in s.dir && s'.dir[f] == s.dir[f]
    ensures TicketHonest(s', t)
  {
  }

  lemma {:induction false} FilesByServer(s: State, k: nat, step: ServerStep)
    requires FilesHonest(s) && Enabled(s, ByServer(k, step))
    ensures FilesHonest(Apply(s, ByServer(k, step)))
  {
    var s' := Apply(s, ByServer(k, step));
    ServerKeepsOthers(s, s.tickets[k], step);
    assert !Unclaimed(s, s.tickets[k].id);
    forall id | Reply(id) in s'.dir
      ensures !Unclaimed(s', id)
    {
      UnclaimedAfter(s, ByServer(k, step), id);
    }
  }

  lemma {:induction false} HonestByServer(s: State, k: nat, step: ServerStep)
    requires Inv(s) && Enabled(s, ByServer(k, step))
    ensures Honest(Apply(s, ByServer(k, step)))
  {
    var s' := Apply(s, ByServer(k, step));
    AnswersKept(s, k, step);
    forall i | 0 <= i < |s'.tickets|
      ensures TicketHonest(s', s'.tickets[i])
    {
      if i == k { OwnTicketHonest(s, k, step); } else { OtherTicketHonest(s, k, step, i); }
    }
    forall id | id in s'.clients
      ensures ClientHonest(s', id)
    {
      UnclaimedAfter(s, ByServer(k, step), id);
      assert ClientHonest(s, id);
    }
    FilesByServer(s, k, step);
    AnsweredOnce(s, k, step);
  }

  lemma {:induction false} AnsweredOnce(s: State, k: nat, step: ServerStep)
    requires Inv(s) && Enabled(s, ByServer(k, step))
    ensures var s' := Apply(s, ByServer(k, step)); forall id <- s'.answers :: s'.starts[id] == 1
  {
    AnswersKept(s, k, step);
    assert TicketHonest(s, s.tickets[k]);
  }

  lemma {:induction false} HonestByClaim(s: State, id: Id)
    requires Inv(s) && Enabled(s, ClaimRequest(id))
    ensures Honest(Apply(s, ClaimRequest(id)))
  {
    var s' := Apply(s, ClaimRequest(id));
    assert Unclaimed(s, id) && id !in s.answers;
    assert ClientHonest(s, id);
    forall k | 0 <= k < |s'.tickets|
      ensures TicketHonest(s', s'.tickets[k])
    {
      assert k < |s.tickets| ==> TicketHonest(s, s.tickets[k]);
    }
    forall other
      ensures Unclaimed(s', other) ==> Unclaimed(s, other)
      ensures other in s'.clients ==> ClientHonest(s', other)
    {
      UnclaimedAfter(s, ClaimRequest(id), other);
      assert other in s.clients ==> ClientHonest(s, other);
    }
  }

  /** Every step keeps the invariant. */
  lemma {:induction false} InvStep(s: State, a: Action)
    requires Inv(s) && Enabled(s, a)
    ensures Inv(Apply(s, a))
  {
    OnePlaceStep(s, a);
    StartsCountedStep(s, a);
    match a {
      case ByClient(id, step) => HonestByClient(s, id, step);
      case ByServer(k, step) => HonestByServer(s, k, step);
      case ClaimRequest(id) => HonestByClaim(s, id);
      case Discard(f) => HonestByDiscard(s, f);
    }
  }

  lemma {:induction false} InvAlways(r: Trace, i: nat)
    requires Run(r) && i < |r.states|
    ensures Inv(r.states[i])
  {
    if i > 0 {
      InvAlways(r, i - 1);
      assert StepAt(r, i - 1);
      InvStep(r.states[i - 1], r.acts[i - 1]);
    }
  }

  // ------------------------------------------------------------------ theorems

  /** In every interleaving a request is claimed at most once and its handler
      starts at most once, over all the attempts that reuse its id. */
  lemma {:induction false} HandlerStartsAtMostOnce(r: Trace, i: nat, id: Id)
    requires Run(r) && i < |r.states|
    ensures r.states[i].starts[id] <= 1
    ensures var ts := r.states[i].tickets;
            forall k, m :: 0 <= k < |ts| && 0 <= m < |ts| && ts[k].id == ts[m].id ==> k == m
  {
    InvAlways(r, i);
    var s := r.states[i];
    if id in s.starts {
      var k :| 0 <= k < |s.tickets| && s.tickets[k].id == id;
    }
  }

  /** The client tries this request again between points `i` and `k`. */
  ghost predicate Retries(r: Trace, i: nat, k: nat, id: Id)
    requires Run(r) && i <= k < |r.states|
  {
    exists m :: i <= m < k && Begins(r.acts[m], id)
  }

  predicate Begins(a: Action, id: Id) {
    a.ByClient? && a.id == id && a.client.Begin?
  }

  /** A client that got `Ok(None)` knows that its handler has not run, and, unless
      it sends the request again, never will; its request file is gone too. */
  lemma {:induction false} NoDaemonMeansNeverRun(r: Trace, i: nat, k: nat, id: Id)
    requires Run(r) && i <= k < |r.states|
    requires id in r.states[i].clients && r.states[i].clients[id] == Returned(NoDaemon)
    requires !Retries(r, i, k, id)
    ensures r.states[k].starts[id] == 0
    ensures id in r.states[k].clients && r.states[k].clients[id] == Returned(NoDaemon)
    ensures Request(id) !in r.states[k].dir && Unclaimed(r.states[k], id)
    decreases k
  {
    InvAlways(r, k);
    if i < k {
      assert !Begins(r.acts[k - 1], id);
      NoDaemonMeansNeverRun(r, i, k - 1, id);
      assert StepAt(r, k - 1);
    }
  }

  /** A client that got output got what its own handler returned, in its one run. */
  lemma {:induction false} OutputIsTheHandlers(r: Trace, i: nat, id: Id)
    requires Run(r) && i < |r.states|
    requires id in r.states[i].clients && r.states[i].clients[id].Returned?
    requires r.states[i].clients[id].outcome.Output?
    ensures var s := r.states[i];
            s.starts[id] == 1 && id in s.answers && s.answers[id] == Success(s.clients[id].outcome.text)
  {
    InvAlways(r, i);
    assert ClientHonest(r.states[i], id);
  }

  /** A ticket whose handler has returned sends exactly what it returned, and its reply file
      holds that whole; without a handler's answer, both are a failure. */
  lemma {:induction false} ReplyCarriesAnswer(r: Trace, i: nat, k: nat)
    requires Run(r) && i < |r.states| && k < |r.states[i].tickets|
    ensures var s, t := r.states[i], r.states[i].tickets[k];
            var due := if t.id in s.answers then s.answers[t.id] else Failure;
            && (t.stage.Publishing? || t.stage.Replying? || t.stage.Linking? ==> t.stage.verdict == due)
            && (Reply(t.id) in s.dir ==> s.dir[Reply(t.id)] == Answer(due))
  {
    InvAlways(r, i);
    assert TicketHonest(r.states[i], r.states[i].tickets[k]);
  }

  /** A client that takes a reply returns its handler's output if and only if the handler
      succeeded, and an error otherwise. */
  lemma {:induction false} TakenReplyDecides(r: Trace, i: nat, id: Id)
    requires Run(r) && i < |r.acts| && r.acts[i] == ByClient(id, TakeReply)
    ensures var s, s' := r.states[i], r.states[i + 1];
            && id in s'.clients
            && s'.clients[id] == Returned(if id in s.answers && s.answers[id].Success? then Output(s.answers[id].output) else Error)
  {
    InvAlways(r, i);
    assert StepAt(r, i);
    var s := r.states[i];
    assert ClientHonest(s, id);
    var k :| 0 <= k < |s.tickets| && s.tickets[k].id == id;
    assert TicketHonest(s, s.tickets[k]);
  }

  // ------------------------------------------------------------------ delivery

  /** Run `r'` continues run `r`. */
  ghost predicate Continues(r: Trace, r': Trace) {
    Run(r) && Run(r') && r.states <= r'.states && r.acts <= r'.acts
  }

  ghost function Last(r: Trace): State
    requires Run(r)
  {
    r.states[|r.acts|]
  }

  lemma {:induction false} ExtendRun(r: Trace, a: Action) returns (r': Trace)
    requires Run(r) && Enabled(Last(r), a)
    ensures Continues(r, r') && Last(r') == Apply(Last(r), a)
  {
    var n := |r.acts|;
    r' := Trace(r.states + [Apply(r.states[n], a)], r.acts + [a]);
    forall i | 0 <= i < |r'.acts|
      ensures StepAt(r', i)
    {
      if i < n {
        assert StepAt(r, i);
      }
    }
  }

  lemma {:induction false} ContinuesOn(a: Trace, b: Trace, c: Trace)
    requires Continues(a, b) && Continues(b, c)
    ensures Continues(a, c)
  {
    PrefixTransitive(a.states, b.states, c.states);
    PrefixTransitive(a.acts, b.acts, c.acts);
  }

  lemma {:induction false} PrefixTransitive<T>(a: seq<T>, b: seq<T>, c: seq<T>)
    requires a <= b <= c
    ensures a <= c
  {
  }

  /** The client waits for ticket `k` to be answered with `v`, and that can still happen. */
  ghost predicate Deliverable(s: State, k: nat, v: Verdict) {
    && k < |s.tickets| && s.tickets[k].id in s.clients && s.clients[s.tickets[k].id] == Waiting
    && Due(s, s.tickets[k].id) == v && CanReply(s, s.tickets[k])
  }

  /** The verdict is on its way, and neither the temporary nor the reply file was discarded. */
  ghost predicate CanReply(s: State, t: Ticket) {
    || t.stage.Publishing? || t.stage.Replying?
    || (t.stage.Linking? && ReplyTmp(t.id) in s.dir)
    || Reply(t.id) in s.dir
  }

  function ToReply(stage: Stage): nat {
    match stage
    case Publishing(_) => 3
    case Replying(_) => 2
    case Linking(_) => 1
    case _ => 0
  }

  function SendStep(stage: Stage): ServerStep {
    match stage
    case Publishing(_) => RemoveClaimed
    case Replying(_) => WriteReply
    case _ => LinkReply
  }

  lemma {:induction false} ReplyAdvances(s: State, k: nat, v: Verdict)
    requires Inv(s) && Deliverable(s, k, v) && Reply(s.tickets[k].id) !in s.dir
    ensures var a := ByServer(k, SendStep(s.tickets[k].stage));
            && Enabled(s, a) && Deliverable(Apply(s, a), k, v)
            && Apply(s, a).tickets[k].id == s.tickets[k].id
            && ToReply(Apply(s, a).tickets[k].stage) < ToReply(s.tickets[k].stage)
  {
    assert TicketHonest(s, s.tickets[k]);
    match s.tickets[k].stage {
      case Publishing(_) =>
      case Replying(_) =>
      case Linking(_) =>
    }
  }

  /** What the client returns when its handler's verdict reaches it. */
  function OutcomeOf(v: Verdict): Outcome {
    if v.Success? then Output(v.output) else Error
  }

  ghost predicate EndsWith(r: Trace, r': Trace, id: Id, o: Outcome) {
    Continues(r, r') && id in Last(r').clients && Last(r').clients[id] == Returned(o)
  }

  lemma {:induction false} Deliver(r: Trace, k: nat, v: Verdict) returns (r': Trace)
    requires Run(r) && Deliverable(Last(r), k, v)
    ensures EndsWith(r, r', Last(r).tickets[k].id, OutcomeOf(v))
    decreases ToReply(Last(r).tickets[k].stage)
  {
    var s := Last(r);
    var id := s.tickets[k].id;
    InvAlways(r, |r.acts|);
    if Reply(id) in s.dir {
      r' := Collect(r, k, v);
    } else {
      ReplyAdvances(s, k, v);
      var r1 := ExtendRun(r, ByServer(k, SendStep(s.tickets[k].stage)));
      r' := Deliver(r1, k, v);
      ContinuesOn(r, r1, r');
    }
  }

  lemma {:induction false} Collect(r: Trace, k: nat, v: Verdict) returns (r': Trace)
    requires Run(r) && Deliverable(Last(r), k, v) && Reply(Last(r).tickets[k].id) in Last(r).dir
    ensures EndsWith(r, r', Last(r).tickets[k].id, OutcomeOf(v))
  {
    var id := Last(r).tickets[k].id;
    InvAlways(r, |r.acts|);
    assert TicketHonest(Last(r), Last(r).tickets[k]);
    var r1 := ExtendRun(r, ByClient(id, ReadReply));
    r' := ExtendRun(r1, ByClient(id, TakeReply));
    ContinuesOn(r, r1, r');
  }

  /** The reply can no longer come: its file is gone and will not be written again. */
  ghost predicate Lost(s: State, k: nat) {
    && k < |s.tickets| && s.tickets[k].id in s.clients
    && !CanReply(s, s.tickets[k]) && (s.tickets[k].stage == Closed || s.tickets[k].stage.Linking?)
    && var c := s.clients[s.tickets[k].id]; !c.Reading? && !(c.Returned? && c.outcome.Output?)
  }

  lemma {:induction false} LostByClient(s: State, k: nat, id: Id, step: ClientStep)
    requires Lost(s, k) && Enabled(s, ByClient(id, step))
    ensures Lost(Apply(s, ByClient(id, step)), k)
  {
    ClientKeepsReplies(s, id, step);
    ClientReads(s, id, step);
  }

  lemma {:induction false} LostByServer(s: State, k: nat, i: nat, step: ServerStep)
    requires OnePlace(s) && Lost(s, k) && Enabled(s, ByServer(i, step))
    ensures Lost(Apply(s, ByServer(i, step)), k)
  {
    ServerKeepsOthers(s, s.tickets[i], step);
    assert i != k ==> s.tickets[i].id != s.tickets[k].id;
  }

  lemma {:induction false} LostStep(s: State, k: nat, a: Action)
    requires OnePlace(s) && Lost(s, k) && Enabled(s, a)
    ensures Lost(Apply(s, a), k) && Apply(s, a).tickets[k].id == s.tickets[k].id
  {
    match a {
      case ByClient(id, step) => LostByClient(s, k, id, step);
      case ByServer(i, step) => LostByServer(s, k, i, step);
      case ClaimRequest(_) =>
      case Discard(_) =>
    }
  }

  lemma {:induction false} LostStays(r: Trace, i: nat, n: nat, k: nat)
    requires Run(r) && i <= n < |r.states| && Lost(r.states[i], k)
    ensures Lost(r.states[n], k) && r.states[n].tickets[k].id == r.states[i].tickets[k].id
    decreases n
  {
    if i < n {
      LostStays(r, i, n - 1, k);
      InvAlways(r, n - 1);
      assert StepAt(r, n - 1);
      LostStep(r.states[n - 1], k, r.acts[n - 1]);
    }
  }

  /** Exactly when a handler's output can still reach its waiting client: while the server
      has yet to write it, or its temporary or reply file is in the directory. */
  lemma {:induction false} OutputReachesExactly(r: Trace, k: nat, x: Text)
    requires Run(r) && k < |Last(r).tickets|
    requires var s, id := Last(r), Last(r).tickets[k].id;
             && id in s.clients && s.clients[id] == Waiting
             && id in s.answers && s.answers[id] == Success(x)
    ensures var s, t := Last(r), Last(r).tickets[k];
            (exists r' :: EndsWith(r, r', t.id, Output(x))) <==>
              || t.stage.Publishing? || t.stage.Replying?
              || (t.stage.Linking? && ReplyTmp(t.id) in s.dir)
              || Reply(t.id) in s.dir
  {
    var s, t := Last(r), Last(r).tickets[k];
    InvAlways(r, |r.acts|);
    assert TicketHonest(s, t);
    if CanReply(s, t) {
      var r' := Deliver(r, k, Success(x));
    } else if r' :| EndsWith(r, r', t.id, Output(x)) {
      assert StartsCounted(s) && Lost(s, k);
      assert r'.states[|r.acts|] == s;
      LostStays(r', |r.acts|, |r'.acts|, k);
    }
  }

  // ------------------------------------------------------------------ refusals

  ghost predicate Publishes(r: Trace, r': Trace, id: Id, v: Verdict) {
    Continues(r, r') && Reply(id) in Last(r').dir && Last(r').dir[Reply(id)] == Answer(v)
  }

  lemma {:induction false} SendAdvances(s: State, k: nat)
    requires k < |s.tickets| && CanReply(s, s.tickets[k]) && Reply(s.tickets[k].id) !in s.dir
    ensures var a := ByServer(k, SendStep(s.tickets[k].stage));
            && Enabled(s, a) && Apply(s, a).tickets[k].id == s.tickets[k].id && Apply(s, a).answers == s.answers
            && CanReply(Apply(s, a), Apply(s, a).tickets[k])
            && ToReply(Apply(s, a).tickets[k].stage) < ToReply(s.tickets[k].stage)
  {
    match s.tickets[k].stage {
      case Publishing(_) =>
      case Replying(_) =>
      case Linking(_) =>
    }
  }

  lemma {:induction false} PublishReply(r: Trace, k: nat) returns (r': Trace)
    requires Run(r) && k < |Last(r).tickets| && CanReply(Last(r), Last(r).tickets[k])
    ensures Publishes(r, r', Last(r).tickets[k].id, Due(Last(r), Last(r).tickets[k].id))
    decreases ToReply(Last(r).tickets[k].stage)
  {
    var s := Last(r);
    if Reply(s.tickets[k].id) in s.dir {
      InvAlways(r, |r.acts|);
      assert TicketHonest(s, s.tickets[k]);
      r' := r;
    } else {
      SendAdvances(s, k);
      var r1 := ExtendRun(r, ByServer(k, SendStep(s.tickets[k].stage)));
      r' := PublishReply(r1, k);
      ContinuesOn(r, r1, r');
    }
  }

  lemma {:induction false} RefusalSends(s: State, k: nat, step: ServerStep)
    requires Enabled(s, ByServer(k, step)) && (step == Submit(false) || step == RejectRequest)
    ensures var s' := Apply(s, ByServer(k, step));
            && s'.tickets[k].stage.Publishing? && s'.tickets[k].id == s.tickets[k].id
            && s'.answers == s.answers && s'.tickets[k].ran == s.tickets[k].ran
  {
  }

  /** A request that the full pool refuses, or that cannot be read, is told so: some continuation
      publishes a failure, and its handler never started. */
  lemma {:induction false} RefusalIsPublished(r: Trace, k: nat, step: ServerStep) returns (r': Trace)
    requires Run(r) && Enabled(Last(r), ByServer(k, step)) && (step == Submit(false) || step == RejectRequest)
    ensures Publishes(r, r', Last(r).tickets[k].id, Failure) && Last(r).starts[Last(r).tickets[k].id] == 0
  {
    InvAlways(r, |r.acts|);
    var s := Last(r);
    assert TicketHonest(s, s.tickets[k]) && StartsCounted(s);
    RefusalSends(s, k, step);
    var r1 := ExtendRun(r, ByServer(k, step));
    r' := PublishReply(r1, k);
    ContinuesOn(r, r1, r');
  }

  // ------------------------------------------------------------------ what is cleared away

  /** The client has returned for good. */
  predicate Final(c: Client) {
    c.Returned? && c.outcome != NoDaemon
  }

  /** The request was never claimed and its file is gone for good. */
  ghost predicate Dead(s: State, id: Id) {
    id in s.clients && Final(s.clients[id]) && Request(id) !in s.dir && Unclaimed(s, id)
  }

  lemma {:induction false} DeadStep(s: State, a: Action, id: Id)
    requires Dead(s, id) && Enabled(s, a)
    ensures Dead(Apply(s, a), id)
  {
    UnclaimedAfter(s, a, id);
    match a {
      case ByClient(o, step) => ClientMoves(s, o, step);
      case ByServer(k, step) => ServerKeepsOthers(s, s.tickets[k], step);
      case ClaimRequest(_) =>
      case Discard(_) =>
    }
  }

  /** A request that timed out before any server claimed it is never claimed and never runs. */
  lemma {:induction false} TimedOutNeverRuns(r: Trace, i: nat, k: nat, id: Id)
    requires Run(r) && i < k < |r.states| && r.acts[i] == ByClient(id, RemoveLate) && Unclaimed(r.states[i], id)
    ensures Dead(r.states[k], id) && r.states[k].starts[id] == 0
    decreases k
  {
    assert StepAt(r, k - 1);
    InvAlways(r, k);
    if k == i + 1 {
      UnclaimedAfter(r.states[i], r.acts[i], id);
    } else {
      TimedOutNeverRuns(r, i, k - 1, id);
      DeadStep(r.states[k - 1], r.acts[k - 1], id);
    }
  }

  /** The client gave up on a claimed request whose claim file is gone. */
  ghost predicate Abandoned(s: State, id: Id) {
    id in s.clients && Final(s.clients[id]) && Request(id) !in s.dir && Claim(id) !in s.dir
  }

  lemma {:induction false} AbandonedStep(s: State, a: Action, id: Id)
    requires Abandoned(s, id) && Enabled(s, a)
    ensures Abandoned(Apply(s, a), id) && Apply(s, a).starts[id] == s.starts[id]
  {
    match a {
      case ByClient(o, step) => ClientMoves(s, o, step);
      case ByServer(k, step) => ServerKeepsOthers(s, s.tickets[k], step);
      case ClaimRequest(_) =>
      case Discard(_) =>
    }
  }

  /** A client that removes the claim of a vanished server stops the request: its handler does
      not start any more, if its request file is gone as well. */
  lemma {:induction false} RemovedClaimNeverStarts(r: Trace, i: nat, k: nat, id: Id)
    requires Run(r) && i < k < |r.states| && r.acts[i] == ByClient(id, RemoveClaim) && Request(id) !in r.states[i].dir
    ensures Abandoned(r.states[k], id) && r.states[k].starts[id] == r.states[i].starts[id]
    decreases k
  {
    assert StepAt(r, k - 1);
    if k > i + 1 {
      RemovedClaimNeverStarts(r, i, k - 1, id);
      AbandonedStep(r.states[k - 1], r.acts[k - 1], id);
    }
  }

  ghost predicate Collected(s: State, k: nat) {
    k < |s.tickets| && s.tickets[k].stage == Closed && Reply(s.tickets[k].id) !in s.dir
  }

  lemma {:induction false} CollectedStep(s: State, a: Action, k: nat)
    requires OnePlace(s) && Collected(s, k) && Enabled(s, a)
    ensures Collected(Apply(s, a), k) && Apply(s, a).tickets[k].id == s.tickets[k].id
  {
    match a {
      case ByClient(o, step) => ClientKeepsReplies(s, o, step);
      case ByServer(i, step) =>
        ServerKeepsOthers(s, s.tickets[i], step);
        assert i != k ==> s.tickets[i].id != s.tickets[k].id;
      case ClaimRequest(_) =>
      case Discard(_) =>
    }
  }

  lemma {:induction false} CollectedStays(r: Trace, i: nat, n: nat, k: nat)
    requires Run(r) && i <= n < |r.states| && Collected(r.states[i], k)
    ensures Collected(r.states[n], k) && r.states[n].tickets[k].id == r.states[i].tickets[k].id
    decreases n
  {
    if i < n {
      CollectedStays(r, i, n - 1, k);
      InvAlways(r, n - 1);
      assert StepAt(r, n - 1);
      CollectedStep(r.states[n - 1], r.acts[n - 1], k);
    }
  }

  /** A reply is taken once: its file is gone and never written again. */
  lemma {:induction false} TakenReplyIsGone(r: Trace, i: nat, n: nat, id: Id)
    requires Run(r) && i < n < |r.states| && r.acts[i] == ByClient(id, TakeReply)
    ensures Reply(id) !in r.states[n].dir
  {
    InvAlways(r, i);
    assert StepAt(r, i);
    var k := TakenFrom(r.states[i], id);
    CollectedStays(r, i + 1, n, k);
  }

  lemma {:induction false} TakenFrom(s: State, id: Id) returns (k: nat)
    requires Inv(s) && Enabled(s, ByClient(id, TakeReply))
    ensures Collected(Apply(s, ByClient(id, TakeReply)), k) && k < |s.tickets| && s.tickets[k].id == id
  {
    assert ClientHonest(s, id);
    k :| 0 <= k < |s.tickets| && s.tickets[k].id == id;
    assert TicketHonest(s, s.tickets[k]);
  }

  /** Once a ticket is being answered its claim file is gone, so nothing else can run it. */
  lemma {:induction false} AnsweredClaimIsGone(r: Trace, i: nat, n: nat, k: nat)
    requires Run(r) && i < n < |r.states| && r.acts[i] == ByServer(k, RemoveClaimed)
    ensures k < |r.states[i].tickets| && Claim(r.states[i].tickets[k].id) !in r.states[n].dir
    ensures k < |r.states[n].tickets| && r.states[n].tickets[k].id == r.states[i].tickets[k].id
    decreases n
  {
    assert StepAt(r, i) && StepAt(r, n - 1);
    if n > i + 1 {
      AnsweredClaimIsGone(r, i, n - 1, k);
      InvAlways(r, n - 1);
      ClaimStaysGone(r.states[n - 1], r.acts[n - 1], k);
    }
  }

  lemma {:induction false} ClaimStaysGone(s: State, a: Action, k: nat)
    requires OnePlace(s) && Enabled(s, a) && k < |s.tickets| && Claim(s.tickets[k].id) !in s.dir
    ensures var s' := Apply(s, a);
            k < |s'.tickets| && s'.tickets[k].id == s.tickets[k].id && Claim(s.tickets[k].id) !in s'.dir
  {
    assert !Unclaimed(s, s.tickets[k].id);
    match a {
      case ByClient(o, step) =>
      case ByServer(i, step) => ServerKeepsOthers(s, s.tickets[i], step);
      case ClaimRequest(_) =>
      case Discard(_) =>
    }
  }

  /** A client is told that no daemon is there exactly when it sees no heartbeat, when writing
      its request fails in a way that says so, or when it withdraws the request in time. */
  lemma {:induction false} NoDaemonExactly(r: Trace, i: nat, id: Id, step: ClientStep)
    requires Run(r) && i < |r.acts| && r.acts[i] == ByClient(id, step)
    ensures id in r.states[i].clients && id in r.states[i + 1].clients
    ensures r.states[i + 1].clients[id] == Returned(NoDaemon) <==>
              || step == Begin(false) || step == Withdraw
              || step == WriteFails(true, NoDaemon) || step == WriteFails(false, NoDaemon) || step == PublishFails(NoDaemon)
  {
    assert StepAt(r, i);
  }

  /** A job that the pool drops is never answered. */
  lemma {:induction false} DroppedIsNeverAnswered(r: Trace, i: nat, n: nat, k: nat)
    requires Run(r) && i < n < |r.states| && r.acts[i] == ByServer(k, DropJob)
    ensures k < |r.states[i].tickets| && Reply(r.states[i].tickets[k].id) !in r.states[n].dir
  {
    InvAlways(r, i);
    assert StepAt(r, i);
    assert TicketHonest(r.states[i], r.states[i].tickets[k]);
    CollectedStays(r, i + 1, n, k);
  }

  /** A client past its deadline is told of an error, whatever becomes of the request. */
  lemma {:induction false} DeadlineFails(r: Trace, i: nat, n: nat, id: Id)
    requires Run(r) && i < n < |r.states| && r.acts[i] == ByClient(id, ReachDeadline)
    ensures id in r.states[n].clients
    ensures var c := r.states[n].clients[id]; c == TimingOut || c == Returned(Error) || c == Crashed
    decreases n
  {
    assert StepAt(r, n - 1);
    if n > i + 1 {
      DeadlineFails(r, i, n - 1, id);
    }
  }

  /** A client that loses the heartbeat while its request waits can take it back and learn that
      no daemon is there. */
  lemma {:induction false} LostHeartbeatWithdraws(r: Trace, id: Id) returns (r': Trace)
    requires Run(r) && Enabled(Last(r), ByClient(id, LoseHeartbeat)) && Request(id) in Last(r).dir
    ensures EndsWith(r, r', id, NoDaemon)
  {
    var r1 := ExtendRun(r, ByClient(id, LoseHeartbeat));
    r' := ExtendRun(r1, ByClient(id, Withdraw));
    ContinuesOn(r, r1, r');
  }

  // ------------------------------------------------------------------ a whole exchange

  /** A claimed request can be run and answered with any verdict. */
  lemma {:induction false} Serve(r: Trace, id: Id, v: Verdict) returns (r': Trace)
    requires Run(r) && id in Last(r).clients && Last(r).clients[id] == Waiting && Request(id) in Last(r).dir
    ensures EndsWith(r, r', id, OutcomeOf(v))
  {
    var k := |Last(r).tickets|;
    InvAlways(r, |r.acts|);
    var r1 := ExtendRun(r, ClaimRequest(id));
    var r2 := ExtendRun(r1, ByServer(k, Submit(true)));
    var r3 := ExtendRun(r2, ByServer(k, RunJob));
    ContinuesOn(r, r1, r2);
    ContinuesOn(r, r2, r3);
    r' := RunAndAnswer(r3, k, v);
    ContinuesOn(r, r3, r');
  }

  lemma {:induction false} RunAndAnswer(r: Trace, k: nat, v: Verdict) returns (r': Trace)
    requires Run(r) && k < |Last(r).tickets|
    requires var s, t := Last(r), Last(r).tickets[k];
             && t.stage == Answering && t.id in s.clients && s.clients[t.id] == Waiting
             && Claim(t.id) in s.dir && s.dir[Claim(t.id)] == Arguments
    ensures EndsWith(r, r', Last(r).tickets[k].id, OutcomeOf(v))
  {
    var r1 := ExtendRun(r, ByServer(k, StartHandler));
    var r2 := ExtendRun(r1, ByServer(k, Handle(v)));
    r' := Deliver(r2, k, v);
    ContinuesOn(r, r1, r2);
    ContinuesOn(r, r2, r');
  }

  lemma {:induction false} Send(r: Trace, id: Id) returns (r': Trace)
    requires Run(r) && id in Last(r).clients && (Last(r).clients[id] == Fresh || Last(r).clients[id] == Returned(NoDaemon))
    ensures Continues(r, r') && id in Last(r').clients && Last(r').clients[id] == Waiting && Request(id) in Last(r').dir
  {
    var r1 := ExtendRun(r, ByClient(id, Begin(true)));
    var r2 := ExtendRun(r1, ByClient(id, WriteRequest));
    r' := ExtendRun(r2, ByClient(id, Publish));
    ContinuesOn(r, r1, r2);
    ContinuesOn(r, r2, r');
  }

  /** Every request can be served: from every point of every run, a client that has not sent its
      request, was told that no daemon is there, or waits with its request unclaimed can end
      with whatever its handler returns. */
  lemma {:induction false} RequestCanBeAnswered(r: Trace, id: Id, v: Verdict) returns (r': Trace)
    requires Run(r) && id in Last(r).clients
    requires var c := Last(r).clients[id];
             c == Fresh || c == Returned(NoDaemon) || (c == Waiting && Request(id) in Last(r).dir)
    ensures Continues(r, r') && id in Last(r').clients
    ensures Last(r').clients[id] == Returned(if v.Success? then Output(v.output) else Error)
  {
    if Last(r).clients[id] == Waiting {
      r' := Serve(r, id, v);
    } else {
      var r1 := Send(r, id);
      r' := Serve(r1, id, v);
      ContinuesOn(r, r1, r');
    }
  }
}
