/** The asynchronous login server: any number of workers, each draining its own completion queue,
    self-deleting call handlers, and the connection pool they share. Every event is one atomic
    action of a worker or of the runtime underneath; all interleavings are covered. */
module LoginService {
  import opened Wrappers
  import opened Sums
  import opened Wire
  import opened Codec
  import opened Login
  import Pool = PoolMonitor

  /** `_state` of a handler, and the end of its life. */
  datatype HandlerState = WAIT | FINISH | DELETED

  /** `finishes` counts the calls of `_responder.Finish` for this handler. */
  datatype Handler = Handler(queue: nat, state: HandlerState, request: Option<RequestValue>,
                             response: ResponseValue, finishes: nat)

  datatype Kind = LoginOp | FinishOp

  /** An operation registered with a completion queue under a handler as its tag; `ok` is known
      once its event is ready in the queue. */
  datatype Operation = Operation(tag: nat, queue: nat, kind: Kind, ok: Option<bool>)

  /** Where worker `w` is in its loop. */
  datatype Stage =
    | Polling                                           // inside cq->Next
    | Dispatch(op: Operation)                           // Next has returned this tag and isOk
    | Marking(h: nat)                                   // proceed: successor spawned, _state still WAIT
    | Serving(h: nat)                                   // handleLogin: acquiring or holding a connection
    | Replying(h: nat, result: Option<QueryResult>)     // outcome known, connection going back, then Finish
    | Stopped                                           // Next has returned false

  datatype Reply = Reply(handler: nat, request: RequestValue, result: Option<QueryResult>,
                         status: Status, response: ResponseValue)

  datatype Service = Service(pool: Pool.Monitor, hasPool: bool, stage: seq<Stage>,
                             handlers: seq<Handler>, ops: seq<Operation>, log: seq<Reply>, down: bool)

  datatype Event =
    // the runtime and the operating system
    | Match(i: nat, request: RequestValue)   // a request arrives for a registered handler
    | Cancel(i: nat)                         // a registration is flushed out after shutdown
    | Complete(i: nat, sent: bool)           // a reply has left, or its call is gone
    | Shutdown
    | Spurious(w: nat)
    // the workers
    | Next(w: nat, i: nat)
    | Delete(w: nat)
    | Spawn(w: nat)
    | Mark(w: nat)
    | Borrow(w: nat, action: Pool.Event)     // one action inside acquire or release
    | Answer(w: nat, database: Bytes -> QueryResult)  // the query is done, the RAII scope ends
    | Post(w: nat)
    | Stop(w: nat)

  function StateOf(s: Service, h: nat): HandlerState {
    if h < |s.handlers| then s.handlers[h].state else DELETED
  }

  function RequestOf(h: Handler): RequestValue {
    if h.request.Some? then h.request.value else EMPTY_REQUEST
  }

  predicate Pending(s: Service, i: nat, kind: Kind) {
    i < |s.ops| && s.ops[i].kind == kind && s.ops[i].ok.None?
  }

  predicate Enabled(s: Service, e: Event) {
    match e
    case Match(i, _) => Pending(s, i, LoginOp) && s.ops[i].tag < |s.handlers| && !s.down
    case Cancel(i) => Pending(s, i, LoginOp) && s.down
    case Complete(i, _) => Pending(s, i, FinishOp)
    case Shutdown => !s.down
    case Spurious(w) => s.hasPool && Pool.Enabled(s.pool, Pool.Wake(w))
    case Next(w, i) => w < |s.stage| && s.stage[w].Polling? && i < |s.ops| && s.ops[i].queue == w && s.ops[i].ok.Some?
    case Delete(w) =>
      w < |s.stage| && s.stage[w].Dispatch? &&
      (s.stage[w].op.ok == Some(false) || StateOf(s, s.stage[w].op.tag) == FINISH)
    case Spawn(w) =>
      w < |s.stage| && s.stage[w].Dispatch? &&
      s.stage[w].op.ok == Some(true) && StateOf(s, s.stage[w].op.tag) == WAIT
    case Mark(w) =>
      w < |s.stage| && s.stage[w].Marking? && s.stage[w].h < |s.handlers| &&
      (s.hasPool ==> Pool.Enabled(s.pool, Pool.Enter(w)))
    case Borrow(w, a) =>
      s.hasPool && a.w == w && !a.Enter? && !a.Return? && !a.Wake? && Pool.Enabled(s.pool, a)
    case Answer(w, _) =>
      w < |s.stage| && s.stage[w].Serving? && s.stage[w].h < |s.handlers| &&
      s.hasPool && Pool.Enabled(s.pool, Pool.Return(w))
    case Post(w) =>
      w < |s.stage| && s.stage[w].Replying? && s.stage[w].h < |s.handlers| &&
      (s.hasPool ==> w < |s.pool.phase| && s.pool.phase[w].Outside?)
    case Stop(w) =>
      w < |s.stage| && s.stage[w].Polling? && s.down && forall i | 0 <= i < |s.ops| :: s.ops[i].queue != w
  }

  /** The CallHandler constructor: a new handler that registers itself with queue `q`. */
  function Construct(s: Service, q: nat): Service {
    s.(handlers := s.handlers + [Handler(q, WAIT, None, EMPTY_RESPONSE, 0)],
       ops := s.ops + [Operation(|s.handlers|, q, LoginOp, None)])
  }

  function Ready(s: Service, i: nat, ok: bool): seq<Operation>
    requires i < |s.ops|
  {
    s.ops[i := s.ops[i].(ok := Some(ok))]
  }

  function Step(s: Service, e: Event): Service
    requires Enabled(s, e)
  {
    match e
    case Match(i, request) =>
      var h := s.ops[i].tag;
      s.(ops := Ready(s, i, true), handlers := s.handlers[h := s.handlers[h].(request := Some(request))])
    case Cancel(i) => s.(ops := Ready(s, i, false))
    case Complete(i, sent) => s.(ops := Ready(s, i, sent))
    case Shutdown => s.(down := true)
    case Spurious(w) => s.(pool := Pool.Step(s.pool, Pool.Wake(w)))
    case Next(w, i) => s.(stage := s.stage[w := Dispatch(s.ops[i])], ops := s.ops[..i] + s.ops[i + 1..])
    case Delete(w) =>
      var h := s.stage[w].op.tag;
      s.(stage := s.stage[w := Polling],
         handlers := if h < |s.handlers| then s.handlers[h := s.handlers[h].(state := DELETED)] else s.handlers)
    case Spawn(w) =>
      Construct(s, s.handlers[s.stage[w].op.tag].queue).(stage := s.stage[w := Marking(s.stage[w].op.tag)])
    case Mark(w) =>
      var h := s.stage[w].h;
      s.(stage := s.stage[w := if s.hasPool then Serving(h) else Replying(h, None)],
         handlers := s.handlers[h := s.handlers[h].(state := FINISH)],
         pool := if s.hasPool then Pool.Step(s.pool, Pool.Enter(w)) else s.pool)
    case Borrow(w, a) => s.(pool := Pool.Step(s.pool, a))
    case Answer(w, database) =>
      var h, request := s.stage[w].h, RequestOf(s.handlers[s.stage[w].h]);
      var result := Some(database(UserOf(request).email));
      s.(stage := s.stage[w := Replying(h, result)],
         handlers := s.handlers[h := s.handlers[h].(response := Outcome(request, result).1)],
         pool := Pool.Step(s.pool, Pool.Return(w)))
    case Post(w) =>
      var h, hd := s.stage[w].h, s.handlers[s.stage[w].h];
      s.(stage := s.stage[w := Polling],
         handlers := s.handlers[h := hd.(finishes := hd.finishes + 1)],
         ops := s.ops + [Operation(h, hd.queue, FinishOp, None)],
         log := s.log + [Reply(h, RequestOf(hd), s.stage[w].result, Outcome(RequestOf(hd), s.stage[w].result).0,
                               hd.response)])
    case Stop(w) => s.(stage := s.stage[w := Stopped])
  }

  // ----- the start of the server ----------------------------------------------------------

  ghost function Populate(s: Service, q: nat, k: nat): Service {
    if k == 0 then s else Construct(Populate(s, q, k - 1), q)
  }

  ghost function PopulateQueues(s: Service, queues: nat, k: nat): Service {
    if queues == 0 then s else Populate(PopulateQueues(s, queues - 1, k), queues - 1, k)
  }

  datatype Config = Config(workers: nat, perQueue: nat, connections: seq<Pool.Connection>, hasPool: bool)

  /** What `run` sets up before the workers start: `perQueue` handlers on each worker's queue. */
  ghost function Start(c: Config): Service {
    PopulateQueues(Idle(c), c.workers, c.perQueue)
  }

  ghost function Idle(c: Config): Service {
    Service(Pool.Monitor(None, c.connections, seq(c.workers, _ => Pool.Outside)), c.hasPool,
            seq(c.workers, _ => Polling), [], [], [], false)
  }

  ghost predicate Run(s: Service, es: seq<Event>)
    decreases |es|, 0
  {
    es == [] || (Run(s, es[..|es| - 1]) && Enabled(After(s, es[..|es| - 1]), es[|es| - 1]))
  }

  ghost function After(s: Service, es: seq<Event>): Service
    requires Run(s, es)
    decreases |es|, 1
  {
    if es == [] then s else Step(After(s, es[..|es| - 1]), es[|es| - 1])
  }

  // ----- the inductive invariant ----------------------------------------------------------

  ghost function TagIs(h: nat): Operation -> nat { (op: Operation) => if op.tag == h then 1 else 0 }

  ghost function OnQueue(q: nat): Operation -> nat { (op: Operation) => if op.queue == q then 1 else 0 }

  ghost predicate Runs(st: Stage, h: nat) {
    match st
    case Dispatch(op) => op.tag == h
    case Marking(g) => g == h
    case Serving(g) => g == h
    case Replying(g, _) => g == h
    case _ => false
  }

  ghost function RunsHandler(h: nat): Stage -> nat { (st: Stage) => if Runs(st, h) then 1 else 0 }

  ghost predicate IsLive(s: Service, h: nat) { h < |s.handlers| && s.handlers[h].state != DELETED }

  ghost function Owners(s: Service, h: nat): nat { Sum(s.ops, TagIs(h)) + Sum(s.stage, RunsHandler(h)) }

  /** A live handler has one owner, its outstanding tag or the worker running it; nothing refers
      to a deleted one. */
  ghost predicate OwnerInv(s: Service) {
    forall h: nat :: Owners(s, h) == if IsLive(s, h) then 1 else 0
  }

  ghost predicate OpOk(s: Service, op: Operation) {
    && op.tag < |s.handlers|
    && var hd := s.handlers[op.tag];
       && op.queue == hd.queue < |s.stage|
       && (op.kind.LoginOp? ==>
             && hd.state == WAIT
             && (hd.request.Some? <==> op.ok == Some(true)) && (op.ok == Some(false) ==> s.down))
       && (op.kind.FinishOp? ==> hd.state == FINISH && hd.finishes == 1 && hd.request.Some?)
  }

  ghost predicate StageOk(s: Service, w: nat)
    requires w < |s.stage|
  {
    match s.stage[w]
    case Dispatch(op) => OpOk(s, op) && op.queue == w && op.ok.Some?
    case Marking(h) =>
      h < |s.handlers| && s.handlers[h].queue == w && s.handlers[h].state == WAIT && s.handlers[h].request.Some?
    case Serving(h) =>
      && h < |s.handlers| && s.handlers[h].queue == w && s.handlers[h].state == FINISH
      && s.handlers[h].request.Some? && s.handlers[h].finishes == 0 && s.hasPool
    case Replying(h, result) =>
      && h < |s.handlers| && s.handlers[h].queue == w && s.handlers[h].state == FINISH
      && s.handlers[h].request.Some? && s.handlers[h].finishes == 0
      && s.handlers[h].response == Outcome(RequestOf(s.handlers[h]), result).1
      && (result.Some? <==> s.hasPool)
    case _ => true
  }

  ghost predicate HandlerOk(hd: Handler) {
    && (hd.state == WAIT ==> hd.finishes == 0 && hd.response == EMPTY_RESPONSE)
    && (hd.state == DELETED ==> hd.finishes == if hd.request.Some? then 1 else 0)
  }

  ghost predicate LocalInv(s: Service) {
    && (forall i | 0 <= i < |s.ops| :: OpOk(s, s.ops[i]))
    && (forall w | 0 <= w < |s.stage| :: StageOk(s, w))
    && (forall h | 0 <= h < |s.handlers| :: HandlerOk(s.handlers[h]))
  }

  ghost function RepliesTo(h: nat): Reply -> nat { (r: Reply) => if r.handler == h then 1 else 0 }

  ghost function Finishes(s: Service, h: nat): nat { if h < |s.handlers| then s.handlers[h].finishes else 0 }

  ghost predicate ReplyOk(s: Service, r: Reply) {
    && r.handler < |s.handlers|
    && s.handlers[r.handler].request == Some(r.request)
    && (r.status, r.response) == Outcome(r.request, r.result)
    && (r.result.Some? <==> s.hasPool)
  }

  ghost predicate LogInv(s: Service) {
    && (forall h: nat :: Sum(s.log, RepliesTo(h)) == Finishes(s, h))
    && (forall i | 0 <= i < |s.log| :: ReplyOk(s, s.log[i]))
  }

  ghost function WaitsOn(q: nat): Handler -> nat { (hd: Handler) => if hd.queue == q && hd.state == WAIT then 1 else 0 }

  ghost function Acceptors(s: Service, q: nat): nat { Sum(s.handlers, WaitsOn(q)) }

  ghost predicate AcceptInv(s: Service, k: nat) {
    !s.down ==> forall q | 0 <= q < |s.stage| :: Acceptors(s, q) == k + if s.stage[q].Marking? then 1 else 0
  }

  ghost predicate StopInv(s: Service) {
    forall w | 0 <= w < |s.stage| && s.stage[w].Stopped? :: s.down && Sum(s.ops, OnQueue(w)) == 0
  }

  /** How far into the pool a worker may be at each stage of its loop. */
  ghost predicate PhaseOk(st: Stage, p: Pool.Phase) {
    match st
    case Serving(_) => p.Entering? || p.Testing? || p.Sleeping? || p.Woken? || p.Taken? || p.Holding?
    case Replying(_, _) => p.Releasing? || p.Pushing? || p.Notifying? || p.Leaving? || p.Outside?
    case _ => p.Outside?
  }

  ghost predicate PoolInv(s: Service, all: multiset<Pool.Connection>) {
    s.hasPool ==>
      && |s.pool.phase| == |s.stage|
      && Pool.Inv(s.pool, all)
      && forall w | 0 <= w < |s.stage| :: PhaseOk(s.stage[w], s.pool.phase[w])
  }

  ghost predicate Inv(s: Service, k: nat, all: multiset<Pool.Connection>) {
    OwnerInv(s) && LocalInv(s) && LogInv(s) && AcceptInv(s, k) && StopInv(s) && PoolInv(s, all)
  }

  // ----- exclusive ownership --------------------------------------------------------------

  lemma {:induction false} RunningIsExclusive(s: Service, w: nat, h: nat)
    requires OwnerInv(s) && w < |s.stage| && Runs(s.stage[w], h)
    ensures IsLive(s, h)
    ensures forall i | 0 <= i < |s.ops| :: s.ops[i].tag != h
    ensures forall v | 0 <= v < |s.stage| && v != w :: !Runs(s.stage[v], h)
  {
    SumMember(s.stage, w, RunsHandler(h));
    assert Owners(s, h) == 1;
    forall i | 0 <= i < |s.ops| ensures s.ops[i].tag != h { SumMember(s.ops, i, TagIs(h)); }
    forall v | 0 <= v < |s.stage| && v != w
      ensures !Runs(s.stage[v], h)
    {
      SumTwoMembers(s.stage, v, w, RunsHandler(h));
    }
  }

  lemma {:induction false} OutstandingIsExclusive(s: Service, i: nat)
    requires OwnerInv(s) && i < |s.ops|
    ensures IsLive(s, s.ops[i].tag)
    ensures forall j | 0 <= j < |s.ops| && j != i :: s.ops[j].tag != s.ops[i].tag
    ensures forall v | 0 <= v < |s.stage| :: !Runs(s.stage[v], s.ops[i].tag)
  {
    var h := s.ops[i].tag;
    SumMember(s.ops, i, TagIs(h));
    assert Owners(s, h) == 1;
    forall j | 0 <= j < |s.ops| && j != i ensures s.ops[j].tag != h { SumTwoMembers(s.ops, i, j, TagIs(h)); }
    forall v | 0 <= v < |s.stage| ensures !Runs(s.stage[v], h) { SumMember(s.stage, v, RunsHandler(h)); }
  }

  // ----- each event keeps the invariant ---------------------------------------------------

  ghost predicate Delivers(e: Event) { e.Match? || e.Cancel? || e.Complete? }

  ghost predicate Registers(e: Event) { e.Spawn? || e.Post? }

  ghost predicate Moves(e: Event) {
    e.Next? || e.Delete? || e.Spawn? || e.Mark? || e.Answer? || e.Post? || e.Stop?
  }

  /** The operation an event makes ready. */
  ghost function Delivered(s: Service, e: Event): Operation
    requires Enabled(s, e) && Delivers(e)
  {
    s.ops[e.i].(ok := Some(e.Match? || (e.Complete? && e.sent)))
  }

  /** The operation an event registers. */
  ghost function Registered(s: Service, e: Event): Operation
    requires Enabled(s, e) && Registers(e)
  {
    if e.Spawn? then Operation(|s.handlers|, s.handlers[s.stage[e.w].op.tag].queue, LoginOp, None)
    else Operation(s.stage[e.w].h, s.handlers[s.stage[e.w].h].queue, FinishOp, None)
  }

  lemma OpsChange(s: Service, e: Event)
    requires Enabled(s, e)
    ensures Delivers(e) ==> Step(s, e).ops == s.ops[e.i := Delivered(s, e)]
    ensures Registers(e) ==> Step(s, e).ops == s.ops + [Registered(s, e)]
    ensures e.Next? ==> Step(s, e).ops == s.ops[..e.i] + s.ops[e.i + 1..]
    ensures !Delivers(e) && !Registers(e) && !e.Next? ==> Step(s, e).ops == s.ops
  {
  }

  lemma OpsSum(s: Service, e: Event, f: Operation -> nat)
    requires Enabled(s, e)
    ensures Delivers(e) ==> Sum(Step(s, e).ops, f) + f(s.ops[e.i]) == Sum(s.ops, f) + f(Delivered(s, e))
    ensures Registers(e) ==> Sum(Step(s, e).ops, f) == Sum(s.ops, f) + f(Registered(s, e))
    ensures e.Next? ==> Sum(Step(s, e).ops, f) + f(s.ops[e.i]) == Sum(s.ops, f)
    ensures !Delivers(e) && !Registers(e) && !e.Next? ==> Sum(Step(s, e).ops, f) == Sum(s.ops, f)
  {
    OpsChange(s, e);
    if Delivers(e) {
      SumUpdate(s.ops, e.i, Delivered(s, e), f);
    } else if Registers(e) {
      SumAppend(s.ops, Registered(s, e), f);
    } else if e.Next? {
      SumRemove(s.ops, e.i, f);
    }
  }

  lemma StageChange(s: Service, e: Event)
    requires Enabled(s, e)
    ensures |Step(s, e).stage| == |s.stage|
    ensures Moves(e) ==> e.w < |s.stage| && Step(s, e).stage == s.stage[e.w := Step(s, e).stage[e.w]]
    ensures !Moves(e) ==> Step(s, e).stage == s.stage
  {
  }

  lemma StagesSum(s: Service, e: Event, f: Stage -> nat)
    requires Enabled(s, e)
    ensures |Step(s, e).stage| == |s.stage| && (Moves(e) ==> e.w < |s.stage|)
    ensures Moves(e) ==> Sum(Step(s, e).stage, f) + f(s.stage[e.w]) == Sum(s.stage, f) + f(Step(s, e).stage[e.w])
    ensures !Moves(e) ==> Sum(Step(s, e).stage, f) == Sum(s.stage, f)
  {
    StageChange(s, e);
    if Moves(e) { SumUpdate(s.stage, e.w, Step(s, e).stage[e.w], f); }
  }

  lemma OperationsStep(s: Service, e: Event, h: nat)
    requires Enabled(s, e) && !e.Next?
    ensures Sum(Step(s, e).ops, TagIs(h)) == Sum(s.ops, TagIs(h)) +
            (if (e.Spawn? && h == |s.handlers|) || (e.Post? && h == s.stage[e.w].h) then 1 else 0)
  {
    OpsSum(s, e, TagIs(h));
  }

  /** A worker that moves on keeps its handler, until it deletes it or hands it over with Finish. */
  lemma RunsStep(s: Service, e: Event, h: nat)
    requires Enabled(s, e) && Moves(e) && !e.Next?
    ensures e.w < |Step(s, e).stage|
    ensures Runs(Step(s, e).stage[e.w], h) <==> Runs(s.stage[e.w], h) && !e.Delete? && !e.Post?
  {
  }

  lemma StagesStep(s: Service, e: Event, h: nat)
    requires Enabled(s, e) && !e.Next?
    ensures Sum(Step(s, e).stage, RunsHandler(h)) +
            (if (e.Delete? || e.Post?) && Runs(s.stage[e.w], h) then 1 else 0) ==
            Sum(s.stage, RunsHandler(h))
  {
    StagesSum(s, e, RunsHandler(h));
    if Moves(e) { RunsStep(s, e, h); }
  }

  lemma NextOwners(s: Service, w: nat, i: nat, h: nat)
    requires Enabled(s, Next(w, i))
    ensures Owners(Step(s, Next(w, i)), h) == Owners(s, h)
  {
    SumRemove(s.ops, i, TagIs(h));
    SumUpdate(s.stage, w, Dispatch(s.ops[i]), RunsHandler(h));
  }

  /** A handler lives on, unless it is the one being deleted; a spawned one begins to live. */
  lemma LivesStep(s: Service, e: Event, h: nat)
    requires Enabled(s, e)
    ensures IsLive(Step(s, e), h) <==>
            || (e.Spawn? && h == |s.handlers|)
            || (e.Mark? && h == s.stage[e.w].h)
            || (IsLive(s, h) && !(e.Delete? && h == s.stage[e.w].op.tag))
  {
  }

  lemma {:induction false} OwnerStep(s: Service, e: Event, h: nat)
    requires Enabled(s, e) && Owners(s, h) == if IsLive(s, h) then 1 else 0
    ensures Owners(Step(s, e), h) == if IsLive(Step(s, e), h) then 1 else 0
  {
    LivesStep(s, e, h);
    if e.Next? {
      NextOwners(s, e.w, e.i, h);
    } else {
      OperationsStep(s, e, h);
      StagesStep(s, e, h);
      if e.Delete? || e.Mark? { SumMember(s.stage, e.w, RunsHandler(h)); }
    }
  }

  /** The handler whose state, request or finishes an event changes is in no other owner's hands. */
  lemma ChangedIsExclusive(s: Service, e: Event)
    requires Enabled(s, e) && OwnerInv(s) && LocalInv(s)
    ensures e.Match? ==> forall j | 0 <= j < |s.ops| && j != e.i :: s.ops[j].tag != s.ops[e.i].tag
    ensures e.Match? ==> forall v | 0 <= v < |s.stage| :: !Runs(s.stage[v], s.ops[e.i].tag)
    ensures Changes(s, e).Some? ==> forall i | 0 <= i < |s.ops| :: s.ops[i].tag != Changes(s, e).value
    ensures Changes(s, e).Some? ==> forall v | 0 <= v < |s.stage| && v != e.w :: !Runs(s.stage[v], Changes(s, e).value)
  {
    if e.Match? { OutstandingIsExclusive(s, e.i); }
    if Changes(s, e).Some? { RunningIsExclusive(s, e.w, Changes(s, e).value); }
  }

  ghost function Changes(s: Service, e: Event): Option<nat>
    requires Enabled(s, e)
  {
    if e.Delete? then Some(s.stage[e.w].op.tag)
    else if e.Mark? || e.Answer? || e.Post? then Some(s.stage[e.w].h)
    else None
  }

  lemma OpOkStep(s: Service, e: Event, op: Operation)
    requires Enabled(s, e) && OpOk(s, op)
    requires Changes(s, e) != Some(op.tag) && (e.Match? ==> s.ops[e.i].tag != op.tag)
    ensures OpOk(Step(s, e), op)
  {
    StagesStay(s, e);
    HandlerStays(s, e, op.tag);
  }

  lemma DeliveredOk(s: Service, e: Event)
    requires Enabled(s, e) && Delivers(e) && OpOk(s, s.ops[e.i])
    ensures OpOk(Step(s, e), Delivered(s, e))
  {
    StagesStay(s, e);
  }

  lemma RegisteredOk(s: Service, e: Event)
    requires Enabled(s, e) && Registers(e) && StageOk(s, e.w)
    ensures OpOk(Step(s, e), Registered(s, e))
  {
  }

  lemma OpsOkStep(s: Service, e: Event)
    requires Enabled(s, e) && OwnerInv(s) && LocalInv(s)
    ensures forall i | 0 <= i < |Step(s, e).ops| :: OpOk(Step(s, e), Step(s, e).ops[i])
  {
    var s' := Step(s, e);
    ChangedIsExclusive(s, e);
    OpsChange(s, e);
    if Registers(e) { RegisteredOk(s, e); }
    forall i | 0 <= i < |s'.ops| ensures OpOk(s', s'.ops[i]) {
      if Delivers(e) && i == e.i {
        DeliveredOk(s, e);
      } else if i < |s.ops| || e.Next? {
        OpOkStep(s, e, s.ops[if e.Next? && e.i <= i then i + 1 else i]);
      }
    }
  }

  /** A worker that does not act, and whose handler is not changed, is as well off as before. */
  lemma StageOkKept(s: Service, e: Event, w: nat)
    requires Enabled(s, e) && w < |s.stage| && StageOk(s, w) && Step(s, e).stage[w] == s.stage[w]
    requires e.Match? ==> !Runs(s.stage[w], s.ops[e.i].tag)
    requires Changes(s, e).Some? ==> !Runs(s.stage[w], Changes(s, e).value)
    ensures StageOk(Step(s, e), w)
  {
    StagesStay(s, e);
    if s.stage[w].Dispatch? {
      OpOkStep(s, e, s.stage[w].op);
    } else if s.stage[w].Marking? || s.stage[w].Serving? || s.stage[w].Replying? {
      HandlerStays(s, e, s.stage[w].h);
    }
  }

  /** Only a match and the worker running it change a handler. */
  lemma HandlerStays(s: Service, e: Event, h: nat)
    requires Enabled(s, e) && h < |s.handlers|
    requires Changes(s, e) != Some(h) && (e.Match? ==> s.ops[e.i].tag != h)
    ensures h < |Step(s, e).handlers| && Step(s, e).handlers[h] == s.handlers[h]
  {
  }

  /** A worker that acts reaches a stage whose conditions hold. */
  lemma StageOkReached(s: Service, e: Event, w: nat)
    requires Enabled(s, e) && LocalInv(s) && w < |s.stage| && Step(s, e).stage[w] != s.stage[w]
    ensures StageOk(Step(s, e), w)
  {
    assert StageOk(s, w);
    match e
    case Next(_, i) => NextReaches(s, w, i);
    case Mark(_) => MarkReaches(s, w);
    case Answer(_, database) => AnswerReaches(s, w, database);
    case _ =>
  }

  lemma NextReaches(s: Service, w: nat, i: nat)
    requires Enabled(s, Next(w, i)) && LocalInv(s)
    ensures StageOk(Step(s, Next(w, i)), w)
  {
    assert OpOk(s, s.ops[i]);
  }

  lemma MarkReaches(s: Service, w: nat)
    requires Enabled(s, Mark(w)) && LocalInv(s)
    ensures StageOk(Step(s, Mark(w)), w)
  {
    assert StageOk(s, w) && HandlerOk(s.handlers[s.stage[w].h]);
  }

  lemma AnswerReaches(s: Service, w: nat, database: Bytes -> QueryResult)
    requires Enabled(s, Answer(w, database)) && StageOk(s, w)
    ensures StageOk(Step(s, Answer(w, database)), w)
  {
  }

  lemma StagesOkStep(s: Service, e: Event)
    requires Enabled(s, e) && OwnerInv(s) && LocalInv(s)
    ensures forall w | 0 <= w < |Step(s, e).stage| :: StageOk(Step(s, e), w)
  {
    ChangedIsExclusive(s, e);
    StagesStay(s, e);
    forall w | 0 <= w < |Step(s, e).stage| ensures StageOk(Step(s, e), w) {
      assert StageOk(s, w);
      if Step(s, e).stage[w] == s.stage[w] { StageOkKept(s, e, w); } else { StageOkReached(s, e, w); }
    }
  }

  lemma HandlersOkStep(s: Service, e: Event)
    requires Enabled(s, e) && OwnerInv(s) && LocalInv(s)
    ensures forall h | 0 <= h < |Step(s, e).handlers| :: HandlerOk(Step(s, e).handlers[h])
  {
    var s' := Step(s, e);
    if e.Match? { assert OpOk(s, s.ops[e.i]); }
    if e.Delete? || e.Mark? || e.Answer? || e.Post? { assert StageOk(s, e.w); }
    forall h | 0 <= h < |s'.handlers| ensures HandlerOk(s'.handlers[h]) {
      if h < |s.handlers| { assert HandlerOk(s.handlers[h]); }
    }
  }

  lemma FinishesStep(s: Service, e: Event, h: nat)
    requires Enabled(s, e)
    ensures Finishes(Step(s, e), h) == Finishes(s, h) + (if e.Post? && s.stage[e.w].h == h then 1 else 0)
  {
  }

  lemma RepliesStep(s: Service, e: Event, h: nat)
    requires Enabled(s, e)
    ensures Sum(Step(s, e).log, RepliesTo(h)) ==
            Sum(s.log, RepliesTo(h)) + (if e.Post? && s.stage[e.w].h == h then 1 else 0)
  {
    if e.Post? { SumAppend(s.log, Step(s, e).log[|s.log|], RepliesTo(h)); }
  }

  lemma LogCountStep(s: Service, e: Event, h: nat)
    requires Enabled(s, e) && Sum(s.log, RepliesTo(h)) == Finishes(s, h)
    ensures Sum(Step(s, e).log, RepliesTo(h)) == Finishes(Step(s, e), h)
  {
    FinishesStep(s, e, h);
    RepliesStep(s, e, h);
  }

  lemma OldRepliesStep(s: Service, e: Event, i: nat)
    requires Enabled(s, e) && i < |s.log| && ReplyOk(s, s.log[i])
    requires e.Match? ==> s.log[i].handler != s.ops[e.i].tag
    ensures s.log <= Step(s, e).log && ReplyOk(Step(s, e), s.log[i])
  {
  }

  lemma NewReplyStep(s: Service, w: nat)
    requires Enabled(s, Post(w)) && StageOk(s, w)
    ensures var s' := Step(s, Post(w)); |s'.log| == |s.log| + 1 && ReplyOk(s', s'.log[|s.log|])
  {
  }

  lemma LogGrowth(s: Service, e: Event)
    requires Enabled(s, e)
    ensures s.log <= Step(s, e).log && |Step(s, e).log| == |s.log| + (if e.Post? then 1 else 0)
  {
  }

  lemma RepliesOkStep(s: Service, e: Event)
    requires Enabled(s, e) && OwnerInv(s) && LocalInv(s) && LogInv(s)
    ensures forall i | 0 <= i < |Step(s, e).log| :: ReplyOk(Step(s, e), Step(s, e).log[i])
  {
    var s' := Step(s, e);
    LogGrowth(s, e);
    if e.Match? {
      assert OpOk(s, s.ops[e.i]) && HandlerOk(s.handlers[s.ops[e.i].tag]);
      NoReplyBefore(s, s.ops[e.i].tag);
    }
    if e.Post? {
      assert StageOk(s, e.w);
      NewReplyStep(s, e.w);
    }
    forall i | 0 <= i < |s'.log| ensures ReplyOk(s', s'.log[i]) {
      if i < |s.log| { OldRepliesStep(s, e, i); }
    }
  }

  lemma LogStep(s: Service, e: Event)
    requires Enabled(s, e) && OwnerInv(s) && LocalInv(s) && LogInv(s)
    ensures LogInv(Step(s, e))
  {
    var s' := Step(s, e);
    forall h: nat ensures Sum(s'.log, RepliesTo(h)) == Finishes(s', h) {
      assert Sum(s.log, RepliesTo(h)) == Finishes(s, h);
      LogCountStep(s, e, h);
    }
    RepliesOkStep(s, e);
  }

  /** A handler whose `finishes` is zero does not occur in the log. */
  lemma NoReplyBefore(s: Service, h: nat)
    requires LogInv(s) && Finishes(s, h) == 0
    ensures forall i | 0 <= i < |s.log| :: s.log[i].handler != h
  {
    forall i | 0 <= i < |s.log| ensures s.log[i].handler != h {
      SumMember(s.log, i, RepliesTo(h));
      assert Sum(s.log, RepliesTo(h)) == 0;
    }
  }

  lemma MatchAcceptors(s: Service, i: nat, request: RequestValue, q: nat)
    requires Enabled(s, Match(i, request))
    ensures Acceptors(Step(s, Match(i, request)), q) == Acceptors(s, q)
  {
    SumUpdate(s.handlers, s.ops[i].tag, s.handlers[s.ops[i].tag].(request := Some(request)), WaitsOn(q));
  }

  lemma DeleteAcceptors(s: Service, w: nat, q: nat)
    requires Enabled(s, Delete(w)) && StageOk(s, w) && !s.down
    ensures Acceptors(Step(s, Delete(w)), q) == Acceptors(s, q)
  {
    var h := s.stage[w].op.tag;
    SumUpdate(s.handlers, h, s.handlers[h].(state := DELETED), WaitsOn(q));
  }

  lemma SpawnAcceptors(s: Service, w: nat, q: nat)
    requires Enabled(s, Spawn(w)) && StageOk(s, w)
    ensures Acceptors(Step(s, Spawn(w)), q) == Acceptors(s, q) + (if w == q then 1 else 0)
  {
    SumAppend(s.handlers, Handler(w, WAIT, None, EMPTY_RESPONSE, 0), WaitsOn(q));
  }

  lemma MarkAcceptors(s: Service, w: nat, q: nat)
    requires Enabled(s, Mark(w)) && StageOk(s, w)
    ensures Acceptors(Step(s, Mark(w)), q) + (if w == q then 1 else 0) == Acceptors(s, q)
  {
    var h := s.stage[w].h;
    SumUpdate(s.handlers, h, s.handlers[h].(state := FINISH), WaitsOn(q));
  }

  lemma AnswerAcceptors(s: Service, w: nat, database: Bytes -> QueryResult, q: nat)
    requires Enabled(s, Answer(w, database))
    ensures Acceptors(Step(s, Answer(w, database)), q) == Acceptors(s, q)
  {
    var h := s.stage[w].h;
    SumUpdate(s.handlers, h, Step(s, Answer(w, database)).handlers[h], WaitsOn(q));
  }

  lemma PostAcceptors(s: Service, w: nat, q: nat)
    requires Enabled(s, Post(w))
    ensures Acceptors(Step(s, Post(w)), q) == Acceptors(s, q)
  {
    var h := s.stage[w].h;
    SumUpdate(s.handlers, h, Step(s, Post(w)).handlers[h], WaitsOn(q));
  }

  /** A spawn adds a waiting handler to its worker's queue, a mark takes one away. */
  lemma WaitingStep(s: Service, e: Event, q: nat)
    requires Enabled(s, e) && LocalInv(s) && !s.down
    ensures Acceptors(Step(s, e), q) + (if e.Mark? && e.w == q then 1 else 0) ==
            Acceptors(s, q) + (if e.Spawn? && e.w == q then 1 else 0)
  {
    if e.Delete? || e.Spawn? || e.Mark? { assert StageOk(s, e.w); }
    match e
    case Match(i, request) => MatchAcceptors(s, i, request, q);
    case Delete(w) => DeleteAcceptors(s, w, q);
    case Spawn(w) => SpawnAcceptors(s, w, q);
    case Mark(w) => MarkAcceptors(s, w, q);
    case Answer(w, database) => AnswerAcceptors(s, w, database, q);
    case Post(w) => PostAcceptors(s, w, q);
    case _ =>
  }

  lemma MarkingStep(s: Service, e: Event, q: nat)
    requires Enabled(s, e) && q < |s.stage|
    ensures q < |Step(s, e).stage|
    ensures (if Step(s, e).stage[q].Marking? then 1 else 0) + (if e.Mark? && e.w == q then 1 else 0) ==
            (if s.stage[q].Marking? then 1 else 0) + (if e.Spawn? && e.w == q then 1 else 0)
  {
  }

  lemma AcceptorsStep(s: Service, e: Event, k: nat, q: nat)
    requires Enabled(s, e) && LocalInv(s) && !s.down && q < |s.stage|
    requires Acceptors(s, q) == k + if s.stage[q].Marking? then 1 else 0
    ensures q < |Step(s, e).stage| && Acceptors(Step(s, e), q) == k + if Step(s, e).stage[q].Marking? then 1 else 0
  {
    WaitingStep(s, e, q);
    MarkingStep(s, e, q);
  }

  lemma AcceptStep(s: Service, e: Event, k: nat)
    requires Enabled(s, e) && LocalInv(s) && AcceptInv(s, k)
    ensures AcceptInv(Step(s, e), k)
  {
    var s' := Step(s, e);
    StagesStay(s, e);
    if !s'.down {
      forall q | 0 <= q < |s'.stage| ensures Acceptors(s', q) == k + if s'.stage[q].Marking? then 1 else 0 {
        AcceptorsStep(s, e, k, q);
      }
    }
  }

  lemma StagesStay(s: Service, e: Event)
    requires Enabled(s, e)
    ensures |Step(s, e).stage| == |s.stage| && (s.down ==> Step(s, e).down) && Step(s, e).hasPool == s.hasPool
  {
  }

  /** A queue gets new operations only from its own worker. */
  lemma QueueGrows(s: Service, e: Event, w: nat)
    requires Enabled(s, e) && (Registers(e) ==> StageOk(s, e.w))
    ensures Sum(Step(s, e).ops, OnQueue(w)) <= Sum(s.ops, OnQueue(w)) + if Registers(e) && e.w == w then 1 else 0
  {
    OpsSum(s, e, OnQueue(w));
  }

  lemma NotStopped(s: Service, e: Event, w: nat)
    requires Enabled(s, e) && w < |s.stage|
    ensures w < |Step(s, e).stage|
    ensures s.stage[w].Stopped? ==> !(Moves(e) && e.w == w)
    ensures Step(s, e).stage[w].Stopped? ==> s.stage[w].Stopped? || e == Stop(w)
  {
  }

  lemma {:induction false} StopStep(s: Service, e: Event)
    requires Enabled(s, e) && LocalInv(s) && StopInv(s)
    ensures StopInv(Step(s, e))
  {
    var s' := Step(s, e);
    StagesStay(s, e);
    if Registers(e) { assert StageOk(s, e.w); }
    forall w | 0 <= w < |s'.stage| && s'.stage[w].Stopped? ensures s'.down && Sum(s'.ops, OnQueue(w)) == 0 {
      NotStopped(s, e, w);
      QueueGrows(s, e, w);
      if !s.stage[w].Stopped? &&  0 < Sum(s.ops, OnQueue(w)) {
        var i := SumWitness(s.ops, OnQueue(w));
      }
    }
  }

  /** What an event does to the pool, if anything. */
  ghost function PoolAction(s: Service, e: Event): Option<Pool.Event> {
    match e
    case Spurious(w) => Some(Pool.Wake(w))
    case Mark(w) => if s.hasPool then Some(Pool.Enter(w)) else None
    case Borrow(_, a) => Some(a)
    case Answer(w, _) => Some(Pool.Return(w))
    case _ => None
  }

  lemma PoolActionStep(s: Service, e: Event)
    requires Enabled(s, e)
    ensures Step(s, e).hasPool == s.hasPool
    ensures match PoolAction(s, e)
            case None => Step(s, e).pool == s.pool
            case Some(a) => s.hasPool && Pool.Enabled(s.pool, a) && Step(s, e).pool == Pool.Step(s.pool, a)
  {
  }

  lemma PhasesStep(s: Service, e: Event)
    requires Enabled(s, e) && s.hasPool && |s.pool.phase| == |s.stage|
    requires forall w | 0 <= w < |s.stage| :: PhaseOk(s.stage[w], s.pool.phase[w])
    ensures |Step(s, e).pool.phase| == |Step(s, e).stage|
    ensures forall w | 0 <= w < |s.stage| :: PhaseOk(Step(s, e).stage[w], Step(s, e).pool.phase[w])
  {
    var s' := Step(s, e);
    PoolActionStep(s, e);
    forall w | 0 <= w < |s.stage| ensures PhaseOk(s'.stage[w], s'.pool.phase[w]) {
      assert PhaseOk(s.stage[w], s.pool.phase[w]);
    }
  }

  lemma PoolStep(s: Service, e: Event, all: multiset<Pool.Connection>)
    requires Enabled(s, e) && PoolInv(s, all)
    ensures PoolInv(Step(s, e), all)
  {
    PoolActionStep(s, e);
    if s.hasPool {
      PhasesStep(s, e);
      if PoolAction(s, e).Some? { Pool.InvStep(s.pool, PoolAction(s, e).value, all); }
    }
  }

  lemma LocalStep(s: Service, e: Event)
    requires Enabled(s, e) && OwnerInv(s) && LocalInv(s)
    ensures LocalInv(Step(s, e))
  {
    OpsOkStep(s, e);
    StagesOkStep(s, e);
    HandlersOkStep(s, e);
  }

  lemma InvStep(s: Service, e: Event, k: nat, all: multiset<Pool.Connection>)
    requires Enabled(s, e) && Inv(s, k, all)
    ensures Inv(Step(s, e), k, all)
  {
    var s' := Step(s, e);
    assert OwnerInv(s') by {
      forall h: nat ensures Owners(s', h) == if IsLive(s', h) then 1 else 0 {
        assert Owners(s, h) == if IsLive(s, h) then 1 else 0;
        OwnerStep(s, e, h);
      }
    }
    LocalStep(s, e);
    LogStep(s, e);
    AcceptStep(s, e, k);
    StopStep(s, e);
    PoolStep(s, e, all);
  }

  // ----- the invariant holds at the start -------------------------------------------------

  /** Constructing handlers keeps what does not count them, before any worker runs. */
  ghost predicate Setup(s: Service, c: Config) {
    && s.pool == Idle(c).pool && s.hasPool == c.hasPool && s.stage == Idle(c).stage
    && !s.down && s.log == []
    && OwnerInv(s) && LocalInv(s) && LogInv(s)
  }

  lemma {:induction false} NobodyRuns(s: Service, h: nat)
    requires forall w | 0 <= w < |s.stage| :: !Runs(s.stage[w], h)
    ensures Sum(s.stage, RunsHandler(h)) == 0
  {
    if 0 < Sum(s.stage, RunsHandler(h)) { var w := SumWitness(s.stage, RunsHandler(h)); }
  }

  lemma {:induction false} ConstructSetup(s: Service, q: nat, c: Config)
    requires Setup(s, c) && q < c.workers
    ensures Setup(Construct(s, q), c)
    ensures forall p :: Acceptors(Construct(s, q), p) == Acceptors(s, p) + if p == q then 1 else 0
  {
    var s' := Construct(s, q);
    forall h: nat ensures Owners(s', h) == if IsLive(s', h) then 1 else 0 {
      assert Owners(s, h) == if IsLive(s, h) then 1 else 0;
      SumAppend(s.ops, s'.ops[|s.ops|], TagIs(h));
    }
    forall h: nat
      ensures Sum(s'.log, RepliesTo(h)) == Finishes(s', h)
    {
      assert Sum(s.log, RepliesTo(h)) == Finishes(s, h);
    }
    forall i | 0 <= i < |s'.ops| ensures OpOk(s', s'.ops[i]) {
      if i < |s.ops| { assert OpOk(s, s.ops[i]); }
    }
    forall h | 0 <= h < |s'.handlers| ensures HandlerOk(s'.handlers[h]) {
      if h < |s.handlers| { assert HandlerOk(s.handlers[h]); }
    }
    forall p ensures Acceptors(s', p) == Acceptors(s, p) + if p == q then 1 else 0 {
      SumAppend(s.handlers, s'.handlers[|s.handlers|], WaitsOn(p));
    }
  }

  lemma {:induction false} PopulateSetup(s: Service, q: nat, k: nat, c: Config)
    requires Setup(s, c) && q < c.workers
    ensures Setup(Populate(s, q, k), c)
    ensures forall p :: Acceptors(Populate(s, q, k), p) == Acceptors(s, p) + if p == q then k else 0
  {
    if k > 0 {
      PopulateSetup(s, q, k - 1, c);
      ConstructSetup(Populate(s, q, k - 1), q, c);
    }
  }

  lemma {:induction false} QueuesSetup(s: Service, queues: nat, k: nat, c: Config)
    requires Setup(s, c) && queues <= c.workers && s.handlers == []
    ensures Setup(PopulateQueues(s, queues, k), c)
    ensures forall p: nat :: Acceptors(PopulateQueues(s, queues, k), p) == if p < queues then k else 0
  {
    if queues > 0 {
      QueuesSetup(s, queues - 1, k, c);
      PopulateSetup(PopulateQueues(s, queues - 1, k), queues - 1, k, c);
    }
  }

  lemma {:induction false} StartInv(c: Config)
    ensures Setup(Start(c), c)
    ensures Inv(Start(c), c.perQueue, multiset(c.connections))
  {
    var idle := Idle(c);
    forall h: nat ensures Owners(idle, h) == 0 && Sum(idle.log, RepliesTo(h)) == 0 { NobodyRuns(idle, h); }
    assert Setup(idle, c);
    QueuesSetup(idle, c.workers, c.perQueue, c);
    Pool.InitialInv(idle.pool);
  }

  /** `s` is a state of some run of a server with `workers` queues and `k` handlers on each. */
  ghost predicate Reachable(c: Config, s: Service) {
    exists es :: Run(Start(c), es) && After(Start(c), es) == s
  }

  lemma {:induction false} RunInv(s: Service, es: seq<Event>, k: nat, all: multiset<Pool.Connection>)
    requires Run(s, es) && Inv(s, k, all)
    ensures Inv(After(s, es), k, all)
    ensures |After(s, es).stage| == |s.stage| && After(s, es).hasPool == s.hasPool
    ensures s.down ==> After(s, es).down
  {
    if es != [] {
      RunInv(s, es[..|es| - 1], k, all);
      InvStep(After(s, es[..|es| - 1]), es[|es| - 1], k, all);
      StagesStay(After(s, es[..|es| - 1]), es[|es| - 1]);
    }
  }

  lemma ReachableInv(c: Config, s: Service)
    requires Reachable(c, s)
    ensures Inv(s, c.perQueue, multiset(c.connections)) && |s.stage| == c.workers && s.hasPool == c.hasPool
  {
    StartInv(c);
    var es :| Run(Start(c), es) && After(Start(c), es) == s;
    RunInv(Start(c), es, c.perQueue, multiset(c.connections));
  }

  // ----- safety ---------------------------------------------------------------------------

  /** The handler whose memory a worker's event reads, writes or frees. */
  ghost function Touched(s: Service, e: Event): Option<nat>
    requires Enabled(s, e)
  {
    match e
    case Delete(w) => Some(s.stage[w].op.tag)
    case Spawn(w) => Some(s.stage[w].op.tag)
    case Mark(w) => Some(s.stage[w].h)
    case Answer(w, _) => Some(s.stage[w].h)
    case Post(w) => Some(s.stage[w].h)
    case _ => None
  }

  /** No use after deletion, no double deletion, no sharing: a handler a worker touches is alive,
      belongs to the worker's own queue, is not in the hands of another worker, and has no tag
      outstanding with which another event could arrive meanwhile. */
  lemma {:induction false} HandlerSafety(c: Config, s: Service, e: Event)
    requires Reachable(c, s) && Enabled(s, e) && Touched(s, e).Some?
    ensures var h := Touched(s, e).value;
            && IsLive(s, h) && s.handlers[h].queue == e.w
            && (forall i | 0 <= i < |s.ops| :: s.ops[i].tag != h)
            && (forall v | 0 <= v < |s.stage| && v != e.w :: !Runs(s.stage[v], h))
  {
    ReachableInv(c, s);
    RunningIsExclusive(s, e.w, Touched(s, e).value);
    assert StageOk(s, e.w);
  }

  /** The runtime writes a request only into a live handler that waits for it, and it ends the
      sending of a response only of a live handler; no worker runs that handler, and no other
      event for it is outstanding. */
  lemma {:induction false} RuntimeSafety(c: Config, s: Service, e: Event)
    requires Reachable(c, s) && Enabled(s, e) && Delivers(e)
    ensures var h := s.ops[e.i].tag;
            && IsLive(s, h) && s.handlers[h].queue == s.ops[e.i].queue
            && (forall j | 0 <= j < |s.ops| && j != e.i :: s.ops[j].tag != h)
            && (forall w | 0 <= w < |s.stage| :: !Runs(s.stage[w], h))
            && (e.Match? ==> s.handlers[h].state == WAIT && s.handlers[h].request.None?)
            && (e.Complete? ==> s.handlers[h].state == FINISH && s.handlers[h].finishes == 1)
  {
    ReachableInv(c, s);
    OutstandingIsExclusive(s, e.i);
    assert OpOk(s, s.ops[e.i]);
  }

  /** Every event a queue delivers is for a live handler of that queue, with no second one behind it. */
  lemma {:induction false} DeliveredTagIsLive(c: Config, s: Service, w: nat, i: nat)
    requires Reachable(c, s) && Enabled(s, Next(w, i))
    ensures IsLive(s, s.ops[i].tag) && s.handlers[s.ops[i].tag].queue == w
    ensures forall j | 0 <= j < |s.ops| && j != i :: s.ops[j].tag != s.ops[i].tag
  {
    ReachableInv(c, s);
    OutstandingIsExclusive(s, i);
    assert OpOk(s, s.ops[i]);
  }

  /** Until shutdown, at the head of its loop every worker has exactly `perQueue` handlers waiting on its queue. */
  lemma {:induction false} ConstantAcceptors(c: Config, s: Service, q: nat)
    requires Reachable(c, s) && !s.down && q < |s.stage| && s.stage[q].Polling?
    ensures Acceptors(s, q) == c.perQueue
  {
    ReachableInv(c, s);
  }

  lemma {:induction false} FinishesBound(s: Service, h: nat)
    requires OwnerInv(s) && LocalInv(s) && h < |s.handlers|
    ensures s.handlers[h].finishes <= (if s.handlers[h].request.Some? then 1 else 0)
  {
    assert HandlerOk(s.handlers[h]);
    if s.handlers[h].state == FINISH {
      assert Owners(s, h) == 1;
      if 0 < Sum(s.ops, TagIs(h)) {
        var i := SumWitness(s.ops, TagIs(h));
        assert OpOk(s, s.ops[i]);
      } else {
        var w := SumWitness(s.stage, RunsHandler(h));
        assert StageOk(s, w);
      }
    }
  }

  /** At most one reply per handler, only to an accepted request, and computed from that request
      and the result of its query; `RepliesAreAnswers` says where that result comes from. */
  lemma {:induction false} AtMostOneReply(c: Config, s: Service, h: nat)
    requires Reachable(c, s)
    ensures Sum(s.log, RepliesTo(h)) <= (if h < |s.handlers| && s.handlers[h].request.Some? then 1 else 0)
    ensures forall i | 0 <= i < |s.log| && s.log[i].handler == h ::
              && h < |s.handlers| && s.handlers[h].request == Some(s.log[i].request)
              && (s.log[i].status, s.log[i].response) == Outcome(s.log[i].request, s.log[i].result)
              && (s.log[i].result.Some? <==> c.hasPool)
  {
    ReachableInv(c, s);
    assert Sum(s.log, RepliesTo(h)) == Finishes(s, h);
    if h < |s.handlers| { FinishesBound(s, h); }
    forall i | 0 <= i < |s.log| ensures ReplyOk(s, s.log[i]) {}
  }

  /** What the database may say about an email, in any answer given during a run. */
  ghost predicate AnswersBy(e: Event, says: (Bytes, QueryResult) -> bool) {
    e.Answer? ==> forall email: Bytes :: says(email, e.database(email))
  }

  ghost predicate SaidOf(request: RequestValue, result: Option<QueryResult>, says: (Bytes, QueryResult) -> bool) {
    result.Some? ==> says(UserOf(request).email, result.value)
  }

  ghost predicate AnswersInv(s: Service, says: (Bytes, QueryResult) -> bool) {
    && (forall i | 0 <= i < |s.log| :: SaidOf(s.log[i].request, s.log[i].result, says))
    && (forall w | 0 <= w < |s.stage| && s.stage[w].Replying? && s.stage[w].h < |s.handlers| ::
          SaidOf(RequestOf(s.handlers[s.stage[w].h]), s.stage[w].result, says))
  }

  lemma LoggedSaid(s: Service, e: Event, says: (Bytes, QueryResult) -> bool)
    requires Enabled(s, e) && AnswersInv(s, says)
    ensures forall i | 0 <= i < |Step(s, e).log| :: SaidOf(Step(s, e).log[i].request, Step(s, e).log[i].result, says)
  {
    LogGrowth(s, e);
    if e.Post? { assert SaidOf(RequestOf(s.handlers[s.stage[e.w].h]), s.stage[e.w].result, says); }
  }

  lemma AnsweredSaid(s: Service, w: nat, database: Bytes -> QueryResult, says: (Bytes, QueryResult) -> bool)
    requires Enabled(s, Answer(w, database)) && forall email: Bytes :: says(email, database(email))
    ensures var s' := Step(s, Answer(w, database));
            s'.stage[w].Replying? && SaidOf(RequestOf(s'.handlers[s'.stage[w].h]), s'.stage[w].result, says)
  {
  }

  lemma AnswersStep(s: Service, e: Event, says: (Bytes, QueryResult) -> bool)
    requires Enabled(s, e) && OwnerInv(s) && LocalInv(s) && AnswersInv(s, says) && AnswersBy(e, says)
    ensures AnswersInv(Step(s, e), says)
  {
    var s' := Step(s, e);
    ChangedIsExclusive(s, e);
    LoggedSaid(s, e, says);
    StageChange(s, e);
    if e.Answer? { AnsweredSaid(s, e.w, e.database, says); }
    forall w | 0 <= w < |s'.stage| && s'.stage[w].Replying? && s'.stage[w].h < |s'.handlers|
      ensures SaidOf(RequestOf(s'.handlers[s'.stage[w].h]), s'.stage[w].result, says)
    {
      if !Moves(e) || w != e.w {
        assert StageOk(s, w);
        HandlerStays(s, e, s.stage[w].h);
      }
    }
  }

  /** Every reply rests on what the database said about the email of the very request that is
      answered: whatever holds of all answers, email by email, holds of the replies. */
  lemma {:induction false} RepliesAreAnswers(c: Config, es: seq<Event>, says: (Bytes, QueryResult) -> bool)
    requires Run(Start(c), es) && forall i | 0 <= i < |es| :: AnswersBy(es[i], says)
    ensures AnswersInv(After(Start(c), es), says)
  {
    StartInv(c);
    if es != [] {
      RepliesAreAnswers(c, es[..|es| - 1], says);
      RunInv(Start(c), es[..|es| - 1], c.perQueue, multiset(c.connections));
      AnswersStep(After(Start(c), es[..|es| - 1]), es[|es| - 1], says);
    }
  }

  lemma {:induction false} PoolRuns(c: Config, es: seq<Event>)
    requires Run(Start(c), es) && c.hasPool
    ensures After(Start(c), es).hasPool && Pool.Reachable(Idle(c).pool, After(Start(c), es).pool)
  {
    if es == [] {
      StartInv(c);
      assert Pool.Run(Idle(c).pool, []) && Pool.After(Idle(c).pool, []) == Idle(c).pool;
    } else {
      var s, e := After(Start(c), es[..|es| - 1]), es[|es| - 1];
      PoolRuns(c, es[..|es| - 1]);
      PoolActionStep(s, e);
      if PoolAction(s, e).Some? { Pool.ReachableStep(Idle(c).pool, s.pool, PoolAction(s, e).value); }
    }
  }

  /** The pool of the server only ever does what the monitor does, so whatever holds of every
      reachable monitor holds of it; in particular nobody waits for a connection when there are
      at least as many connections as workers. */
  lemma {:induction false} ServerPool(c: Config, s: Service)
    requires Reachable(c, s) && c.hasPool
    ensures Pool.Reachable(Idle(c).pool, s.pool)
    ensures c.workers <= |c.connections| ==>
              forall w | 0 <= w < |s.pool.phase| ::
                !s.pool.phase[w].Sleeping? && (s.pool.phase[w].Testing? ==> s.pool.free != [])
  {
    var es :| Run(Start(c), es) && After(Start(c), es) == s;
    PoolRuns(c, es);
    if c.workers <= |c.connections| { Pool.EnoughConnections(Idle(c).pool, s.pool); }
  }

  // ----- progress and termination ---------------------------------------------------------

  ghost predicate IsProgress(e: Event) { !e.Match? && !e.Shutdown? && !e.Spurious? }

  lemma {:induction false} PoolCanAct(s: Service, k: nat, all: multiset<Pool.Connection>) returns (e: Event)
    requires Inv(s, k, all) && s.hasPool && |all| >= 1
    requires exists w :: 0 <= w < |s.pool.phase| && !s.pool.phase[w].Outside?
    ensures Enabled(s, e) && IsProgress(e)
  {
    var a := Pool.InsideCanAct(s.pool, all);
    if a.Return? {
      assert PhaseOk(s.stage[a.w], s.pool.phase[a.w]);
      assert StageOk(s, a.w);
      e := Answer(a.w, _ => NoRows);
    } else {
      e := Borrow(a.w, a);
    }
  }

  lemma {:induction false} WorkerCanAct(s: Service, k: nat, all: multiset<Pool.Connection>, w: nat) returns (e: Event)
    requires Inv(s, k, all) && w < |s.stage| && !s.stage[w].Polling? && !s.stage[w].Stopped?
    requires s.hasPool ==> s.pool.phase[w].Outside?
    ensures Enabled(s, e) && IsProgress(e)
  {
    assert StageOk(s, w);
    assert s.hasPool ==> PhaseOk(s.stage[w], s.pool.phase[w]);
    match s.stage[w]
    case Dispatch(op) =>
      RunningIsExclusive(s, w, op.tag);
      if op.ok.value && s.handlers[op.tag].state == WAIT { e := Spawn(w); } else { e := Delete(w); }
    case Marking(h) => e := Mark(w);
    case Replying(h, _) => e := Post(w);
  }

  lemma {:induction false} QueueCanAct(s: Service, k: nat, all: multiset<Pool.Connection>, w: nat) returns (e: Event)
    requires Inv(s, k, all) && s.down && w < |s.stage| && s.stage[w].Polling?
    ensures Enabled(s, e) && IsProgress(e)
  {
    if i: nat :| i < |s.ops| && s.ops[i].queue == w {
      if s.ops[i].ok.Some? {
        e := Next(w, i);
      } else if s.ops[i].kind.LoginOp? {
        e := Cancel(i);
      } else {
        e := Complete(i, true);
      }
    } else {
      e := Stop(w);
    }
  }

  /** While a worker is away from its queue, or the server is shutting down and a worker has not
      stopped, something other than a new request or a spurious wakeup can happen. */
  lemma {:induction false} Progress(c: Config, s: Service)
    requires Reachable(c, s) && (c.hasPool ==> c.connections != [])
    requires exists w :: 0 <= w < |s.stage| && !s.stage[w].Stopped? && (s.down || !s.stage[w].Polling?)
    ensures exists e :: Enabled(s, e) && IsProgress(e)
  {
    ReachableInv(c, s);
    var k, all := c.perQueue, multiset(c.connections);
    if s.hasPool && exists w :: 0 <= w < |s.pool.phase| && !s.pool.phase[w].Outside? {
      assert |all| == |c.connections|;
      var e := PoolCanAct(s, k, all);
    } else {
      var w: nat :| w < |s.stage| && !s.stage[w].Stopped? && (s.down || !s.stage[w].Polling?);
      if s.stage[w].Polling? {
        var e := QueueCanAct(s, k, all, w);
      } else {
        var e := WorkerCanAct(s, k, all, w);
      }
    }
  }

  ghost function OpWeight(): Operation -> nat {
    (op: Operation) =>
      if op.ok.None? then 3 else if op.kind.LoginOp? && op.ok == Some(true) then 21 else 2
  }

  ghost function StageWeight(): Stage -> nat {
    (st: Stage) =>
      match st
      case Stopped => 0
      case Polling => 1
      case Dispatch(op) => if op.kind.LoginOp? && op.ok == Some(true) then 21 else 2
      case Marking(_) => 17
      case Serving(_) => 6
      case Replying(_, _) => 5
  }

  /** Work left: a matched request weighs more than everything its handling sets in motion,
      which is its successor's registration, the way through the pool, and its own Finish. */
  ghost function WorkLeft(s: Service): nat {
    Sum(s.ops, OpWeight()) + Sum(s.stage, StageWeight()) + (if s.hasPool then Pool.Remaining(s.pool) else 0) +
    (if s.down then 0 else 1)
  }

  lemma StageWeightStep(s: Service, e: Event)
    requires Enabled(s, e) && Moves(e) && e.w < |s.stage| && StageOk(s, e.w)
    ensures e.w < |Step(s, e).stage|
    ensures var before, after := StageWeight()(s.stage[e.w]), StageWeight()(Step(s, e).stage[e.w]);
            match e
            case Next(_, i) => after < before + OpWeight()(s.ops[i])
            case Spawn(_) => after + 4 == before
            case Mark(_) => after + 11 <= before
            case Post(_) => after + 4 == before
            case _ => after < before
  {
  }

  lemma OpsWork(s: Service, e: Event)
    requires Enabled(s, e)
    ensures var before, after := Sum(s.ops, OpWeight()), Sum(Step(s, e).ops, OpWeight());
            match e
            case Match(_, _) => after == before + 18
            case Cancel(_) => after < before
            case Complete(_, _) => after < before
            case Next(_, i) => after + OpWeight()(s.ops[i]) == before
            case Spawn(_) => after == before + 3
            case Post(_) => after == before + 3
            case _ => after == before
  {
    OpsSum(s, e, OpWeight());
  }

  lemma StagesWork(s: Service, e: Event)
    requires Enabled(s, e) && LocalInv(s)
    ensures var before, after := Sum(s.stage, StageWeight()), Sum(Step(s, e).stage, StageWeight());
            match e
            case Next(_, i) => after < before + OpWeight()(s.ops[i])
            case Delete(_) => after < before
            case Spawn(_) => after + 4 == before
            case Mark(_) => after + 11 <= before
            case Answer(_, _) => after < before
            case Post(_) => after + 4 == before
            case Stop(_) => after < before
            case _ => after == before
  {
    StagesSum(s, e, StageWeight());
    if Moves(e) {
      assert StageOk(s, e.w);
      StageWeightStep(s, e);
    }
  }

  lemma WorkStep(s: Service, e: Event)
    requires Enabled(s, e) && LocalInv(s)
    ensures WorkLeft(Step(s, e)) <= WorkLeft(s) + (if e.Match? then 18 else if e.Spurious? then 2 else 0)
    ensures !e.Match? && !e.Spurious? ==> WorkLeft(Step(s, e)) < WorkLeft(s)
  {
    OpsWork(s, e);
    StagesWork(s, e);
    PoolActionStep(s, e);
    if PoolAction(s, e).Some? { Pool.RemainingStep(s.pool, PoolAction(s, e).value); }
  }

  ghost function IsMatch(): Event -> nat { (e: Event) => if e.Match? then 1 else 0 }

  ghost function IsSpurious(): Event -> nat { (e: Event) => if e.Spurious? then 1 else 0 }

  /** No run is longer than its accepted requests and spurious wakeups pay for. */
  lemma {:induction false} RunsAreBounded(s: Service, es: seq<Event>, k: nat, all: multiset<Pool.Connection>)
    requires Run(s, es) && Inv(s, k, all)
    ensures |es| + WorkLeft(After(s, es)) <= WorkLeft(s) + 19 * Sum(es, IsMatch()) + 3 * Sum(es, IsSpurious())
  {
    if es != [] {
      RunsAreBounded(s, es[..|es| - 1], k, all);
      RunInv(s, es[..|es| - 1], k, all);
      WorkStep(After(s, es[..|es| - 1]), es[|es| - 1]);
    }
  }

  /** Nothing is matched any more once the server is down. */
  lemma {:induction false} NoMatchWhenDown(s: Service, es: seq<Event>, k: nat, all: multiset<Pool.Connection>)
    requires Run(s, es) && Inv(s, k, all) && s.down
    ensures Sum(es, IsMatch()) == 0
  {
    if es != [] {
      NoMatchWhenDown(s, es[..|es| - 1], k, all);
      RunInv(s, es[..|es| - 1], k, all);
    }
  }

  /** Everything a shut down server leaves behind: no operation, no handler, all connections
      queued, and one reply for each request that was ever accepted. */
  ghost predicate Drained(s: Service, connections: seq<Pool.Connection>) {
    && (forall w | 0 <= w < |s.stage| :: s.stage[w].Stopped?)
    && s.ops == []
    && (forall h | 0 <= h < |s.handlers| :: s.handlers[h].state == DELETED)
    && (s.hasPool ==> multiset(s.pool.free) == multiset(connections))
    && (forall h | 0 <= h < |s.handlers| :: Sum(s.log, RepliesTo(h)) == if s.handlers[h].request.Some? then 1 else 0)
  }

  lemma {:induction false} StoppedIsDrained(s: Service, k: nat, connections: seq<Pool.Connection>)
    requires Inv(s, k, multiset(connections)) && forall w | 0 <= w < |s.stage| :: s.stage[w].Stopped?
    ensures Drained(s, connections)
  {
    if s.ops != [] {
      assert OpOk(s, s.ops[0]);
      SumMember(s.ops, 0, OnQueue(s.ops[0].queue));
    }
    forall h | 0 <= h < |s.handlers|
      ensures s.handlers[h].state == DELETED
      ensures Sum(s.log, RepliesTo(h)) == if s.handlers[h].request.Some? then 1 else 0
    {
      assert Owners(s, h) == if IsLive(s, h) then 1 else 0;
      if 0 < Sum(s.stage, RunsHandler(h)) { var w := SumWitness(s.stage, RunsHandler(h)); }
      assert Sum(s.log, RepliesTo(h)) == Finishes(s, h);
      assert HandlerOk(s.handlers[h]);
    }
    if s.hasPool {
      forall w | 0 <= w < |s.pool.phase|
        ensures Pool.EmptyHanded(s.pool.phase[w])
      {
        assert PhaseOk(s.stage[w], s.pool.phase[w]);
      }
      Pool.HeldNone(s.pool.phase);
    }
  }

  /** Shutdown drains: from any reachable state of a server that is down, every run is short, and
      a run that cannot be continued, except by a spurious wakeup, has drained the server. */
  lemma {:induction false} ShutdownDrains(c: Config, s: Service, es: seq<Event>)
    requires Reachable(c, s) && s.down && (c.hasPool ==> c.connections != [])
    requires Run(s, es)
    ensures |es| <= WorkLeft(s) + 3 * Sum(es, IsSpurious())
    ensures (forall e | Enabled(After(s, es), e) :: e.Spurious?) ==> Drained(After(s, es), c.connections)
  {
    ReachableInv(c, s);
    var k, all := c.perQueue, multiset(c.connections);
    RunsAreBounded(s, es, k, all);
    NoMatchWhenDown(s, es, k, all);
    RunInv(s, es, k, all);
    var t := After(s, es);
    if forall e | Enabled(t, e) :: e.Spurious? {
      ReachableContinues(c, s, es);
      if exists w :: 0 <= w < |t.stage| && !t.stage[w].Stopped? {
        Progress(c, t);
        assert false;
      }
      StoppedIsDrained(t, k, c.connections);
    }
  }

  /** Everything a server at rest has done: all workers are back at their queues with the full
      number of acceptors, all connections are queued, and every request that was ever accepted
      has got exactly one reply and its handler is deleted. */
  ghost predicate Served(s: Service, k: nat, connections: seq<Pool.Connection>) {
    && (forall w | 0 <= w < |s.stage| :: s.stage[w].Polling? && Acceptors(s, w) == k)
    && (s.hasPool ==> multiset(s.pool.free) == multiset(connections))
    && (forall h: nat | h < |s.handlers| && s.handlers[h].request.Some? ::
          s.handlers[h].state == DELETED && Sum(s.log, RepliesTo(h)) == 1)
  }

  /** A request that no worker runs and no ready or pending event belongs to has been served. */
  lemma {:induction false} HandledIsServed(s: Service, h: nat)
    requires OwnerInv(s) && LocalInv(s) && LogInv(s) && h < |s.handlers| && s.handlers[h].request.Some?
    requires s.handlers[h].queue < |s.stage| ==> !Runs(s.stage[s.handlers[h].queue], h)
    requires forall i | 0 <= i < |s.ops| && s.ops[i].tag == h :: s.ops[i].ok.None? && s.ops[i].kind.LoginOp?
    ensures s.handlers[h].state == DELETED && Sum(s.log, RepliesTo(h)) == 1
  {
    forall i | 0 <= i < |s.ops| ensures s.ops[i].tag != h { assert OpOk(s, s.ops[i]); }
    forall w | 0 <= w < |s.stage| ensures !Runs(s.stage[w], h) { assert StageOk(s, w); }
    if 0 < Sum(s.ops, TagIs(h)) { var i := SumWitness(s.ops, TagIs(h)); }
    NobodyRuns(s, h);
    assert Owners(s, h) == 0;
    assert HandlerOk(s.handlers[h]);
    assert Sum(s.log, RepliesTo(h)) == Finishes(s, h);
  }

  /** Exactly once, for a server that is up: any state in which nothing but a new request, the
      shutdown or a spurious wakeup can happen has served every request. `RunsAreBounded` says
      that such a state is reached whatever the scheduler does, once requests stop coming. */
  lemma {:induction false} QuietIsServed(c: Config, s: Service)
    requires Reachable(c, s) && !s.down && (c.hasPool ==> c.connections != [])
    requires forall e | Enabled(s, e) :: !IsProgress(e)
    ensures Served(s, c.perQueue, c.connections)
  {
    ReachableInv(c, s);
    forall w | 0 <= w < |s.stage| ensures s.stage[w].Polling? && Acceptors(s, w) == c.perQueue {
      if !s.stage[w].Polling? {
        assert !s.stage[w].Stopped?;
        Progress(c, s);
        assert false;
      }
    }
    forall h: nat | h < |s.handlers| && s.handlers[h].request.Some?
      ensures s.handlers[h].state == DELETED && Sum(s.log, RepliesTo(h)) == 1
    {
      QuietHandler(c, s, h);
    }
    if s.hasPool {
      forall w | 0 <= w < |s.pool.phase|
        ensures Pool.EmptyHanded(s.pool.phase[w])
      {
        assert PhaseOk(s.stage[w], s.pool.phase[w]);
      }
      Pool.HeldNone(s.pool.phase);
    }
  }

  lemma {:induction false} QuietHandler(c: Config, s: Service, h: nat)
    requires Reachable(c, s) && h < |s.handlers| && s.handlers[h].request.Some?
    requires forall w | 0 <= w < |s.stage| :: s.stage[w].Polling?
    requires forall e | Enabled(s, e) :: !IsProgress(e)
    ensures s.handlers[h].state == DELETED && Sum(s.log, RepliesTo(h)) == 1
  {
    ReachableInv(c, s);
    forall i: nat | i < |s.ops| && s.ops[i].tag == h ensures s.ops[i].ok.None? && s.ops[i].kind.LoginOp? {
      assert OpOk(s, s.ops[i]);
      assert Enabled(s, Next(s.ops[i].queue, i)) ==> !IsProgress(Next(s.ops[i].queue, i));
      assert Enabled(s, Complete(i, true)) ==> !IsProgress(Complete(i, true));
    }
    HandledIsServed(s, h);
  }

  /** One more event at the end of a run. */
  lemma RunGoesOn(s: Service, es: seq<Event>, e: Event)
    requires Run(s, es) && Enabled(After(s, es), e)
    ensures Run(s, es + [e]) && After(s, es + [e]) == Step(After(s, es), e)
  {
    assert (es + [e])[..|es|] == es;
  }

  lemma ReachableStep(c: Config, s: Service, e: Event)
    requires Reachable(c, s) && Enabled(s, e)
    ensures Reachable(c, Step(s, e))
  {
    var es :| Run(Start(c), es) && After(Start(c), es) == s;
    RunGoesOn(Start(c), es, e);
  }

  lemma {:induction false} ReachableContinues(c: Config, s: Service, es: seq<Event>)
    requires Reachable(c, s) && Run(s, es)
    ensures Reachable(c, After(s, es))
  {
    if es != [] {
      ReachableContinues(c, s, es[..|es| - 1]);
      ReachableStep(c, After(s, es[..|es| - 1]), es[|es| - 1]);
    }
  }
}
