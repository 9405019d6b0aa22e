/** AsyncUserService and CallHandler as code: setting up the handlers, `proceed`, and the worker
    loop, statement by statement, with the other workers and the runtime going on between any two
    statements. The ghost trace records the events of LoginService that have happened. */
module AsyncUserService {
  import opened Wrappers
  import opened Sums
  import opened Wire
  import opened Codec
  import opened Login
  import opened LoginService
  import opened Requests

  // ----- what the others leave alone ------------------------------------------------------

  /** The worker whose action an event is; the runtime and the operating system are nobody. */
  function WorkerOf(e: Event): Option<nat> {
    match e
    case Next(w, _) => Some(w)
    case Delete(w) => Some(w)
    case Spawn(w) => Some(w)
    case Mark(w) => Some(w)
    case Borrow(w, _) => Some(w)
    case Answer(w, _) => Some(w)
    case Post(w) => Some(w)
    case Stop(w) => Some(w)
    case _ => None
  }

  /** An event has its turn: it happens if it is not worker `w`'s and can happen now. */
  ghost function Turn(s: Service, e: Event, w: nat): Service {
    if WorkerOf(e) != Some(w) && Enabled(s, e) then Step(s, e) else s
  }

  /** The state after all events of a schedule have had their turn, one after the other. */
  ghost function Interleaved(s: Service, schedule: seq<Event>, w: nat): Service {
    if schedule == [] then s else Turn(Interleaved(s, schedule[..|schedule| - 1], w), schedule[|schedule| - 1], w)
  }

  lemma InterleavedNext(s: Service, schedule: seq<Event>, i: nat, w: nat)
    requires i < |schedule|
    ensures Interleaved(s, schedule[..i + 1], w) == Turn(Interleaved(s, schedule[..i], w), schedule[i], w)
  {
    assert schedule[..i + 1][..i] == schedule[..i];
  }

  /** Whatever the others and the runtime can do, there is a schedule for it. */
  lemma {:induction false} SchedulesCoverRuns(s: Service, es: seq<Event>, w: nat)
    requires Run(s, es) && forall i | 0 <= i < |es| :: WorkerOf(es[i]) != Some(w)
    ensures Interleaved(s, es, w) == After(s, es)
  {
    if es != [] { SchedulesCoverRuns(s, es[..|es| - 1], w); }
  }

  /** Handlers stay with their queues and no reply is taken back. */
  ghost predicate Grows(s: Service, t: Service) {
    && s.log <= t.log && |s.handlers| <= |t.handlers|
    && forall h | 0 <= h < |s.handlers| :: t.handlers[h].queue == s.handlers[h].queue
  }

  /** Between `s` and `t` nobody has replied on queue `w`. */
  ghost predicate SilentOn(s: Service, t: Service, w: nat) {
    && Grows(s, t)
    && forall i | |s.log| <= i < |t.log| :: t.log[i].handler < |t.handlers| && t.handlers[t.log[i].handler].queue != w
  }

  /** Worker `w` and its handler are as they were, and nobody has replied on its queue. */
  ghost predicate Untouched(s: Service, t: Service, w: nat) {
    && SilentOn(s, t, w)
    && |t.stage| == |s.stage| && w < |s.stage| && t.stage[w] == s.stage[w]
    && forall h | 0 <= h < |s.handlers| && Runs(s.stage[w], h) :: t.handlers[h] == s.handlers[h]
  }

  /** Worker `w` is where it was in the pool, except that it may have been woken; what it guards
      with the mutex is as it was. */
  ghost predicate PoolUntouched(s: Service, t: Service, w: nat) {
    && |t.pool.phase| == |s.pool.phase|
    && (w < |s.pool.phase| ==>
          t.pool.phase[w] == s.pool.phase[w] || (s.pool.phase[w].Sleeping? && t.pool.phase[w].Woken?))
    && (t.pool.owner == Some(w) <==> s.pool.owner == Some(w))
    && (s.pool.owner == Some(w) ==> t.pool.free == s.pool.free)
  }

  lemma SilentTransitive(s: Service, t: Service, u: Service, w: nat)
    requires SilentOn(s, t, w) && SilentOn(t, u, w)
    ensures SilentOn(s, u, w)
  {
    forall i | |s.log| <= i < |u.log|
      ensures u.log[i].handler < |u.handlers| && u.handlers[u.log[i].handler].queue != w
    {
      if i < |t.log| { assert u.log[i] == t.log[i]; }
    }
  }

  lemma UntouchedTransitive(s: Service, t: Service, u: Service, w: nat)
    requires Untouched(s, t, w) && Untouched(t, u, w)
    ensures Untouched(s, u, w)
  {
    SilentTransitive(s, t, u, w);
  }

  lemma OthersAreSilent(s: Service, e: Event, w: nat)
    requires Enabled(s, e) && LocalInv(s) && WorkerOf(e) != Some(w)
    ensures SilentOn(s, Step(s, e), w)
  {
    if e.Post? { assert StageOk(s, e.w); }
  }

  lemma OthersLeaveWorker(s: Service, e: Event, w: nat)
    requires Enabled(s, e) && OwnerInv(s) && LocalInv(s) && WorkerOf(e) != Some(w) && w < |s.stage|
    ensures Untouched(s, Step(s, e), w)
  {
    OthersAreSilent(s, e, w);
    ChangedIsExclusive(s, e);
  }

  lemma OthersLeavePool(s: Service, e: Event, w: nat, all: multiset<Pool.Connection>)
    requires Enabled(s, e) && PoolInv(s, all) && WorkerOf(e) != Some(w)
    ensures PoolUntouched(s, Step(s, e), w)
  {
    PoolActionStep(s, e);
    if PoolAction(s, e).Some? { OthersLeaveMonitor(s.pool, PoolAction(s, e).value, w); }
  }

  lemma OthersLeaveMonitor(m: Pool.Monitor, a: Pool.Event, w: nat)
    requires Pool.Enabled(m, a) && Pool.MutexInv(m) && (a.w != w || a.Wake?)
    ensures |Pool.Step(m, a).phase| == |m.phase|
    ensures w < |m.phase| ==>
              Pool.Step(m, a).phase[w] == m.phase[w] || (m.phase[w].Sleeping? && Pool.Step(m, a).phase[w].Woken?)
    ensures Pool.Step(m, a).owner == Some(w) <==> m.owner == Some(w)
    ensures m.owner == Some(w) ==> Pool.Step(m, a).free == m.free
  {
    assert Pool.InCritical(m.phase[a.w]) <==> m.owner == Some(a.w);
  }

  // ----- what is owed to the requests of a queue ------------------------------------------

  /** What the database is asked for a request, if there is one to ask. */
  function ResultFor(request: RequestValue, hasPool: bool, query: Bytes -> QueryResult): Option<QueryResult> {
    if hasPool then Some(query(UserOf(request).email)) else None
  }

  function ReplyFor(h: nat, request: RequestValue, hasPool: bool, query: Bytes -> QueryResult): Reply {
    var result := ResultFor(request, hasPool, query);
    Reply(h, request, result, Outcome(request, result).0, Outcome(request, result).1)
  }

  /** From the n-th on, every reply on queue `w` is the one for the request it is for, with what
      the database said when that handler asked it. */
  ghost predicate AnsweredFrom(s: Service, n: nat, w: nat, databases: nat -> Bytes -> QueryResult) {
    forall i | n <= i < |s.log| && s.log[i].handler < |s.handlers| && s.handlers[s.log[i].handler].queue == w ::
      s.log[i] == ReplyFor(s.log[i].handler, s.log[i].request, s.hasPool, databases(s.log[i].handler))
  }

  lemma AnsweredThen(s: Service, t: Service, n: nat, w: nat, databases: nat -> Bytes -> QueryResult)
    requires Grows(s, t) && LogInv(s) && s.hasPool == t.hasPool
    requires AnsweredFrom(s, n, w, databases) && AnsweredFrom(t, |s.log|, w, databases)
    ensures AnsweredFrom(t, n, w, databases)
  {
    forall i | n <= i < |t.log| && t.log[i].handler < |t.handlers| && t.handlers[t.log[i].handler].queue == w
      ensures t.log[i] == ReplyFor(t.log[i].handler, t.log[i].request, t.hasPool, databases(t.log[i].handler))
    {
      if i < |s.log| { assert ReplyOk(s, s.log[i]); }
    }
  }

  /** Every request that was ever accepted on queue `w` has its one reply. */
  ghost predicate ServedOn(s: Service, w: nat) {
    forall h: nat | h < |s.handlers| && s.handlers[h].queue == w && s.handlers[h].request.Some? ::
      s.handlers[h].state == DELETED && Sum(s.log, RepliesTo(h)) == 1
  }

  /** Nothing on queue `w` but registrations that no request has been matched with. */
  ghost predicate OnlyWaiting(s: Service, w: nat) {
    forall i | 0 <= i < |s.ops| && s.ops[i].queue == w :: s.ops[i].ok.None? && s.ops[i].kind.LoginOp?
  }

  lemma {:induction false} WaitingIsServed(s: Service, w: nat)
    requires OwnerInv(s) && LocalInv(s) && LogInv(s) && w < |s.stage|
    requires s.stage[w].Polling? || s.stage[w].Stopped?
    requires OnlyWaiting(s, w)
    ensures ServedOn(s, w)
  {
    forall h: nat | h < |s.handlers| && s.handlers[h].queue == w && s.handlers[h].request.Some?
      ensures s.handlers[h].state == DELETED && Sum(s.log, RepliesTo(h)) == 1
    {
      forall i | 0 <= i < |s.ops| && s.ops[i].tag == h ensures s.ops[i].ok.None? && s.ops[i].kind.LoginOp? {
        assert OpOk(s, s.ops[i]);
      }
      HandledIsServed(s, h);
    }
  }

  /** A request is ready for handler `h`. */
  ghost function ReadyFor(h: nat): Operation -> nat {
    (op: Operation) => if op.tag == h && op.kind.LoginOp? && op.ok == Some(true) then 1 else 0
  }

  /** With its worker at the loop head, a handler's request is ready or has been answered. */
  lemma {:induction false} ReadyOrAnswered(s: Service, h: nat)
    requires OwnerInv(s) && LocalInv(s) && LogInv(s) && h < |s.handlers| && s.handlers[h].queue < |s.stage|
    requires s.stage[s.handlers[h].queue].Polling?
    ensures Sum(s.log, RepliesTo(h)) + Sum(s.ops, ReadyFor(h)) == if s.handlers[h].request.Some? then 1 else 0
  {
    forall w | 0 <= w < |s.stage| ensures !Runs(s.stage[w], h) { assert StageOk(s, w); }
    NobodyRuns(s, h);
    assert Sum(s.log, RepliesTo(h)) == Finishes(s, h);
    assert HandlerOk(s.handlers[h]);
    SumMonotone(s.ops, ReadyFor(h), TagIs(h));
    if IsLive(s, h) {
      assert Owners(s, h) == 1;
      var i := SumWitness(s.ops, TagIs(h));
      assert OpOk(s, s.ops[i]);
      OneReady(s.ops, i, h);
    } else {
      assert Owners(s, h) == 0;
    }
  }

  lemma {:induction false} OneReady(ops: seq<Operation>, i: nat, h: nat)
    requires i < |ops| && ops[i].tag == h && Sum(ops, TagIs(h)) == 1
    ensures Sum(ops, ReadyFor(h)) == ReadyFor(h)(ops[i])
  {
    var rest := ops[..i] + ops[i + 1..];
    SumRemove(ops, i, TagIs(h));
    SumRemove(ops, i, ReadyFor(h));
    SumMonotone(rest, ReadyFor(h), TagIs(h));
  }

  lemma {:induction false} WorkRun(c: Config, es: seq<Event>, n: nat)
    requires Run(Start(c), es) && n <= |es| && OnlyWork(es, n)
    ensures Run(Start(c), es[..n])
    ensures WorkLeft(After(Start(c), es)) + (|es| - n) <= WorkLeft(After(Start(c), es[..n]))
  {
    if n == |es| {
      assert es[..n] == es;
    } else {
      var rest := es[..|es| - 1];
      assert rest[..n] == es[..n];
      WorkRun(c, rest, n);
      ReachableInv(c, After(Start(c), rest));
      WorkStep(After(Start(c), rest), es[|es| - 1]);
    }
  }

  /** The replies that are new on a queue, counted handler by handler: those of the requests that
      were ready, when no other request has been matched since. */
  lemma {:induction false} RepliesAreReadyRequests(s: Service, t: Service, w: nat, h: nat)
    requires OwnerInv(s) && LocalInv(s) && LogInv(s) && OwnerInv(t) && LocalInv(t) && LogInv(t)
    requires w < |s.stage| && s.stage[w].Polling? && ServedOn(t, w) && RequestsKept(s, t, false)
    requires h < |t.handlers| && t.handlers[h].queue == w
    ensures Sum(t.log, RepliesTo(h)) == Sum(s.log, RepliesTo(h)) + Sum(s.ops, ReadyFor(h))
  {
    FinishesBound(t, h);
    assert Sum(t.log, RepliesTo(h)) == Finishes(t, h);
    if h < |s.handlers| {
      ReadyOrAnswered(s, h);
    } else {
      assert Sum(s.log, RepliesTo(h)) == Finishes(s, h);
      forall i | 0 <= i < |s.ops| ensures s.ops[i].tag != h { assert OpOk(s, s.ops[i]); }
      if 0 < Sum(s.ops, ReadyFor(h)) { var i := SumWitness(s.ops, ReadyFor(h)); }
    }
  }

  lemma {:induction false} RepliesSince(c: Config, es: seq<Event>, n: nat, s: Service, t: Service, w: nat)
    requires Run(Start(c), es) && n <= |es| && OnlyWork(es, n) && t == After(Start(c), es)
    requires Run(Start(c), es[..n]) && s == After(Start(c), es[..n])
    requires w < |s.stage| && s.stage[w].Polling? && ServedOn(t, w)
    ensures forall h: nat | h < |t.handlers| && t.handlers[h].queue == w ::
              Sum(t.log, RepliesTo(h)) == Sum(s.log, RepliesTo(h)) + Sum(s.ops, ReadyFor(h))
  {
    ReachableInv(c, s);
    ReachableInv(c, t);
    RequestsRun(c, es, n);
    forall h: nat | h < |t.handlers| && t.handlers[h].queue == w
      ensures Sum(t.log, RepliesTo(h)) == Sum(s.log, RepliesTo(h)) + Sum(s.ops, ReadyFor(h))
    {
      RepliesAreReadyRequests(s, t, w, h);
    }
  }

  /** Worker `w` has posted the reply it was about to post. */
  ghost function Posted(s: Service, w: nat): Service
    requires w < |s.stage| && s.stage[w].Replying? && s.stage[w].h < |s.handlers|
  {
    var h, hd, result := s.stage[w].h, s.handlers[s.stage[w].h], s.stage[w].result;
    s.(log := s.log + [Reply(h, RequestOf(hd), result, Outcome(RequestOf(hd), result).0, hd.response)],
       ops := s.ops + [Operation(h, hd.queue, FinishOp, None)],
       handlers := s.handlers[h := hd.(finishes := hd.finishes + 1)],
       stage := s.stage[w := Polling])
  }

  lemma PostEffect(s: Service, w: nat)
    requires Enabled(s, Post(w))
    ensures Step(s, Post(w)) == Posted(s, w)
  {
  }

  ghost predicate AnySleeps(phases: seq<Pool.Phase>) {
    exists t: nat :: t < |phases| && phases[t].Sleeping?
  }

  /** Exactly one sleeper has been woken, if there was one. */
  ghost predicate OneWoken(before: seq<Pool.Phase>, after: seq<Pool.Phase>) {
    if AnySleeps(before) then exists t: nat :: t < |before| && before[t].Sleeping? && after == before[t := Pool.Woken]
    else after == before
  }

  lemma OneIsWoken(phases: seq<Pool.Phase>, t: nat)
    requires t < |phases| && phases[t].Sleeping?
    ensures OneWoken(phases, phases[t := Pool.Woken])
  {
  }

  lemma NoneIsWoken(phases: seq<Pool.Phase>, w: nat, p: Pool.Phase)
    requires w < |phases| && !AnySleeps(phases) && !p.Sleeping?
    ensures OneWoken(phases[w := p], phases[w := p])
  {
    var changed := phases[w := p];
    forall t: nat | t < |changed| ensures !changed[t].Sleeping? {
      if t != w { assert changed[t] == phases[t]; }
    }
  }

  lemma OneWokenBeside(before: seq<Pool.Phase>, after: seq<Pool.Phase>, w: nat, p: Pool.Phase, q: Pool.Phase)
    requires w < |before| == |after| && !p.Sleeping? && !q.Sleeping? && OneWoken(before[w := p], after)
    ensures OneWoken(before[w := q], after[w := q])
  {
    if AnySleeps(before[w := p]) {
      var t: nat :| t < |before| && before[w := p][t].Sleeping? && after == before[w := p][t := Pool.Woken];
      assert before[w := q][t].Sleeping? && after[w := q] == before[w := q][t := Pool.Woken];
    } else {
      var others := before[w := q];
      forall t: nat | t < |others| ensures !others[t].Sleeping? { assert !before[w := p][t].Sleeping?; }
      assert after[w := q] == before[w := q];
    }
  }

  /** Between `s` and `t` worker `w` has answered the request of handler `h`: the last reply is the
      one for it and the only one on the queue, Finish has just been posted for the handler, and
      it has a successor on the queue. */
  ghost predicate Replied(s: Service, t: Service, w: nat, h: nat, query: Bytes -> QueryResult) {
    && Grows(s, t) && h < |s.handlers| && s.handlers[h].request.Some? && |s.log| < |t.log|
    && t.log[|t.log| - 1] == ReplyFor(h, s.handlers[h].request.value, s.hasPool, query)
    && (forall i | |s.log| <= i < |t.log| - 1 ::
          t.log[i].handler < |t.handlers| && t.handlers[t.log[i].handler].queue != w)
    && t.handlers[h].finishes == 1 && t.ops != [] && t.ops[|t.ops| - 1] == Operation(h, w, FinishOp, None)
    && exists g :: |s.handlers| <= g < |t.handlers| && t.handlers[g].queue == w
  }

  lemma RepliedAnswers(s: Service, t: Service, w: nat, h: nat, databases: nat -> Bytes -> QueryResult)
    requires Replied(s, t, w, h, databases(h)) && s.hasPool == t.hasPool
    ensures AnsweredFrom(t, |s.log|, w, databases)
  {
    forall i | |s.log| <= i < |t.log| && t.log[i].handler < |t.handlers| && t.handlers[t.log[i].handler].queue == w
      ensures t.log[i] == ReplyFor(t.log[i].handler, t.log[i].request, t.hasPool, databases(t.log[i].handler))
    {
      assert i == |t.log| - 1;
    }
  }

  /** Since `s` worker `w` has got everything ready to reply to the request of handler `h`. */
  ghost predicate ReadyToPost(s: Service, t: Service, w: nat, h: nat, query: Bytes -> QueryResult) {
    && SilentOn(s, t, w) && Enabled(t, Post(w)) && h < |s.handlers| && s.handlers[h].request.Some?
    && t.stage[w].h == h && t.stage[w].result == ResultFor(s.handlers[h].request.value, s.hasPool, query)
    && t.handlers[h].queue == w && t.handlers[h].finishes == 0 && t.handlers[h].request == s.handlers[h].request
    && t.handlers[h].response == Outcome(s.handlers[h].request.value, t.stage[w].result).1
    && exists g :: |s.handlers| <= g < |t.handlers| && t.handlers[g].queue == w
  }

  lemma AnswerIsReady(s: Service, spawned: Service, t: Service, w: nat, h: nat, query: Bytes -> QueryResult)
    requires SilentOn(s, spawned, w) && SilentOn(spawned, t, w) && h < |s.handlers| < |spawned.handlers|
    requires spawned.handlers[|spawned.handlers| - 1].queue == w
    requires s.handlers[h].request.Some? && Enabled(t, Post(w)) && t.stage[w].h == h
    requires t.stage[w].result == ResultFor(s.handlers[h].request.value, s.hasPool, query)
    requires t.handlers[h].queue == w && t.handlers[h].finishes == 0 && t.handlers[h].request == s.handlers[h].request
    requires t.handlers[h].response == Outcome(s.handlers[h].request.value, t.stage[w].result).1
    ensures ReadyToPost(s, t, w, h, query)
  {
    SilentTransitive(s, spawned, t, w);
    assert t.handlers[|spawned.handlers| - 1].queue == w;
  }

  lemma StillReady(s: Service, t: Service, u: Service, w: nat, h: nat, query: Bytes -> QueryResult)
    requires ReadyToPost(s, t, w, h, query) && Untouched(t, u, w) && PoolUntouched(t, u, w)
    requires t.hasPool == u.hasPool
    ensures ReadyToPost(s, u, w, h, query)
  {
    SilentTransitive(s, t, u, w);
    var g :| |s.handlers| <= g < |t.handlers| && t.handlers[g].queue == w;
    assert u.handlers[g].queue == w;
  }

  lemma PostedIsReplied(s: Service, t: Service, w: nat, h: nat, query: Bytes -> QueryResult)
    requires ReadyToPost(s, t, w, h, query)
    ensures Replied(s, Posted(t, w), w, h, query)
  {
    var u := Posted(t, w);
    var g :| |s.handlers| <= g < |t.handlers| && t.handlers[g].queue == w;
    assert u.handlers[g].queue == w;
    forall i | |s.log| <= i < |u.log| - 1
      ensures u.log[i].handler < |u.handlers| && u.handlers[u.log[i].handler].queue != w
    {
      assert u.log[i] == t.log[i];
    }
  }

  class AsyncUserService {
    var owner: Option<nat>
    var free: seq<Pool.Connection>
    var phase: seq<Pool.Phase>
    var stage: seq<Stage>
    var handlers: seq<Handler>
    var ops: seq<Operation>
    var log: seq<Reply>
    var down: bool
    const hasPool: bool
    /** What the other workers and the runtime do in the gaps between this worker's statements,
        gap by gap; `gap` is the next one. */
    const others: seq<seq<Event>>
    var gap: nat
    ghost const config: Config
    ghost var trace: seq<Event>

    function View(): Service
      reads this
    {
      Service(Pool.Monitor(owner, free, phase), hasPool, stage, handlers, ops, log, down)
    }

    ghost predicate Valid()
      reads this
    {
      gap <= |others| && Run(Start(config), trace) && After(Start(config), trace) == View()
    }

    lemma Invariant()
      requires Valid()
      ensures Inv(View(), config.perQueue, multiset(config.connections)) && |stage| == config.workers
      ensures hasPool == config.hasPool
      ensures hasPool ==> |phase| == |stage|
    {
      ReachableInv(config, View());
    }

    /** The run goes on; nothing comes from outside but what the schedule says. */
    twostate predicate Continues()
      reads this
    {
      && Valid() && old(trace) <= trace && old(gap) <= gap
      && (gap == old(gap) ==> OnlyWork(trace, |old(trace)|))
    }

    /** The same, and something of the schedule or of the work has been used up. */
    twostate predicate Advances()
      reads this
    {
      Continues() && (gap == old(gap) ==> |old(trace)| < |trace|)
    }

    /** What has happened since `before` has used up some of the work that was left then. */
    lemma LessLeft(before: seq<Event>)
      requires Valid() && before < trace && OnlyWork(trace, |before|)
      ensures Run(Start(config), before) && WorkLeft(View()) < WorkLeft(After(Start(config), before))
    {
      assert trace[..|before|] == before;
      WorkRun(config, trace, |before|);
    }

    /** Exactly the event `e` has happened; the run tells what that has done. */
    twostate predicate Recorded(e: Event)
      reads this
    {
      Valid() && gap == old(gap) && trace == old(trace) + [e] && (IsProgress(e) ==> Advances())
    }

    /** No time has been given to the others, and the queues and replies are as they were. */
    twostate predicate Undisturbed()
      reads this
    {
      gap == old(gap) && ops == old(ops) && log == old(log)
    }

    /** The constructor, and `run` up to the start of the workers. */
    constructor (c: Config, others: seq<seq<Event>>)
      ensures Valid() && config == c && View() == Start(c) && trace == [] && gap == 0 && this.others == others
    {
      owner, free, phase := None, c.connections, seq(c.workers, _ => Pool.Outside);
      stage, handlers, ops, log, down := seq(c.workers, _ => Polling), [], [], [], false;
      hasPool := c.hasPool;
      this.others, gap := others, 0;
      config := c;
      trace := [];
      new;
      for q := 0 to c.workers
        invariant View() == PopulateQueues(Idle(c), q, c.perQueue) && trace == [] && config == c && gap == 0
      {
        for i := 0 to c.perQueue
          invariant View() == Populate(PopulateQueues(Idle(c), q, c.perQueue), q, i) && trace == [] && config == c
          invariant gap == 0
        {
          NewCallHandler(q);
        }
      }
    }

    /** new CallHandler: the handler registers itself with its queue. */
    method NewCallHandler(q: nat)
      modifies this`handlers, this`ops
      ensures View() == Construct(old(View()), q)
    {
      ops := ops + [Operation(|handlers|, q, LoginOp, None)];
      handlers := handlers + [Handler(q, WAIT, None, EMPTY_RESPONSE, 0)];
    }

    /** The event `e` has just happened: `before` was the state it happened in. */
    ghost method Record(before: Service, e: Event)
      requires Run(Start(config), trace) && After(Start(config), trace) == before && gap <= |others|
      requires Enabled(before, e) && Step(before, e) == View()
      modifies this`trace
      ensures Valid() && trace == old(trace) + [e]
    {
      RunGoesOn(Start(config), trace, e);
      trace := trace + [e];
    }

    // ----- what a worker knows of its handler -----------------------------------------------

    lemma Dispatched(w: nat)
      requires Valid() && w < |stage| && stage[w].Dispatch?
      ensures stage[w].op.ok.Some? && stage[w].op.queue == w
      ensures stage[w].op.tag < |handlers| && handlers[stage[w].op.tag].queue == w
      ensures stage[w].op.kind.LoginOp? ==>
                && handlers[stage[w].op.tag].state == WAIT
                && (stage[w].op.ok.value ==> handlers[stage[w].op.tag].request.Some?)
      ensures stage[w].op.kind.FinishOp? ==> handlers[stage[w].op.tag].state == FINISH
    {
      Invariant();
      assert StageOk(View(), w);
    }

    lemma AnsweredWithoutPool(w: nat)
      requires Valid() && w < |stage| && stage[w].Replying? && !hasPool
      ensures stage[w].result == None && stage[w].h < |handlers|
      ensures handlers[stage[w].h].response == Outcome(RequestOf(handlers[stage[w].h]), None).1
    {
      Invariant();
      assert StageOk(View(), w);
    }

    lemma NotInCritical(w: nat)
      requires Valid() && hasPool && w < |phase|
      ensures owner == Some(w) <==> Pool.InCritical(phase[w])
    {
      Invariant();
    }

    lemma OwnerInCritical()
      requires Valid() && hasPool && owner.Some?
      ensures owner.value < |phase| && Pool.InCritical(phase[owner.value])
    {
      Invariant();
    }

    lemma Logged()
      requires Valid()
      ensures LogInv(View())
    {
      Invariant();
    }

    // ----- the others -----------------------------------------------------------------------

    lemma OthersLeave(w: nat, e: Event)
      requires Valid() && w < |stage| && Enabled(View(), e) && WorkerOf(e) != Some(w)
      ensures Untouched(View(), Step(View(), e), w) && PoolUntouched(View(), Step(View(), e), w)
      ensures Step(View(), e).hasPool == hasPool
    {
      Invariant();
      OthersLeaveWorker(View(), e, w);
      OthersLeavePool(View(), e, w, multiset(config.connections));
      PoolActionStep(View(), e);
    }

    /** One event of another worker or of the runtime. */
    method Other(w: nat, e: Event)
      requires Valid() && w < |stage| && Enabled(View(), e) && WorkerOf(e) != Some(w)
      modifies this`owner, this`free, this`phase, this`stage, this`handlers, this`ops, this`log, this`down, this`trace
      ensures Recorded(e) && Untouched(old(View()), View(), w) && PoolUntouched(old(View()), View(), w)
      ensures View() == old(Step(View(), e))
    {
      OthersLeave(w, e);
      Perform(e);
    }

    method Perform(e: Event)
      requires Valid() && Enabled(View(), e)
      modifies this`owner, this`free, this`phase, this`stage, this`handlers, this`ops, this`log, this`down, this`trace
      ensures Recorded(e) && View() == old(Step(View(), e))
    {
      ghost var before := View();
      PoolActionStep(before, e);
      var s := Step(View(), e);
      owner, free, phase := s.pool.owner, s.pool.free, s.pool.phase;
      stage, handlers, ops, log, down := s.stage, s.handlers, s.ops, s.log, s.down;
      assert View() == s;
      Record(before, e);
    }

    /** Any events of others: those of the schedule's next gap. */
    method Others(w: nat)
      requires Valid() && w < |stage|
      modifies this
      ensures Continues() && Untouched(old(View()), View(), w) && PoolUntouched(old(View()), View(), w)
      ensures old(gap) < |others| ==>
                gap == old(gap) + 1 && View() == Interleaved(old(View()), others[old(gap)], w)
      ensures old(gap) == |others| ==> gap == old(gap) && View() == old(View()) && trace == old(trace)
    {
      if gap == |others| { return; }
      var schedule := others[gap];
      gap := gap + 1;
      for i := 0 to |schedule|
        invariant Valid() && old(trace) <= trace && gap == old(gap) + 1
        invariant Untouched(old(View()), View(), w) && PoolUntouched(old(View()), View(), w)
        invariant View() == Interleaved(old(View()), schedule[..i], w)
      {
        ghost var before := View();
        TakeTurn(w, schedule[i]);
        UntouchedTransitive(old(View()), before, View(), w);
        InterleavedNext(old(View()), schedule, i, w);
      }
      assert schedule[..|schedule|] == schedule;
    }

    method TakeTurn(w: nat, e: Event)
      requires Valid() && w < |stage|
      modifies this`owner, this`free, this`phase, this`stage, this`handlers, this`ops, this`log, this`down, this`trace
      ensures Valid() && old(trace) <= trace && View() == Turn(old(View()), e, w)
      ensures Untouched(old(View()), View(), w) && PoolUntouched(old(View()), View(), w)
    {
      if Enabled(View(), e) && WorkerOf(e) != Some(w) { Other(w, e); }
    }

    // ----- waiting --------------------------------------------------------------------------

    /** The worker that owns the mutex takes its next step. */
    method OwnerGoesOn(w: nat)
      requires Valid() && hasPool && w < |stage| && owner.Some? && owner != Some(w)
      modifies this
      ensures Advances() && gap == old(gap) && Untouched(old(View()), View(), w)
      ensures PoolUntouched(old(View()), View(), w)
    {
      OwnerInCritical();
      var v := owner.value;
      if phase[v].Testing? {
        Other(w, Borrow(v, Pool.Test(v)));
      } else if phase[v].Pushing? {
        Other(w, Borrow(v, Pool.Push(v)));
      } else if !phase[v].Notifying? {
        Other(w, Borrow(v, Pool.Unlock(v)));
      } else if t: nat :| t < |phase| && phase[t].Sleeping? {
        Other(w, Borrow(v, Pool.Notify(v, Some(t))));
      } else {
        Other(w, Borrow(v, Pool.Notify(v, None)));
      }
    }

    /** Some worker in the pool takes its next step while `w` sleeps. */
    method PoolGoesOn(w: nat)
      requires Valid() && hasPool && config.connections != [] && w < |stage| && w < |phase| && phase[w].Sleeping?
      modifies this
      ensures Advances() && gap == old(gap) && Untouched(old(View()), View(), w)
      ensures PoolUntouched(old(View()), View(), w)
    {
      NotInCritical(w);
      if owner.Some? {
        OwnerGoesOn(w);
      } else if v: nat :| v < |phase| && (phase[v].Entering? || phase[v].Woken? || phase[v].Releasing?) {
        Other(w, Borrow(v, Pool.Lock(v)));
      } else {
        SomeoneHolds();
        var h: nat :| h < |phase| && h < |stage| && phase[h].Holding? && Enabled(View(), Answer(h, _ => NoRows));
        Other(w, Answer(h, _ => NoRows));
      }
    }

    lemma SomeoneHolds()
      requires Valid() && hasPool && config.connections != [] && owner == None
      requires exists w :: 0 <= w < |phase| && !phase[w].Outside?
      requires forall w | 0 <= w < |phase| :: !phase[w].Entering? && !phase[w].Woken? && !phase[w].Releasing?
      ensures exists h: nat ::
                h < |phase| && h < |stage| && phase[h].Holding? && Enabled(View(), Answer(h, _ => NoRows))
    {
      Invariant();
      assert |multiset(config.connections)| == |config.connections|;
      var h := Pool.SomeHolder(View().pool, multiset(config.connections));
      assert PhaseOk(stage[h], phase[h]) && StageOk(View(), h);
      assert Enabled(View(), Answer(h, _ => NoRows));
    }

    /** Blocked on the mutex: the others go on until it is free. */
    method AwaitMutex(w: nat)
      requires Valid() && hasPool && w < |stage| && owner != Some(w)
      modifies this
      ensures Continues() && owner == None && Untouched(old(View()), View(), w) && PoolUntouched(old(View()), View(), w)
      ensures old(gap == |others| && owner == None) ==> gap == old(gap) && View() == old(View()) && trace == old(trace)
    {
      ghost var alone := gap == |others| && owner == None;
      Others(w);
      while owner.Some?
        invariant Continues() && owner != Some(w)
        invariant Untouched(old(View()), View(), w) && PoolUntouched(old(View()), View(), w)
        invariant alone ==> owner == None && gap == old(gap) && View() == old(View()) && trace == old(trace)
        decreases |others| - gap, WorkLeft(View())
      {
        ghost var before, sofar, turn := View(), trace, gap;
        if gap < |others| { Others(w); } else { OwnerGoesOn(w); }
        if gap == turn { LessLeft(sofar); }
        UntouchedTransitive(old(View()), before, View(), w);
      }
    }

    /** Blocked on the condition variable: the others go on until somebody notifies this worker,
        or it wakes up for no reason. */
    method AwaitWakeup(w: nat)
      requires Valid() && hasPool && config.connections != [] && w < |stage| && w < |phase| && phase[w].Sleeping?
      modifies this
      ensures Continues() && Untouched(old(View()), View(), w) && |phase| == |old(phase)| && phase[w].Woken?
      ensures owner != Some(w)
    {
      NotInCritical(w);
      while phase[w].Sleeping?
        invariant Continues() && owner != Some(w)
        invariant Untouched(old(View()), View(), w) && PoolUntouched(old(View()), View(), w)
        decreases |others| - gap, WorkLeft(View())
      {
        ghost var before, sofar, turn := View(), trace, gap;
        if gap < |others| { Others(w); } else { PoolGoesOn(w); }
        if gap == turn { LessLeft(sofar); }
        UntouchedTransitive(old(View()), before, View(), w);
      }
    }

    // ----- the pool: acquire and release ----------------------------------------------------

    /** One critical section or notification of the pool. */
    method PoolAct(w: nat, a: Pool.Event, owner': Option<nat>, free': seq<Pool.Connection>, phase': seq<Pool.Phase>)
      requires Valid() && Enabled(View(), Borrow(w, a))
      requires Pool.Monitor(owner', free', phase') == Pool.Step(View().pool, a)
      modifies this`owner, this`free, this`phase, this`trace
      ensures Recorded(Borrow(w, a)) && owner == owner' && free == free' && phase == phase'
      ensures w < |stage| ==> Untouched(old(View()), View(), w)
    {
      ghost var before := View();
      owner, free, phase := owner', free', phase';
      Record(before, Borrow(w, a));
    }

    /** Locks the mutex, in `acquire` for the first time or after a wakeup, or in `release`. */
    method LockMutex(w: nat)
      requires Valid() && hasPool && w < |stage| && w < |phase|
      requires phase[w].Entering? || phase[w].Woken? || phase[w].Releasing?
      modifies this
      ensures Advances() && Untouched(old(View()), View(), w) && |phase| == |old(phase)| && owner == Some(w)
      ensures phase[w] == if old(phase[w].Releasing?) then Pool.Pushing(old(phase[w].conn)) else Pool.Testing
      ensures old(gap == |others| && owner == None) ==>
                && Undisturbed() && free == old(free) && phase == old(phase)[w := phase[w]]
                && trace == old(trace) + [Borrow(w, Pool.Lock(w))]
    {
      NotInCritical(w);
      AwaitMutex(w);
      ghost var before := View();
      PoolAct(w, Pool.Lock(w), Some(w), free,
              phase[w := if phase[w].Releasing? then Pool.Pushing(phase[w].conn) else Pool.Testing]);
      UntouchedTransitive(old(View()), before, View(), w);
    }

    /** The predicate is false: sleep, wake up, and take the mutex again. */
    method SleepUntilNotified(w: nat)
      requires Valid() && hasPool && config.connections != [] && w < |stage| && w < |phase|
      requires phase[w].Testing? && owner == Some(w) && free == []
      modifies this
      ensures Advances() && Untouched(old(View()), View(), w)
      ensures |phase| == |old(phase)| && phase[w].Testing? && owner == Some(w)
    {
      ghost var start := View();
      FallAsleep(w);
      ghost var asleep := View();
      AwaitWakeup(w);
      UntouchedTransitive(start, asleep, View(), w);
      ghost var woken := View();
      LockMutex(w);
      UntouchedTransitive(start, woken, View(), w);
    }

    method FallAsleep(w: nat)
      requires Valid() && hasPool && w < |stage| && w < |phase| && phase[w].Testing? && owner == Some(w) && free == []
      modifies this
      ensures Advances() && Untouched(old(View()), View(), w) && |phase| == |old(phase)| && phase[w].Sleeping?
    {
      Others(w);
      ghost var before := View();
      PoolAct(w, Pool.Test(w), None, free, phase[w := Pool.Sleeping]);
      UntouchedTransitive(old(View()), before, View(), w);
    }

    /** acquire(): lock, wait until the queue is not empty, pop its front, unlock. */
    method Acquire(w: nat)
      requires Valid() && hasPool && config.connections != [] && w < |stage| && w < |phase| && phase[w].Entering?
      modifies this
      ensures Advances() && Untouched(old(View()), View(), w)
      ensures |phase| == |old(phase)| && phase[w].Holding? && owner != Some(w)
      ensures old(gap == |others| && owner == None && free != []) ==>
                && Undisturbed() && owner == None && free == old(free[1..])
                && phase == old(phase)[w := Pool.Holding(old(free[0]))]
                && trace == old(trace) + [Borrow(w, Pool.Lock(w)), Borrow(w, Pool.Test(w)), Borrow(w, Pool.Unlock(w))]
    {
      AwaitConnection(w);
      ghost var before := View();
      PopFront(w);
      UntouchedTransitive(old(View()), before, View(), w);
    }

    /** _condVar.wait(lock, predicate). */
    method AwaitConnection(w: nat)
      requires Valid() && hasPool && config.connections != [] && w < |stage| && w < |phase| && phase[w].Entering?
      modifies this
      ensures Advances() && Untouched(old(View()), View(), w)
      ensures |phase| == |old(phase)| && phase[w].Testing? && owner == Some(w) && free != []
      ensures old(gap == |others| && owner == None && free != []) ==>
                && Undisturbed() && free == old(free) && phase == old(phase)[w := Pool.Testing]
                && trace == old(trace) + [Borrow(w, Pool.Lock(w))]
    {
      LockMutex(w);
      while free == []
        invariant Advances() && Untouched(old(View()), View(), w)
        invariant |phase| == |old(phase)| && phase[w].Testing? && owner == Some(w)
        invariant old(gap == |others| && owner == None && free != []) ==>
                    && Undisturbed() && free == old(free) && phase == old(phase)[w := Pool.Testing]
                    && trace == old(trace) + [Borrow(w, Pool.Lock(w))]
        decreases |others| - gap, WorkLeft(View())
      {
        ghost var before, sofar, turn := View(), trace, gap;
        SleepUntilNotified(w);
        if gap == turn { LessLeft(sofar); }
        UntouchedTransitive(old(View()), before, View(), w);
      }
    }

    method PopFront(w: nat)
      requires Valid() && hasPool && w < |stage| && w < |phase| && phase[w].Testing? && owner == Some(w) && free != []
      modifies this
      ensures Advances() && Untouched(old(View()), View(), w)
      ensures |phase| == |old(phase)| && phase[w] == Pool.Holding(old(free[0])) && owner == None
      ensures old(gap) == |others| ==>
                && Undisturbed() && free == old(free[1..]) && phase == old(phase)[w := phase[w]]
                && trace == old(trace) + [Borrow(w, Pool.Test(w)), Borrow(w, Pool.Unlock(w))]
    {
      TakeFront(w);
      ghost var before := View();
      UnlockMutex(w);
      UntouchedTransitive(old(View()), before, View(), w);
    }

    method TakeFront(w: nat)
      requires Valid() && hasPool && w < |stage| && w < |phase| && phase[w].Testing? && owner == Some(w) && free != []
      modifies this
      ensures Advances() && Untouched(old(View()), View(), w)
      ensures |phase| == |old(phase)| && phase[w] == Pool.Taken(old(free[0])) && owner == Some(w)
      ensures free == old(free[1..])
      ensures old(gap) == |others| ==>
                Undisturbed() && phase == old(phase)[w := phase[w]] && trace == old(trace) + [Borrow(w, Pool.Test(w))]
    {
      Others(w);
      ghost var before := View();
      PoolAct(w, Pool.Test(w), Some(w), free[1..], phase[w := Pool.Taken(free[0])]);
      UntouchedTransitive(old(View()), before, View(), w);
    }

    method UnlockMutex(w: nat)
      requires Valid() && hasPool && w < |stage| && w < |phase| && (phase[w].Taken? || phase[w].Leaving?)
      requires owner == Some(w)
      modifies this
      ensures Advances() && Untouched(old(View()), View(), w)
      ensures |phase| == |old(phase)| && owner == None
      ensures phase[w] == if old(phase[w].Taken?) then Pool.Holding(old(phase[w].conn)) else Pool.Outside
      ensures old(gap) == |others| ==>
                && Undisturbed() && free == old(free) && phase == old(phase)[w := phase[w]]
                && trace == old(trace) + [Borrow(w, Pool.Unlock(w))]
    {
      Others(w);
      ghost var before := View();
      var next := if phase[w].Taken? then Pool.Holding(phase[w].conn) else Pool.Outside;
      PoolAct(w, Pool.Unlock(w), None, free, phase[w := next]);
      UntouchedTransitive(old(View()), before, View(), w);
    }

    /** release(): lock, push at the back, notify one, unlock. */
    method Release(w: nat)
      requires Valid() && hasPool && w < |stage| && w < |phase| && phase[w].Releasing?
      modifies this
      ensures Advances() && Untouched(old(View()), View(), w)
      ensures |phase| == |old(phase)| && phase[w].Outside? && owner == None
      ensures old(gap == |others| && owner == None) ==>
                && Undisturbed() && free == old(free) + [old(phase[w].conn)]
                && OneWoken(old(phase)[w := Pool.Outside], phase)
    {
      ghost var phases := phase;
      LockAndPush(w);
      ghost var pushed := View();
      assert old(gap == |others| && owner == None) ==> phase[w := Pool.Outside] == phases[w := Pool.Outside];
      NotifyAndUnlock(w);
      UntouchedTransitive(old(View()), pushed, View(), w);
    }

    method LockAndPush(w: nat)
      requires Valid() && hasPool && w < |stage| && w < |phase| && phase[w].Releasing?
      modifies this
      ensures Advances() && Untouched(old(View()), View(), w)
      ensures |phase| == |old(phase)| && phase[w].Notifying? && owner == Some(w)
      ensures old(gap == |others| && owner == None) ==>
                Undisturbed() && free == old(free) + [old(phase[w].conn)] && phase == old(phase)[w := Pool.Notifying]
    {
      LockMutex(w);
      ghost var locked := View();
      PushBack(w);
      UntouchedTransitive(old(View()), locked, View(), w);
    }

    method PushBack(w: nat)
      requires Valid() && hasPool && w < |stage| && w < |phase| && phase[w].Pushing? && owner == Some(w)
      modifies this
      ensures Advances() && Untouched(old(View()), View(), w)
      ensures |phase| == |old(phase)| && phase[w].Notifying? && owner == Some(w)
      ensures free == old(free) + [old(phase[w].conn)]
      ensures old(gap) == |others| ==> Undisturbed() && phase == old(phase)[w := Pool.Notifying]
    {
      Others(w);
      ghost var before := View();
      PoolAct(w, Pool.Push(w), Some(w), free + [phase[w].conn], phase[w := Pool.Notifying]);
      UntouchedTransitive(old(View()), before, View(), w);
    }

    method NotifyAndUnlock(w: nat)
      requires Valid() && hasPool && w < |stage| && w < |phase| && phase[w].Notifying? && owner == Some(w)
      modifies this
      ensures Advances() && Untouched(old(View()), View(), w)
      ensures |phase| == |old(phase)| && phase[w].Outside? && owner == None
      ensures old(gap) == |others| ==>
                Undisturbed() && free == old(free) && OneWoken(old(phase)[w := Pool.Outside], phase)
    {
      OthersThenNotify(w);
      ghost var notified := View();
      UnlockMutex(w);
      UntouchedTransitive(old(View()), notified, View(), w);
      if old(gap) == |others| { OneWokenBeside(old(phase), notified.pool.phase, w, Pool.Leaving, Pool.Outside); }
    }

    method OthersThenNotify(w: nat)
      requires Valid() && hasPool && w < |stage| && w < |phase| && phase[w].Notifying? && owner == Some(w)
      modifies this
      ensures Advances() && Untouched(old(View()), View(), w)
      ensures |phase| == |old(phase)| && phase[w].Leaving? && owner == Some(w) && free == old(free)
      ensures old(gap) == |others| ==> Undisturbed() && OneWoken(old(phase)[w := Pool.Leaving], phase)
    {
      Others(w);
      ghost var before := View();
      NotifyOne(w);
      UntouchedTransitive(old(View()), before, View(), w);
    }

    /** _condVar.notify_one(): any one of the sleepers. */
    method NotifyOne(w: nat)
      requires Valid() && hasPool && w < |stage| && w < |phase| && phase[w].Notifying? && owner == Some(w)
      modifies this`owner, this`free, this`phase, this`trace
      ensures Advances() && gap == old(gap) && Untouched(old(View()), View(), w)
      ensures |phase| == |old(phase)| && phase[w].Leaving? && owner == Some(w) && free == old(free)
      ensures OneWoken(old(phase)[w := Pool.Leaving], phase)
    {
      ghost var leaving := phase[w := Pool.Leaving];
      if t: nat :| t < |phase| && phase[t].Sleeping? {
        OneIsWoken(leaving, t);
        PoolAct(w, Pool.Notify(w, Some(t)), owner, free, phase[w := Pool.Leaving][t := Pool.Woken]);
      } else {
        NoneIsWoken(phase, w, Pool.Leaving);
        PoolAct(w, Pool.Notify(w, None), owner, free, phase[w := Pool.Leaving]);
      }
    }

    // ----- CallHandler::handleLogin ---------------------------------------------------------

    /** The query is done; on success the response is filled in; the connection is on its way back. */
    method FillResponse(w: nat, query: Bytes -> QueryResult)
      requires Valid() && Enabled(View(), Answer(w, query))
      modifies this`stage, this`handlers, this`phase, this`trace
      ensures Recorded(Answer(w, query)) && |phase| == |old(phase)| && phase[w] == Pool.Releasing(old(phase[w].conn))
      ensures var h, request := old(stage[w].h), old(RequestOf(handlers[stage[w].h]));
              var result := Some(query(UserOf(request).email));
              && stage == old(stage)[w := Replying(h, result)]
              && handlers == old(handlers)[h := old(handlers[stage[w].h]).(response := Outcome(request, result).1)]
    {
      ghost var before := View();
      var h, request := stage[w].h, RequestOf(handlers[stage[w].h]);
      var result := query(UserOf(request).email);
      handlers := handlers[h := handlers[h].(response := Outcome(request, Some(result)).1)];
      stage := stage[w := Replying(h, Some(result))];
      phase := phase[w := Pool.Releasing(phase[w].conn)];
      Record(before, Answer(w, query));
    }

    /** Worker `w` is in handleLogin, about to borrow, or past it when there is no pool. */
    ghost predicate Borrows(w: nat)
      reads this
    {
      && w < |stage|
      && (hasPool ==> w < |phase| && stage[w].Serving? && phase[w].Entering? && config.connections != [])
      && (!hasPool ==> stage[w].Replying?)
      && stage[w].h < |handlers| && handlers[stage[w].h].queue == w && handlers[stage[w].h].request.Some?
    }

    /** handleLogin: borrow, ask the database about the email of this request, give back. */
    method BorrowAndAnswer(w: nat, query: Bytes -> QueryResult)
      requires Valid() && Borrows(w)
      modifies this
      ensures Continues() && SilentOn(old(View()), View(), w) && |stage| == |old(stage)|
      ensures var h, request := old(stage[w].h), old(handlers[stage[w].h].request.value);
              var result := ResultFor(request, hasPool, query);
              && stage[w] == Replying(h, result)
              && h < |handlers| && handlers[h] == old(handlers[h]).(response := Outcome(request, result).1)
      ensures hasPool ==> |phase| == |old(phase)| && w < |phase| && phase[w].Outside? && owner != Some(w)
      ensures old(gap == |others| && (hasPool ==> owner == None && free != [])) ==>
                Undisturbed() && (hasPool ==> owner == None && free == old(free[1..] + [free[0]]))
    {
      if hasPool {
        QueryDatabase(w, query);
        ghost var before := View();
        Release(w);
        SilentTransitive(old(View()), before, View(), w);
      } else {
        AnsweredWithoutPool(w);
      }
    }

    method QueryDatabase(w: nat, query: Bytes -> QueryResult)
      requires Valid() && Borrows(w) && hasPool
      modifies this
      ensures Continues() && SilentOn(old(View()), View(), w) && |stage| == |old(stage)|
      ensures var h, request := old(stage[w].h), old(handlers[stage[w].h].request.value);
              var result := Some(query(UserOf(request).email));
              && stage[w] == Replying(h, result)
              && h < |handlers| && handlers[h] == old(handlers[h]).(response := Outcome(request, result).1)
      ensures |phase| == |old(phase)| && phase[w].Releasing?
      ensures old(gap == |others| && owner == None && free != []) ==>
                Undisturbed() && owner == None && free == old(free[1..]) && phase[w].conn == old(free[0])
    {
      AcquireAndQuery(w);
      ghost var before := View();
      FillResponse(w, query);
      SilentTransitive(old(View()), before, View(), w);
    }

    /** The borrow and the query itself, during which the others go on. */
    method AcquireAndQuery(w: nat)
      requires Valid() && Borrows(w) && hasPool
      modifies this
      ensures Advances() && Untouched(old(View()), View(), w) && |phase| == |old(phase)| && phase[w].Holding?
      ensures old(gap == |others| && owner == None && free != []) ==>
                Undisturbed() && owner == None && free == old(free[1..]) && phase[w].conn == old(free[0])
    {
      Acquire(w);
      ghost var acquired := View();
      Others(w);
      UntouchedTransitive(old(View()), acquired, View(), w);
    }

    // ----- CallHandler::proceed -------------------------------------------------------------

    method SpawnSuccessor(w: nat)
      requires Valid() && Enabled(View(), Spawn(w))
      modifies this`stage, this`handlers, this`ops, this`trace
      ensures Recorded(Spawn(w)) && stage == old(stage)[w := Marking(old(stage[w].op.tag))]
      ensures var q := old(handlers[stage[w].op.tag].queue);
              && handlers == old(handlers) + [Handler(q, WAIT, None, EMPTY_RESPONSE, 0)]
              && ops == old(ops) + [Operation(|old(handlers)|, q, LoginOp, None)]
    {
      ghost var before := View();
      var h := stage[w].op.tag;
      NewCallHandler(handlers[h].queue);
      stage := stage[w := Marking(h)];
      Record(before, Spawn(w));
    }

    /** _state = FINISH, and the call of handleLogin. */
    method SetFinish(w: nat)
      requires Valid() && Enabled(View(), Mark(w))
      modifies this`stage, this`handlers, this`phase, this`trace
      ensures Recorded(Mark(w))
      ensures var h := old(stage[w].h);
              && stage == old(stage)[w := if hasPool then Serving(h) else Replying(h, None)]
              && handlers == old(handlers)[h := old(handlers[stage[w].h]).(state := FINISH)]
      ensures hasPool ==> |phase| == |old(phase)| && w < |phase| && phase[w].Entering?
    {
      ghost var before := View();
      var h := stage[w].h;
      stage := stage[w := if hasPool then Serving(h) else Replying(h, None)];
      handlers := handlers[h := handlers[h].(state := FINISH)];
      if hasPool { phase := phase[w := Pool.Entering]; }
      Record(before, Mark(w));
    }

    /** _responder.Finish: the handler is registered as the tag of its reply. */
    method PostReply(w: nat)
      requires Valid() && Enabled(View(), Post(w))
      modifies this`stage, this`handlers, this`ops, this`log, this`trace
      ensures Recorded(Post(w)) && View() == Posted(old(View()), w)
      ensures ops == old(ops) + [Operation(old(stage[w].h), old(handlers[stage[w].h].queue), FinishOp, None)]
      ensures |log| == |old(log)| + 1
    {
      ghost var before := View();
      PostEffect(before, w);
      var h, result := stage[w].h, stage[w].result;
      var hd, request := handlers[h], RequestOf(handlers[h]);
      log := log + [Reply(h, request, result, Outcome(request, result).0, hd.response)];
      ops := ops + [Operation(h, hd.queue, FinishOp, None)];
      handlers := handlers[h := hd.(finishes := hd.finishes + 1)];
      stage := stage[w := Polling];
      assert View() == Posted(before, w);
      Record(before, Post(w));
    }

    /** delete this, or delete of a handler whose event was not ok. */
    method DeleteHandler(w: nat)
      requires Valid() && Enabled(View(), Delete(w)) && stage[w].op.tag < |handlers|
      modifies this`stage, this`handlers, this`trace
      ensures Recorded(Delete(w)) && stage == old(stage)[w := Polling]
      ensures handlers == old(handlers)[old(stage[w].op.tag) := old(handlers[stage[w].op.tag]).(state := DELETED)]
    {
      ghost var before := View();
      var h := stage[w].op.tag;
      stage, handlers := stage[w := Polling], handlers[h := handlers[h].(state := DELETED)];
      Record(before, Delete(w));
    }

    lemma MarkingIsReady(w: nat)
      requires Valid() && w < |stage| && stage[w].Marking?
      ensures Enabled(View(), Mark(w)) && handlers[stage[w].h].queue == w && handlers[stage[w].h].request.Some?
      ensures handlers[stage[w].h].finishes == 0
    {
      Invariant();
      assert StageOk(View(), w);
      assert HandlerOk(handlers[stage[w].h]);
      assert hasPool ==> PhaseOk(stage[w], phase[w]);
    }

    /** The handler is on its way through handleLogin: the answer, and the way to Finish. */
    method MarkAndAnswer(w: nat, query: Bytes -> QueryResult)
      requires Valid() && w < |stage| && stage[w].Marking? && (hasPool ==> config.connections != [])
      requires stage[w].h < |handlers| && handlers[stage[w].h].request.Some?
      modifies this
      ensures Advances() && SilentOn(old(View()), View(), w) && |stage| == |old(stage)|
      ensures Enabled(View(), Post(w)) && stage[w].h == old(stage[w].h) && handlers[stage[w].h].queue == w
      ensures handlers[stage[w].h].finishes == 0
      ensures var request := old(handlers[stage[w].h].request.value);
              var result := ResultFor(request, hasPool, query);
              && stage[w].result == result && handlers[stage[w].h].request == Some(request)
              && handlers[stage[w].h].response == Outcome(request, result).1
      ensures old(gap == |others| && (hasPool ==> owner == None && free != [])) ==>
                Undisturbed() && (hasPool ==> owner == None && free == old(free[1..] + [free[0]]))
    {
      ghost var start := View();
      Others(w);
      MarkingIsReady(w);
      ghost var before := View();
      SetFinish(w);
      SilentTransitive(start, before, View(), w);
      ghost var marked := View();
      BorrowAndAnswer(w, query);
      SilentTransitive(start, marked, View(), w);
    }

    /** An accepted request: the successor is registered first, then the request is answered, and
        one Finish is posted. */
    method ServeRequest(w: nat, query: Bytes -> QueryResult)
      requires Valid() && Enabled(View(), Spawn(w)) && (hasPool ==> config.connections != [])
      modifies this
      ensures Advances() && |stage| == |old(stage)| && stage[w].Polling?
      ensures Replied(old(View()), View(), w, old(stage[w].op.tag), query)
      ensures old(gap == |others| && (hasPool ==> owner == None && free != [])) ==>
                && gap == old(gap) && (hasPool ==> owner == None && free == old(free[1..] + [free[0]]))
                && |log| == |old(log)| + 1
                && ops == old(ops) + [Operation(|old(handlers)|, w, LoginOp, None),
                                      Operation(old(stage[w].op.tag), w, FinishOp, None)]
    {
      ghost var start := View();
      SpawnAndAnswer(w, query);
      FinishRequest(w, start, start.stage[w].op.tag, query);
    }

    /** The end of proceed: Finish, after whatever the others have done since handleLogin. */
    method FinishRequest(w: nat, ghost start: Service, ghost h: nat, ghost query: Bytes -> QueryResult)
      requires Valid() && w < |stage| && start.hasPool == hasPool && ReadyToPost(start, View(), w, h, query)
      modifies this
      ensures Advances() && |stage| == |old(stage)| && stage[w].Polling?
      ensures Replied(start, View(), w, h, query)
      ensures old(gap) == |others| ==>
                && gap == old(gap) && owner == old(owner) && free == old(free)
                && |log| == |old(log)| + 1 && ops == old(ops) + [Operation(h, w, FinishOp, None)]
    {
      ghost var before := View();
      Others(w);
      ghost var after := View();
      StillReady(start, before, after, w, h, query);
      PostReply(w);
      PostedIsReplied(start, after, w, h, query);
    }

    method SpawnAndAnswer(w: nat, query: Bytes -> QueryResult)
      requires Valid() && Enabled(View(), Spawn(w)) && (hasPool ==> config.connections != [])
      modifies this
      ensures Advances() && |stage| == |old(stage)|
      ensures ReadyToPost(old(View()), View(), w, old(stage[w].op.tag), query)
      ensures old(gap == |others| && (hasPool ==> owner == None && free != [])) ==>
                && gap == old(gap) && (hasPool ==> owner == None && free == old(free[1..] + [free[0]]))
                && log == old(log) && ops == old(ops) + [Operation(|old(handlers)|, w, LoginOp, None)]
    {
      ghost var start := View();
      SpawnFirst(w);
      AnswerSpawned(w, query, start, start.stage[w].op.tag);
    }

    /** The rest of handleLogin's work for handler `h`, which was dispatched in state `s`. */
    method AnswerSpawned(w: nat, query: Bytes -> QueryResult, ghost s: Service, ghost h: nat)
      requires Valid() && w < |stage| && stage[w] == Marking(h) && (hasPool ==> config.connections != [])
      requires SilentOn(s, View(), w) && s.hasPool == hasPool && h < |s.handlers| < |handlers|
      requires handlers[h] == s.handlers[h] && handlers[h].request.Some? && handlers[|handlers| - 1].queue == w
      modifies this
      ensures Advances() && |stage| == |old(stage)| && ReadyToPost(s, View(), w, h, query)
      ensures old(gap == |others| && (hasPool ==> owner == None && free != [])) ==>
                Undisturbed() && (hasPool ==> owner == None && free == old(free[1..] + [free[0]]))
    {
      ghost var spawned := View();
      MarkAndAnswer(w, query);
      AnswerIsReady(s, spawned, View(), w, h, query);
    }

    method SpawnFirst(w: nat)
      requires Valid() && Enabled(View(), Spawn(w))
      modifies this
      ensures Advances() && SilentOn(old(View()), View(), w) && |stage| == |old(stage)|
      ensures stage[w] == Marking(old(stage[w].op.tag)) && old(stage[w].op.tag) < |old(handlers)|
      ensures handlers[old(stage[w].op.tag)] == old(handlers[stage[w].op.tag])
      ensures handlers[old(stage[w].op.tag)].request.Some?
      ensures |old(handlers)| < |handlers| && handlers[|handlers| - 1].queue == w
      ensures handlers[|handlers| - 1].state == WAIT
      ensures ops != [] && ops[|ops| - 1] == Operation(|handlers| - 1, w, LoginOp, None)
      ensures old(gap) == |others| ==>
                && gap == old(gap) && log == old(log) && owner == old(owner) && free == old(free)
                && |handlers| == |old(handlers)| + 1
                && ops == old(ops) + [Operation(|old(handlers)|, w, LoginOp, None)]
    {
      Dispatched(w);
      Others(w);
      ghost var before := View();
      SpawnSuccessor(w);
      SilentTransitive(old(View()), before, View(), w);
    }

    /** proceed(): serves a request that has arrived, deletes a handler whose reply has left. */
    method Proceed(w: nat, query: Bytes -> QueryResult)
      requires Valid() && w < |stage| && stage[w].Dispatch? && stage[w].op.ok == Some(true)
      requires hasPool ==> config.connections != []
      modifies this
      ensures Advances() && |stage| == |old(stage)| && stage[w].Polling?
      ensures old(stage[w].op.kind) == LoginOp ==> Replied(old(View()), View(), w, old(stage[w].op.tag), query)
      ensures old(stage[w].op.kind) == FinishOp ==>
                && SilentOn(old(View()), View(), w)
                && old(stage[w].op.tag) < |handlers| && handlers[old(stage[w].op.tag)].state == DELETED
      ensures old(gap == |others| && (hasPool ==> owner == None && free != [])) ==>
                && gap == old(gap) && (hasPool ==> owner == None && free != [])
                && if old(stage[w].op.kind) == LoginOp then
                     && |log| == |old(log)| + 1
                     && ops == old(ops) + [Operation(|old(handlers)|, w, LoginOp, None),
                                      Operation(old(stage[w].op.tag), w, FinishOp, None)]
                   else log == old(log) && ops == old(ops)
    {
      Dispatched(w);
      if handlers[stage[w].op.tag].state == WAIT {
        ServeRequest(w, query);
      } else if handlers[stage[w].op.tag].state == FINISH {
        OthersThenDelete(w);
      }
    }

    method OthersThenDelete(w: nat)
      requires Valid() && Enabled(View(), Delete(w)) && stage[w].op.tag < |handlers|
      modifies this
      ensures Advances() && SilentOn(old(View()), View(), w) && |stage| == |old(stage)| && stage[w].Polling?
      ensures old(stage[w].op.tag) < |handlers| && handlers[old(stage[w].op.tag)].state == DELETED
      ensures old(gap) == |others| ==> Undisturbed() && owner == old(owner) && free == old(free)
    {
      Others(w);
      ghost var before := View();
      DeleteHandler(w);
      SilentTransitive(old(View()), before, View(), w);
    }

    // ----- workerLoop -----------------------------------------------------------------------

    method TakeEvent(w: nat, i: nat)
      requires Valid() && Enabled(View(), Next(w, i))
      modifies this`stage, this`ops, this`trace
      ensures Recorded(Next(w, i)) && stage == old(stage)[w := Dispatch(old(ops[i]))]
      ensures ops == old(ops[..i] + ops[i + 1..])
    {
      ghost var before := View();
      stage := stage[w := Dispatch(ops[i])];
      ops := ops[..i] + ops[i + 1..];
      Record(before, Next(w, i));
    }

    method StopWorker(w: nat)
      requires Valid() && Enabled(View(), Stop(w))
      modifies this`stage, this`trace
      ensures Recorded(Stop(w)) && stage == old(stage)[w := Stopped]
    {
      ghost var before := View();
      stage := stage[w := Stopped];
      Record(before, Stop(w));
    }

    /** cq->Next(&tag, &isOk): blocks until an event of the queue is ready or the queue has been
        shut down and drained. It comes back without either only when nothing is ready and the
        others have nothing more to do than to send new requests. */
    method NextEvent(w: nat)
      requires Valid() && w < |stage| && stage[w].Polling?
      modifies this
      ensures Continues() && SilentOn(old(View()), View(), w) && |stage| == |old(stage)|
      ensures stage[w].Dispatch? ==> Advances()
      ensures stage[w].Dispatch? || stage[w].Stopped? || (stage[w].Polling? && gap == |others| && !down)
      ensures !stage[w].Dispatch? ==> OnlyWaiting(View(), w)
    {
      Others(w);
      var quiet := false;
      while stage[w].Polling? && !quiet
        invariant Continues() && SilentOn(old(View()), View(), w) && |stage| == |old(stage)|
        invariant stage[w].Dispatch? ==> Advances()
        invariant stage[w].Dispatch? || stage[w].Stopped? || stage[w].Polling?
        invariant quiet ==> stage[w].Polling? && gap == |others| && !down
        invariant stage[w].Stopped? || quiet ==> OnlyWaiting(View(), w)
        decreases !quiet, |others| - gap, WorkLeft(View())
      {
        ghost var before, sofar, turn := View(), trace, gap;
        quiet := LookForEvent(w);
        if !quiet && gap == turn { LessLeft(sofar); }
        SilentTransitive(old(View()), before, View(), w);
      }
    }

    /** Takes an event, or notices that the queue is drained, or lets the others go on. */
    method LookForEvent(w: nat) returns (quiet: bool)
      requires Valid() && w < |stage| && stage[w].Polling?
      modifies this
      ensures if quiet then View() == old(View()) && trace == old(trace) && gap == old(gap) else Advances()
      ensures SilentOn(old(View()), View(), w) && |stage| == |old(stage)|
      ensures stage[w].Dispatch? || stage[w].Stopped? || stage[w].Polling?
      ensures quiet ==> gap == |others| && !down
      ensures stage[w].Stopped? || quiet ==> OnlyWaiting(View(), w)
    {
      quiet := false;
      if i: nat :| i < |ops| && ops[i].queue == w && ops[i].ok.Some? {
        TakeEvent(w, i);
      } else if down && forall i | 0 <= i < |ops| :: ops[i].queue != w {
        StopWorker(w);
      } else if gap < |others| {
        Others(w);
      } else {
        quiet := RuntimeGoesOn(w);
      }
    }

    /** The runtime gets a reply of queue `w` sent, or flushes out a registration after shutdown. */
    method RuntimeGoesOn(w: nat) returns (quiet: bool)
      requires Valid() && w < |stage| && stage[w].Polling?
      requires forall i | 0 <= i < |ops| && ops[i].queue == w :: ops[i].ok.None?
      requires down ==> exists i :: 0 <= i < |ops| && ops[i].queue == w
      modifies this
      ensures gap == old(gap) && Untouched(old(View()), View(), w)
      ensures quiet ==> View() == old(View()) && trace == old(trace) && !down && OnlyWaiting(View(), w)
      ensures !quiet ==> Advances()
    {
      if i: nat :| i < |ops| && ops[i].queue == w && ops[i].kind.FinishOp? {
        Other(w, Complete(i, true));
        return false;
      } else if down {
        var i: nat :| i < |ops| && ops[i].queue == w;
        Other(w, Cancel(i));
        return false;
      } else {
        return true;
      }
    }

    /** Dispatch to `proceed`, or delete the handler when isOk is false. */
    method DispatchEvent(w: nat, databases: nat -> Bytes -> QueryResult)
      requires Valid() && w < |stage| && stage[w].Dispatch? && (hasPool ==> config.connections != [])
      modifies this
      ensures Advances() && Grows(old(View()), View()) && |stage| == |old(stage)| && stage[w].Polling?
      ensures AnsweredFrom(View(), |old(log)|, w, databases)
    {
      Dispatched(w);
      ghost var start := View();
      if stage[w].op.ok.value {
        Proceed(w, databases(stage[w].op.tag));
        if start.stage[w].op.kind == LoginOp { RepliedAnswers(start, View(), w, start.stage[w].op.tag, databases); }
      } else {
        OthersThenDelete(w);
      }
    }

    lemma Served(w: nat)
      requires Valid() && w < |stage| && (stage[w].Polling? || stage[w].Stopped?) && OnlyWaiting(View(), w)
      ensures ServedOn(View(), w)
    {
      Invariant();
      WaitingIsServed(View(), w);
    }

    /** The loop of one worker, whatever the others do meanwhile. When it ends, because its queue
        has been shut down and drained or because nothing will come any more, every request ever
        accepted on the queue has exactly one reply, its handler is deleted, and each reply given
        meanwhile is the one for its own request, with what the database said at that time:
        `databases(h)` answers the query of handler `h`. When the others leave the queue alone, the
        handlers replied to are exactly those whose requests were ready. */
    method WorkerLoop(w: nat, databases: nat -> Bytes -> QueryResult)
      requires Valid() && w < |stage| && stage[w].Polling? && (hasPool ==> config.connections != [])
      modifies this
      ensures Continues() && |stage| == |old(stage)| && OnlyWaiting(View(), w)
      ensures stage[w].Stopped? || (stage[w].Polling? && gap == |others| && !down)
      ensures ServedOn(View(), w)
      ensures Grows(old(View()), View()) && AnsweredFrom(View(), |old(log)|, w, databases)
      ensures old(gap) == |others| ==>
                forall h: nat | h < |handlers| && handlers[h].queue == w ::
                  Sum(log, RepliesTo(h)) == Sum(old(log), RepliesTo(h)) + Sum(old(ops), ReadyFor(h))
    {
      ghost var start, before := View(), trace;
      NextEvent(w);
      while stage[w].Dispatch?
        invariant Continues() && |stage| == |old(stage)|
        invariant Grows(start, View()) && AnsweredFrom(View(), |start.log|, w, databases)
        invariant stage[w].Dispatch? || stage[w].Stopped? || (stage[w].Polling? && gap == |others| && !down)
        invariant !stage[w].Dispatch? ==> OnlyWaiting(View(), w)
        decreases |others| - gap, WorkLeft(View())
      {
        ghost var sofar, turn := trace, gap;
        HandleEvent(w, databases);
        if gap == turn { LessLeft(sofar); }
      }
      Served(w);
      if old(gap) == |others| {
        assert trace[..|before|] == before;
        RepliesSince(config, trace, |before|, start, View(), w);
      }
    }

    method HandleEvent(w: nat, databases: nat -> Bytes -> QueryResult)
      requires Valid() && w < |stage| && stage[w].Dispatch? && (hasPool ==> config.connections != [])
      modifies this
      ensures Advances() && |stage| == |old(stage)|
      ensures stage[w].Dispatch? || stage[w].Stopped? || (stage[w].Polling? && gap == |others| && !down)
      ensures !stage[w].Dispatch? ==> OnlyWaiting(View(), w)
      ensures Grows(old(View()), View())
      ensures forall n: nat | AnsweredFrom(old(View()), n, w, databases) :: AnsweredFrom(View(), n, w, databases)
    {
      ghost var start := View();
      Logged();
      DispatchEvent(w, databases);
      ghost var answered := View();
      Logged();
      NextEvent(w);
      AnsweredThen(answered, View(), |start.log|, w, databases);
      forall n: nat | AnsweredFrom(start, n, w, databases) ensures AnsweredFrom(View(), n, w, databases) {
        AnsweredThen(start, View(), n, w, databases);
      }
    }
  }
}
