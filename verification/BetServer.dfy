/** Any number of concurrent PlaceBet calls, each one transaction under a row lock. Every event is
    one statement of one call, with the failures it may meet, or the loss of its connection; all
    interleavings are covered. */
module BetServer {
  import opened Wrappers
  import opened Sums
  import opened Ledger

  /** How far a call is in PlaceBet. */
  datatype Phase =
    | Arrived
    | Begun                          // transaction open; the SELECT is next, or waits for the row
    | Read(balance: real)            // row locked and read; the comparison is next
    | Passed(newBalance: real)       // balance suffices
    | Updated(newBalance: real)
    | Inserted(newBalance: real)
    | Leaving(response: Response)    // returning; the deferred Rollback is next
    | Done(response: Response)

  datatype Write = Write(userId: int, balance: real)

  /** `write` and `insert` are the uncommitted effects of the transaction; `logged` is the place
      of the call in the log, once its fate is decided; `lost` says that the connection is dead and
      the database has rolled the transaction back, which the call notices at its next statement. */
  datatype Call = Call(request: Request, phase: Phase, write: Option<Write>, insert: Option<Bet>,
                       logged: Option<nat>, lost: bool)

  datatype Entry = Entry(call: nat, request: Request)

  /** Committed data, the row locks with their holders, the calls, and, as history, the decided
      calls in the order in which they were decided. */
  datatype Server = Server(committed: Ledger, locks: map<int, nat>, calls: seq<Call>, log: seq<Entry>)

  /** The SELECT may fail before or after the row was locked. */
  datatype SelectOutcome = Row | SelectError(locked: bool)

  datatype CommitOutcome = Committed | ErrorNotApplied | ErrorButApplied

  datatype Event =
    | Arrive(request: Request)
    | Begin(c: nat, ok: bool)
    | Select(c: nat, found: SelectOutcome)
    | Check(c: nat)
    | Update(c: nat, ok: bool)
    | Insert(c: nat, ok: bool)
    | Commit(c: nat, outcome: CommitOutcome)
    | Rollback(c: nat)
    | Lose(c: nat)                   // the connection dies, and with it the transaction and its lock

  predicate Enabled(s: Server, e: Event) {
    e.Arrive? ||
    (e.c < |s.calls| &&
     var call := s.calls[e.c];
     var u := call.request.userId;
     match e
     case Begin(_, _) => call.phase.Arrived?
     case Select(_, Row) => call.phase.Begun? && !call.lost && (u in s.committed.users ==> u !in s.locks)
     case Select(_, SelectError(locked)) =>
       call.phase.Begun? && (locked ==> !call.lost && u in s.committed.users && u !in s.locks)
     case Check(_) => call.phase.Read?
     case Update(_, ok) => call.phase.Passed? && (ok ==> !call.lost)
     case Insert(_, ok) => call.phase.Updated? && (ok ==> !call.lost)
     case Commit(_, outcome) => call.phase.Inserted? && (outcome != ErrorNotApplied ==> !call.lost)
     case Rollback(_) => call.phase.Leaving?
     case Lose(_) => !call.phase.Arrived? && !call.phase.Done? && !call.lost)
  }

  function Fail(call: Call, error: Error): Call { call.(phase := Leaving(Failure(error))) }

  function Decide(s: Server, c: nat, call: Call): Server
    requires c < |s.calls|
  {
    s.(calls := s.calls[c := call.(logged := Some(|s.log|))], log := s.log + [Entry(c, call.request)])
  }

  function Lost(call: Call): Call { call.(lost := true, write := None, insert := None) }

  /** All row locks but those of call `c`. */
  function Freed(locks: map<int, nat>, c: nat): map<int, nat> {
    map u | u in locks && locks[u] != c :: locks[u]
  }

  function ApplyWrites(l: Ledger, call: Call): Ledger {
    Ledger(if call.write.Some? && call.write.value.userId in l.users
             then l.users[call.write.value.userId := call.write.value.balance] else l.users,
           if call.insert.Some? then l.bets + [call.insert.value] else l.bets)
  }

  function NewCall(request: Request): Call { Call(request, Arrived, None, None, None, false) }

  /** The row has been read and locked; a balance that does not suffice decides the call here and
      now, although the program compares only later. */
  function Locked(s: Server, c: nat, balance: real): Server
    requires c < |s.calls|
  {
    var call := s.calls[c].(phase := Read(balance));
    var s' := if balance < call.request.amount then Decide(s, c, call) else s.(calls := s.calls[c := call]);
    s'.(locks := s.locks[call.request.userId := c])
  }

  function Step(s: Server, e: Event): Server
    requires Enabled(s, e)
  {
    if e.Arrive? then s.(calls := s.calls + [NewCall(e.request)])
    else
      var c, call := e.c, s.calls[e.c];
      var u := call.request.userId;
      match e
      case Begin(_, ok) =>
        s.(calls := s.calls[c := call.(phase := if ok then Begun else Done(Failure(BeginFailed)))])
      case Select(_, Row) =>
        if u in s.committed.users then Locked(s, c, s.committed.users[u]) else Decide(s, c, Fail(call, NoRows))
      case Select(_, SelectError(locked)) =>
        s.(locks := if locked then s.locks[u := c] else s.locks, calls := s.calls[c := Fail(call, QueryFailed)])
      case Check(_) =>
        s.(calls := s.calls[c := if call.phase.balance < call.request.amount then Fail(call, InsufficientBalance)
                                 else call.(phase := Passed(call.phase.balance - call.request.amount))])
      case Update(_, ok) =>
        s.(calls := s.calls[c := if ok then call.(phase := Updated(call.phase.newBalance),
                                                  write := Some(Write(u, call.phase.newBalance)))
                                 else Fail(call, UpdateFailed)])
      case Insert(_, ok) =>
        s.(calls := s.calls[c := if ok then call.(phase := Inserted(call.phase.newBalance),
                                                  insert := Some(BetOf(call.request)))
                                 else Fail(call, InsertFailed)])
      case Commit(_, ErrorNotApplied) => s.(calls := s.calls[c := Fail(call, CommitFailed)])
      case Commit(_, outcome) =>
        var response := if outcome == Committed then Success(call.phase.newBalance) else Failure(CommitFailed);
        Decide(s, c, call.(phase := Leaving(response), write := None, insert := None))
          .(committed := ApplyWrites(s.committed, call), locks := Freed(s.locks, c))
      case Rollback(_) =>
        s.(locks := Freed(s.locks, c),
           calls := s.calls[c := call.(phase := Done(call.phase.response), write := None, insert := None)])
      case Lose(_) => s.(locks := Freed(s.locks, c), calls := s.calls[c := Lost(call)])
  }

  function Start(init: Ledger): Server { Server(init, map[], [], []) }

  ghost predicate Run(s: Server, es: seq<Event>)
    decreases |es|, 0
  {
    es == [] || (Run(s, es[..|es| - 1]) && Enabled(After(s, es[..|es| - 1]), es[|es| - 1]))
  }

  ghost function After(s: Server, es: seq<Event>): Server
    requires Run(s, es)
    decreases |es|, 1
  {
    if es == [] then s else Step(After(s, es[..|es| - 1]), es[|es| - 1])
  }

  ghost predicate Reachable(init: Ledger, s: Server) {
    exists es :: Run(Start(init), es) && After(Start(init), es) == s
  }

  /** One more event at the end of a run. */
  lemma RunGoesOn(s: Server, es: seq<Event>, e: Event)
    requires Run(s, es) && Enabled(After(s, es), e)
    ensures Run(s, es + [e]) && After(s, es + [e]) == Step(After(s, es), e)
  {
    assert (es + [e])[..|es|] == es;
  }

  lemma ReachableStep(init: Ledger, s: Server, e: Event)
    requires Reachable(init, s) && Enabled(s, e)
    ensures Reachable(init, Step(s, e))
  {
    var es :| Run(Start(init), es) && After(Start(init), es) == s;
    RunGoesOn(Start(init), es, e);
  }

  // ----- the inductive invariant: locks ---------------------------------------------------

  ghost predicate MustHold(p: Phase) { p.Read? || p.Passed? || p.Updated? || p.Inserted? }

  /** A call in the middle of a transaction that is still alive holds its row. */
  ghost predicate Holds(call: Call) { MustHold(call.phase) && !call.lost }

  ghost predicate LockInv(s: Server) {
    && (forall u | u in s.locks ::
          && s.locks[u] < |s.calls| && s.calls[s.locks[u]].request.userId == u
          && !s.calls[s.locks[u]].lost
          && (MustHold(s.calls[s.locks[u]].phase) || s.calls[s.locks[u]].phase.Leaving?))
    && (forall c | 0 <= c < |s.calls| && Holds(s.calls[c]) ::
          s.calls[c].request.userId in s.locks && s.locks[s.calls[c].request.userId] == c)
  }

  /** The events that lock the row of their call, and those that free it. */
  ghost predicate Locks(s: Server, e: Event)
    requires Enabled(s, e)
  {
    e.Select? && (if e.found.Row? then s.calls[e.c].request.userId in s.committed.users else e.found.locked)
  }

  ghost predicate Frees(e: Event) { e.Rollback? || e.Lose? || (e.Commit? && e.outcome != ErrorNotApplied) }

  lemma LocksChange(s: Server, e: Event)
    requires Enabled(s, e)
    ensures Step(s, e).locks ==
            if Locks(s, e) then s.locks[s.calls[e.c].request.userId := e.c]
            else if Frees(e) then Freed(s.locks, e.c) else s.locks
  {
  }

  /** An event concerns its own call only, which keeps its request. */
  lemma CallsChange(s: Server, e: Event)
    requires Enabled(s, e)
    ensures e.Arrive? ==> Step(s, e).calls == s.calls + [NewCall(e.request)]
    ensures !e.Arrive? ==>
              && e.c < |s.calls| == |Step(s, e).calls|
              && Step(s, e).calls == s.calls[e.c := Step(s, e).calls[e.c]]
              && Step(s, e).calls[e.c].request == s.calls[e.c].request
  {
  }

  lemma HoldsStep(s: Server, e: Event)
    requires Enabled(s, e) && !e.Arrive?
    ensures e.c < |Step(s, e).calls|
    ensures Locks(s, e) ==> s.calls[e.c].phase.Begun? && s.calls[e.c].request.userId !in s.locks
    ensures Locks(s, e) ==> CanHold(Step(s, e).calls[e.c])
    ensures Holds(Step(s, e).calls[e.c]) ==> !Frees(e) && (Locks(s, e) || Holds(s.calls[e.c]))
    ensures CanHold(s.calls[e.c]) && !Frees(e) ==> CanHold(Step(s, e).calls[e.c])
  {
  }

  ghost predicate CanHold(call: Call) { (MustHold(call.phase) || call.phase.Leaving?) && !call.lost }

  lemma LockStep(s: Server, e: Event)
    requires Enabled(s, e) && LockInv(s)
    ensures LockInv(Step(s, e))
  {
    var s' := Step(s, e);
    LocksChange(s, e);
    CallsChange(s, e);
    if !e.Arrive? { HoldsStep(s, e); }
  }

  // ----- the inductive invariant: data ----------------------------------------------------

  /** What a call has read or written agrees with the committed data while it holds its lock. */
  ghost predicate DataOk(l: Ledger, call: Call) {
    var r := call.request;
    if call.lost then call.write == None && call.insert == None else
    match call.phase
    case Arrived => call.write == None && call.insert == None
    case Begun => call.write == None && call.insert == None
    case Read(b) => r.userId in l.users && l.users[r.userId] == b && call.write == None && call.insert == None
    case Passed(b) => Reply(l, r) == Success(b) && call.write == None && call.insert == None
    case Updated(b) => Reply(l, r) == Success(b) && call.write == Some(Write(r.userId, b)) && call.insert == None
    case Inserted(b) =>
      Reply(l, r) == Success(b) && call.write == Some(Write(r.userId, b)) && call.insert == Some(BetOf(r))
    case _ => true
  }

  ghost predicate DataInv(s: Server) {
    forall c | 0 <= c < |s.calls| :: DataOk(s.committed, s.calls[c])
  }

  lemma CommitApplies(l: Ledger, call: Call)
    requires call.phase.Inserted? && !call.lost && DataOk(l, call)
    ensures ApplyWrites(l, call) == Place(l, call.request)
  {
  }

  /** A commit changes only the row its own call has locked, which no other call looks at. */
  lemma DataStep(s: Server, e: Event)
    requires Enabled(s, e) && LockInv(s) && DataInv(s)
    ensures DataInv(Step(s, e))
  {
    var s' := Step(s, e);
    forall c | 0 <= c < |s'.calls| ensures DataOk(s'.committed, s'.calls[c]) {
      if c < |s.calls| {
        assert DataOk(s.committed, s.calls[c]);
        if e.Commit? && e.outcome != ErrorNotApplied && c != e.c {
          assert Holds(s.calls[e.c]) && DataOk(s.committed, s.calls[e.c]);
        }
      }
    }
  }

  // ----- the inductive invariant: the log -------------------------------------------------

  ghost function Requests(log: seq<Entry>): seq<Request> { seq(|log|, i requires 0 <= i < |log| => log[i].request) }

  /** The ledger just before the i-th decision. */
  ghost function Before(init: Ledger, log: seq<Entry>, i: nat): Ledger
    requires i <= |log|
  {
    Replay(init, Requests(log[..i]))
  }

  /** What the ledger replies to the i-th decided call. */
  ghost function ReplyAt(init: Ledger, log: seq<Entry>, i: nat): Response
    requires i < |log|
  {
    Reply(Before(init, log, i), log[i].request)
  }

  /** A reply and the place of its call in the log fit the atomic ledger. */
  ghost predicate Explained(init: Ledger, log: seq<Entry>, response: Response, logged: Option<nat>) {
    match response
    case Success(_) =>
      logged.Some? && logged.value < |log| && ReplyAt(init, log, logged.value) == response
    case Failure(NoRows) =>
      logged.Some? && logged.value < |log| && ReplyAt(init, log, logged.value) == response
    case Failure(InsufficientBalance) =>
      logged.Some? && logged.value < |log| && ReplyAt(init, log, logged.value) == response
    case Failure(CommitFailed) =>
      logged.Some? ==> logged.value < |log| && ReplyAt(init, log, logged.value).Success?
    case Failure(_) => logged.None?
  }

  ghost predicate CallExplained(init: Ledger, s: Server, c: nat)
    requires c < |s.calls|
  {
    && (s.calls[c].logged.Some? ==>
          s.calls[c].logged.value < |s.log| && s.log[s.calls[c].logged.value] == Entry(c, s.calls[c].request))
    && match s.calls[c].phase
       case Leaving(r) => Explained(init, s.log, r, s.calls[c].logged)
       case Done(r) => Explained(init, s.log, r, s.calls[c].logged)
       case Read(b) =>
         if b < s.calls[c].request.amount then Explained(init, s.log, Failure(InsufficientBalance), s.calls[c].logged)
         else s.calls[c].logged.None?
       case _ => s.calls[c].logged.None?
  }

  ghost predicate LogInv(init: Ledger, s: Server) {
    && s.committed == Replay(init, Requests(s.log))
    && (forall i | 0 <= i < |s.log| :: s.log[i].call < |s.calls| && s.calls[s.log[i].call].logged == Some(i))
    && (forall c | 0 <= c < |s.calls| :: CallExplained(init, s, c))
  }

  lemma RequestsAppend(log: seq<Entry>, x: Entry)
    ensures Requests(log + [x]) == Requests(log) + [x.request]
  {
  }

  lemma BeforeAppend(init: Ledger, log: seq<Entry>, x: Entry, i: nat)
    requires i <= |log|
    ensures Before(init, log + [x], i) == Before(init, log, i)
  {
    assert (log + [x])[..i] == log[..i];
  }

  lemma ExplainedAppend(init: Ledger, log: seq<Entry>, x: Entry, response: Response, logged: Option<nat>)
    requires Explained(init, log, response, logged)
    ensures Explained(init, log + [x], response, logged)
  {
    if logged.Some? && logged.value < |log| { BeforeAppend(init, log, x, logged.value); }
  }

  /** The events that decide the fate of their call. */
  ghost predicate Decides(s: Server, e: Event)
    requires Enabled(s, e)
  {
    match e
    case Select(c, Row) => Reply(s.committed, s.calls[c].request).Failure?
    case Commit(_, outcome) => outcome != ErrorNotApplied
    case _ => false
  }

  /** The response a decided call is going to give, or has given. */
  ghost predicate Gives(call: Call, response: Response) {
    match call.phase
    case Leaving(r) => r == response
    case Done(r) => r == response
    case Read(b) => b < call.request.amount && response == Failure(InsufficientBalance)
    case _ => false
  }

  /** A decision is one step of the atomic ledger, with the reply of the atomic ledger. */
  lemma DecisionStep(init: Ledger, s: Server, e: Event)
    requires Enabled(s, e) && DataInv(s) && LogInv(init, s)
    ensures Decides(s, e) ==>
              && Step(s, e).log == s.log + [Entry(e.c, s.calls[e.c].request)]
              && Step(s, e).committed == Place(s.committed, s.calls[e.c].request)
              && Step(s, e).calls[e.c].logged == Some(|s.log|)
              && (Gives(Step(s, e).calls[e.c], Reply(s.committed, s.calls[e.c].request))
                  || (Gives(Step(s, e).calls[e.c], Failure(CommitFailed))
                      && Reply(s.committed, s.calls[e.c].request).Success?))
    ensures !Decides(s, e) ==> Step(s, e).log == s.log && Step(s, e).committed == s.committed
  {
    if !e.Arrive? { assert DataOk(s.committed, s.calls[e.c]); }
  }

  lemma UndecidedOwn(init: Ledger, s: Server, e: Event)
    requires Enabled(s, e) && !e.Arrive? && !Decides(s, e) && CallExplained(init, s, e.c)
    requires Step(s, e).log == s.log
    ensures e.c < |Step(s, e).calls| && Step(s, e).calls[e.c].logged == s.calls[e.c].logged
    ensures CallExplained(init, Step(s, e), e.c)
  {
    CallsChange(s, e);
  }

  lemma UndecidedLog(init: Ledger, s: Server, e: Event)
    requires Enabled(s, e) && LogInv(init, s) && !Decides(s, e)
    requires Step(s, e).log == s.log && Step(s, e).committed == s.committed
    ensures LogInv(init, Step(s, e))
  {
    var s' := Step(s, e);
    CallsChange(s, e);
    if !e.Arrive? { UndecidedOwn(init, s, e); }
    forall c | 0 <= c < |s'.calls| ensures CallExplained(init, s', c) {
      if c < |s.calls| { assert CallExplained(init, s, c); }
    }
    forall i | 0 <= i < |s'.log| ensures s'.log[i].call < |s'.calls| && s'.calls[s'.log[i].call].logged == Some(i) {
      assert s.calls[s.log[i].call].logged == Some(i);
    }
  }

  lemma LogStep(init: Ledger, s: Server, e: Event)
    requires Enabled(s, e) && DataInv(s) && LogInv(init, s)
    ensures LogInv(init, Step(s, e))
  {
    DecisionStep(init, s, e);
    if Decides(s, e) { DecidedLog(init, s, e); } else { UndecidedLog(init, s, e); }
  }

  /** A decision leaves what is already in the log explained. */
  lemma DecidedOthers(init: Ledger, s: Server, e: Event, c: nat)
    requires Enabled(s, e) && Decides(s, e) && c < |s.calls| && c != e.c && CallExplained(init, s, c)
    requires Step(s, e).log == s.log + [Entry(e.c, s.calls[e.c].request)]
    ensures CallExplained(init, Step(s, e), c)
  {
    var x := Entry(e.c, s.calls[e.c].request);
    match s.calls[c].phase
    case Leaving(r) => ExplainedAppend(init, s.log, x, r, s.calls[c].logged);
    case Done(r) => ExplainedAppend(init, s.log, x, r, s.calls[c].logged);
    case Read(b) =>
      if b < s.calls[c].request.amount {
        ExplainedAppend(init, s.log, x, Failure(InsufficientBalance), s.calls[c].logged);
      }
    case _ =>
  }

  lemma DecidedOwn(init: Ledger, s: Server, e: Event)
    requires Enabled(s, e) && DataInv(s) && LogInv(init, s) && Decides(s, e)
    ensures CallExplained(init, Step(s, e), e.c)
  {
    DecisionStep(init, s, e);
    assert s.log[..|s.log|] == s.log;
    BeforeAppend(init, s.log, Entry(e.c, s.calls[e.c].request), |s.log|);
  }

  lemma DecidedLog(init: Ledger, s: Server, e: Event)
    requires Enabled(s, e) && DataInv(s) && LogInv(init, s) && Decides(s, e)
    ensures LogInv(init, Step(s, e))
  {
    var s' := Step(s, e);
    var x := Entry(e.c, s.calls[e.c].request);
    DecisionStep(init, s, e);
    assert s'.committed == Replay(init, Requests(s'.log)) by {
      RequestsAppend(s.log, x);
      ReplayAppend(init, Requests(s.log), x.request);
    }
    forall c | 0 <= c < |s'.calls| ensures CallExplained(init, s', c) {
      assert CallExplained(init, s, c);
      if c == e.c { DecidedOwn(init, s, e); } else { DecidedOthers(init, s, e, c); }
    }
    assert CallExplained(init, s, e.c) && s.calls[e.c].logged.None?;
    forall i | 0 <= i < |s'.log| ensures s'.log[i].call < |s'.calls| && s'.calls[s'.log[i].call].logged == Some(i) {
      if i < |s.log| { assert s.calls[s.log[i].call].logged == Some(i); }
    }
  }

  ghost predicate Inv(init: Ledger, s: Server) { LockInv(s) && DataInv(s) && LogInv(init, s) }

  lemma InvStep(init: Ledger, s: Server, e: Event)
    requires Enabled(s, e) && Inv(init, s)
    ensures Inv(init, Step(s, e))
  {
    LockStep(s, e);
    DataStep(s, e);
    LogStep(init, s, e);
  }

  lemma {:induction false} RunInv(init: Ledger, s: Server, es: seq<Event>)
    requires Inv(init, s) && Run(s, es)
    ensures Inv(init, After(s, es))
  {
    if es != [] {
      RunInv(init, s, es[..|es| - 1]);
      InvStep(init, After(s, es[..|es| - 1]), es[|es| - 1]);
    }
  }

  lemma ReachableInv(init: Ledger, s: Server)
    requires Reachable(init, s)
    ensures Inv(init, s)
  {
    var es :| Run(Start(init), es) && After(Start(init), es) == s;
    assert Inv(init, Start(init));
    RunInv(init, Start(init), es);
  }

  // ----- refinement -----------------------------------------------------------------------

  /** Every interleaving, with any failures, refines the ledger that serves one call at a time:
      the committed data are those of running the decided calls in the order of their decisions,
      each call occurs there at most once, and every finished call got the reply the ledger gives
      at its place. A failed call without a place changed nothing; only a commit whose error
      reached the caller may or may not have a place. */
  lemma {:induction false} RefinesLedger(init: Ledger, s: Server)
    requires Reachable(init, s)
    ensures s.committed == Replay(init, Requests(s.log))
    ensures forall i, j | 0 <= i < j < |s.log| :: s.log[i].call != s.log[j].call
    ensures forall i | 0 <= i < |s.log| :: EntryOfCall(s, s.log[i])
    ensures forall c | 0 <= c < |s.calls| :: CallExplained(init, s, c)
  {
    ReachableInv(init, s);
    forall i | 0 <= i < |s.log| ensures EntryOfCall(s, s.log[i]) {
      assert CallExplained(init, s, s.log[i].call);
    }
    forall i, j | 0 <= i < j < |s.log| ensures s.log[i].call != s.log[j].call {
      assert s.calls[s.log[i].call].logged == Some(i) && s.calls[s.log[j].call].logged == Some(j);
    }
  }

  ghost predicate EntryOfCall(s: Server, x: Entry) {
    x.call < |s.calls| && s.calls[x.call].request == x.request
  }

  /** Decisions are final, and later ones come behind them. */
  ghost predicate Extends(s: Server, t: Server) {
    && s.log <= t.log && |s.calls| <= |t.calls|
    && forall c | 0 <= c < |s.calls| && s.calls[c].logged.Some? :: t.calls[c].logged == s.calls[c].logged
  }

  lemma ExtendsStep(init: Ledger, s: Server, e: Event)
    requires Enabled(s, e) && Inv(init, s)
    ensures Extends(s, Step(s, e))
  {
    DecisionStep(init, s, e);
    if !e.Arrive? { assert CallExplained(init, s, e.c); }
  }

  lemma {:induction false} RunExtends(init: Ledger, s: Server, es: seq<Event>)
    requires Inv(init, s) && Run(s, es)
    ensures Extends(s, After(s, es))
  {
    if es != [] {
      RunExtends(init, s, es[..|es| - 1]);
      RunInv(init, s, es[..|es| - 1]);
      ExtendsStep(init, After(s, es[..|es| - 1]), es[|es| - 1]);
    }
  }

  /** The order of the ledger respects real time: a call that was decided, and so also one that
      had returned, before another one arrived has its place before that one's. */
  lemma {:induction false} RealTimeOrder(init: Ledger, s: Server, es: seq<Event>, c: nat, d: nat)
    requires Reachable(init, s) && Run(s, es)
    requires c < |s.calls| && s.calls[c].logged.Some?
    requires |s.calls| <= d < |After(s, es).calls| && After(s, es).calls[d].logged.Some?
    ensures After(s, es).calls[c].logged == s.calls[c].logged
    ensures s.calls[c].logged.value < |s.log| <= After(s, es).calls[d].logged.value
  {
    ReachableInv(init, s);
    RunExtends(init, s, es);
    RunInv(init, s, es);
    assert CallExplained(init, s, c) && CallExplained(init, After(s, es), d);
    var i := After(s, es).calls[d].logged.value;
    assert forall j | 0 <= j < |s.log| :: s.log[j].call < |s.calls| && After(s, es).log[j] == s.log[j];
  }

  /** The balance a successful call returns is the user's balance in the ledger right after the
      call's own decision. */
  lemma {:induction false} NewBalanceIsLedgerBalance(init: Ledger, s: Server, c: nat)
    requires Reachable(init, s) && c < |s.calls| && s.calls[c].phase.Done? && s.calls[c].phase.response.Success?
    ensures exists i: nat :: i < |s.log| && s.log[i].call == c &&
              var after := Before(init, s.log, i + 1);
              s.calls[c].request.userId in after.users &&
              after.users[s.calls[c].request.userId] == s.calls[c].phase.response.newBalance
  {
    RefinesLedger(init, s);
    assert CallExplained(init, s, c);
    BeforeNext(init, s.log, s.calls[c].logged.value);
  }

  lemma BeforeNext(init: Ledger, log: seq<Entry>, i: nat)
    requires i < |log|
    ensures Before(init, log, i + 1) == Place(Before(init, log, i), log[i].request)
  {
    assert log[..i + 1] == log[..i] + [log[i]];
    RequestsAppend(log[..i], log[i]);
    ReplayAppend(init, Requests(log[..i]), log[i].request);
  }

  /** Each decision in full: what it does to the committed data, and what its call is told. */
  lemma {:induction false} DecisionInFull(init: Ledger, s: Server, i: nat)
    requires Reachable(init, s) && i < |s.log|
    ensures s.log[i].call < |s.calls| && s.calls[s.log[i].call].request == s.log[i].request
    ensures var l, l', r := Before(init, s.log, i), Before(init, s.log, i + 1), s.log[i].request;
            var phase := s.calls[s.log[i].call].phase;
            if r.userId !in l.users then
              l' == l && (phase.Done? ==> phase.response == Failure(NoRows))
            else if l.users[r.userId] < r.amount then
              l' == l && (phase.Done? ==> phase.response == Failure(InsufficientBalance))
            else
              && l'.users == l.users[r.userId := l.users[r.userId] - r.amount]
              && l'.bets == l.bets + [Bet(r.userId, r.eventId, r.amount, r.outcome)]
              && (phase.Done? ==> phase.response == Success(l.users[r.userId] - r.amount)
                                  || phase.response == Failure(CommitFailed))
  {
    RefinesLedger(init, s);
    ReachableInv(init, s);
    assert EntryOfCall(s, s.log[i]) && s.calls[s.log[i].call].logged == Some(i);
    assert CallExplained(init, s, s.log[i].call);
    BeforeNext(init, s.log, i);
    PlaceInFull(Before(init, s.log, i), s.log[i].request);
  }

  /** Every bet that has been committed is, field by field, the one its own call asked for. */
  lemma {:induction false} BetsAreRequests(init: Ledger, s: Server, j: nat)
    requires Reachable(init, s)
    ensures init.bets <= s.committed.bets
    ensures |init.bets| <= j < |s.committed.bets| ==>
              exists i: nat :: i < |s.log| && |Before(init, s.log, i).bets| == j &&
                var b, r := s.committed.bets[j], s.log[i].request;
                b.userId == r.userId && b.eventId == r.eventId && b.amount == r.amount && b.outcome == r.outcome
  {
    RefinesLedger(init, s);
    var rs := Requests(s.log);
    ReplayedBets(init, rs, j);
    if |init.bets| <= j < |s.committed.bets| {
      var i: nat :| i < |rs| && |Replay(init, rs[..i]).bets| == j &&
        var b := s.committed.bets[j];
        b.userId == rs[i].userId && b.eventId == rs[i].eventId &&
        b.amount == rs[i].amount && b.outcome == rs[i].outcome;
      assert Requests(s.log[..i]) == rs[..i];
      assert rs[i] == s.log[i].request;
    }
  }

  lemma {:induction false} BetsOnlyGrow(init: Ledger, log: seq<Entry>, i: nat, k: nat)
    requires i <= k <= |log|
    ensures Before(init, log, i).bets <= Before(init, log, k).bets
  {
    if i < k {
      BetsOnlyGrow(init, log, i, k - 1);
      BeforeNext(init, log, k - 1);
      PlaceInFull(Before(init, log, k - 1), log[k - 1].request);
    }
  }

  /** The bet of a successful call is committed and stays so. */
  lemma {:induction false} SuccessIsCommitted(init: Ledger, s: Server, c: nat)
    requires Reachable(init, s) && c < |s.calls| && s.calls[c].phase.Done? && s.calls[c].phase.response.Success?
    ensures var r := s.calls[c].request; Bet(r.userId, r.eventId, r.amount, r.outcome) in s.committed.bets
  {
    RefinesLedger(init, s);
    assert CallExplained(init, s, c);
    var i := s.calls[c].logged.value;
    DecisionInFull(init, s, i);
    BetsOnlyGrow(init, s.log, i + 1, |s.log|);
    assert s.log[..|s.log|] == s.log;
    var r, bets := s.calls[c].request, Before(init, s.log, i + 1).bets;
    assert bets[|bets| - 1] == Bet(r.userId, r.eventId, r.amount, r.outcome);
    assert s.committed.bets[|bets| - 1] == bets[|bets| - 1];
  }

  /** No failure is excluded: any request can arrive, every statement of a call can fail, with a
      living connection a commit can have each of its outcomes, and any transaction can be lost. */
  lemma EveryFailureIsPossible(s: Server, request: Request, c: nat)
    requires c < |s.calls|
    ensures Enabled(s, Arrive(request))
    ensures match s.calls[c].phase
            case Arrived => Enabled(s, Begin(c, false))
            case Begun =>
              var u := s.calls[c].request.userId;
              Enabled(s, Select(c, SelectError(false))) &&
              (!s.calls[c].lost && u in s.committed.users && u !in s.locks ==> Enabled(s, Select(c, SelectError(true))))
            case Passed(_) => Enabled(s, Update(c, false))
            case Updated(_) => Enabled(s, Insert(c, false))
            case Inserted(_) =>
              Enabled(s, Commit(c, ErrorNotApplied)) &&
              (!s.calls[c].lost ==> Enabled(s, Commit(c, ErrorButApplied)) && Enabled(s, Commit(c, Committed)))
            case _ => true
    ensures !s.calls[c].phase.Arrived? && !s.calls[c].phase.Done? && !s.calls[c].lost ==> Enabled(s, Lose(c))
  {
  }

  // ----- where requests come from and responses go to -------------------------------------

  /** What has happened to a call that has come this far. */
  ghost predicate History(es: seq<Event>, c: nat, call: Call) {
    match call.phase
    case Arrived => true
    case Begun => Begin(c, true) in es
    case Read(_) => WasRead(es, c)
    case Passed(_) => WasRead(es, c) && Check(c) in es
    case Updated(_) => WasRead(es, c) && Check(c) in es && Update(c, true) in es
    case Inserted(_) => WasInserted(es, c)
    case Leaving(r) => HasCause(es, c, r, call.logged)
    case Done(r) => HasCause(es, c, r, call.logged)
  }

  ghost predicate WasRead(es: seq<Event>, c: nat) { Begin(c, true) in es && Select(c, Row) in es }

  ghost predicate WasInserted(es: seq<Event>, c: nat) {
    WasRead(es, c) && Check(c) in es && Update(c, true) in es && Insert(c, true) in es
  }

  /** A success means that every statement worked and the commit reported no error; each failure
      means that the statement it names failed. */
  ghost predicate HasCause(es: seq<Event>, c: nat, response: Response, logged: Option<nat>) {
    match response
    case Success(_) => WasInserted(es, c) && Commit(c, Committed) in es
    case Failure(BeginFailed) => Begin(c, false) in es
    case Failure(QueryFailed) => Select(c, SelectError(true)) in es || Select(c, SelectError(false)) in es
    case Failure(NoRows) => WasRead(es, c)
    case Failure(InsufficientBalance) => WasRead(es, c) && Check(c) in es
    case Failure(UpdateFailed) => WasRead(es, c) && Update(c, false) in es
    case Failure(InsertFailed) => WasRead(es, c) && Update(c, true) in es && Insert(c, false) in es
    case Failure(CommitFailed) =>
      WasInserted(es, c) && Commit(c, if logged.Some? then ErrorButApplied else ErrorNotApplied) in es
  }

  lemma HistoryLater(es: seq<Event>, e: Event, c: nat, call: Call)
    requires History(es, c, call)
    ensures History(es + [e], c, call)
  {
  }

  lemma HistoryStep(init: Ledger, es: seq<Event>, s: Server, e: Event)
    requires Enabled(s, e) && !e.Arrive? && History(es, e.c, s.calls[e.c]) && CallExplained(init, s, e.c)
    ensures e.c < |Step(s, e).calls| && History(es + [e], e.c, Step(s, e).calls[e.c])
  {
    HistoryLater(es, e, e.c, s.calls[e.c]);
    assert e in es + [e];
  }

  /** Every response has its cause among the events of its own call. */
  lemma {:induction false} ResponseHasCause(init: Ledger, es: seq<Event>, c: nat)
    requires Run(Start(init), es) && c < |After(Start(init), es).calls|
    ensures History(es, c, After(Start(init), es).calls[c])
  {
    if es != [] {
      var n := |es| - 1;
      var s, e := After(Start(init), es[..n]), es[n];
      assert es == es[..n] + [e];
      CallsChange(s, e);
      if c < |s.calls| {
        ResponseHasCause(init, es[..n], c);
        HistoryLater(es[..n], e, c, s.calls[c]);
        if !e.Arrive? && e.c == c {
          assert Inv(init, Start(init));
          RunInv(init, Start(init), es[..n]);
          assert CallExplained(init, s, c);
          HistoryStep(init, es[..n], s, e);
        }
      }
    }
  }

  /** The request a call works on is the one that arrived. */
  lemma {:induction false} RequestHasArrived(init: Ledger, es: seq<Event>, c: nat)
    requires Run(Start(init), es) && c < |After(Start(init), es).calls|
    ensures exists k: nat :: k < |es| && es[k].Arrive? && es[k].request == After(Start(init), es).calls[c].request &&
              Run(Start(init), es[..k]) && |After(Start(init), es[..k]).calls| == c
  {
    var n := |es| - 1;
    var s, e := After(Start(init), es[..n]), es[n];
    CallsChange(s, e);
    if c < |s.calls| {
      RequestHasArrived(init, es[..n], c);
      var k: nat :| k < n && es[..n][k].Arrive? && es[..n][k].request == s.calls[c].request &&
        Run(Start(init), es[..n][..k]) && |After(Start(init), es[..n][..k]).calls| == c;
      assert es[..n][..k] == es[..k] && es[..n][k] == es[k];
    } else {
      assert es[n].Arrive? && |After(Start(init), es[..n]).calls| == c;
    }
  }

  /** Two servers that decided each user's calls in the same order hold the same balances and the
      same bets, however the calls of different users were interleaved. */
  lemma {:induction false} OrderAcrossUsers(init: Ledger, s: Server, t: Server)
    requires Reachable(init, s) && Reachable(init, t)
    requires forall u :: RequestsOf(Requests(s.log), u) == RequestsOf(Requests(t.log), u)
    ensures s.committed.users == t.committed.users
    ensures multiset(s.committed.bets) == multiset(t.committed.bets)
  {
    RefinesLedger(init, s);
    RefinesLedger(init, t);
    OrderAcrossUsersIsIrrelevant(init, Requests(s.log), Requests(t.log));
  }

  /** In every reachable state, balance plus committed bets is what each user started with, and
      nobody's balance is negative. */
  lemma {:induction false} ConservationAndSolvency(init: Ledger, s: Server)
    requires Reachable(init, s)
    ensures Conserves(init, s.committed)
    ensures Solvent(init) ==> Solvent(s.committed)
  {
    ReachableInv(init, s);
    ReplayConserves(init, Requests(s.log));
    if Solvent(init) { ReplaySolvent(init, Requests(s.log)); }
  }

  /** If every call bets at least `a`, a user has at most floor(initial balance / a) bets. */
  lemma {:induction false} CommittedBetsAreBounded(init: Ledger, s: Server, u: int, a: real)
    requires Reachable(init, s) && Solvent(init) && init.bets == [] && u in init.users && a > 0.0
    requires forall c | 0 <= c < |s.calls| :: s.calls[c].request.amount >= a
    ensures |BetsOf(s.committed.bets, u)| <= (init.users[u] / a).Floor
  {
    ReachableInv(init, s);
    RefinesLedger(init, s);
    forall i | 0 <= i < |s.log| ensures s.log[i].request.amount >= a { assert EntryOfCall(s, s.log[i]); }
    BetsAreBounded(init, Requests(s.log), u, a);
  }

  // ----- locks ----------------------------------------------------------------------------

  ghost predicate WaitsFor(s: Server, c: nat, d: nat) {
    && c < |s.calls| && s.calls[c].phase.Begun? && !s.calls[c].lost
    && s.calls[c].request.userId in s.locks && s.locks[s.calls[c].request.userId] == d
  }

  /** At most one call with a living transaction works on a row at a time, neither a finished call
      nor one that has lost its connection holds a lock, and a call that is waited for waits for
      nobody: it can take its own next step. */
  lemma {:induction false} RowLocks(init: Ledger, s: Server)
    requires Reachable(init, s)
    ensures forall c, d | 0 <= c < d < |s.calls| && Holds(s.calls[c]) && Holds(s.calls[d]) ::
              s.calls[c].request.userId != s.calls[d].request.userId
    ensures forall u | u in s.locks ::
              s.locks[u] < |s.calls| && !s.calls[s.locks[u]].phase.Done? && !s.calls[s.locks[u]].lost
    ensures forall c, d | WaitsFor(s, c, d) :: OwnStep(s, d)
    ensures forall c, d, x | WaitsFor(s, c, d) :: !WaitsFor(s, d, x)
  {
    ReachableInv(init, s);
    forall c: nat, d: nat | WaitsFor(s, c, d) ensures OwnStep(s, d) { HolderCanStep(s, d, s.calls[c].request.userId); }
  }

  /** Call `c` itself has an event that can happen now. */
  ghost predicate OwnStep(s: Server, c: nat) {
    exists e :: Enabled(s, e) && !e.Arrive? && !e.Lose? && e.c == c
  }

  lemma HolderCanStep(s: Server, d: nat, u: int)
    requires LockInv(s) && u in s.locks && s.locks[u] == d
    ensures OwnStep(s, d)
  {
    InTransactionCanStep(s, d);
  }

  /** A statement can always fail, if nothing else. */
  lemma InTransactionCanStep(s: Server, c: nat)
    requires c < |s.calls| && (MustHold(s.calls[c].phase) || s.calls[c].phase.Leaving?)
    ensures OwnStep(s, c)
  {
    match s.calls[c].phase
    case Read(_) => assert Enabled(s, Check(c));
    case Passed(_) => assert Enabled(s, Update(c, false));
    case Updated(_) => assert Enabled(s, Insert(c, false));
    case Inserted(_) => assert Enabled(s, Commit(c, ErrorNotApplied));
    case Leaving(_) => assert Enabled(s, Rollback(c));
  }

  /** No deadlock: a call that is not done can step, or waits for one that can. */
  lemma {:induction false} NoDeadlock(init: Ledger, s: Server, c: nat)
    requires Reachable(init, s) && c < |s.calls| && !s.calls[c].phase.Done?
    ensures OwnStep(s, c) || exists d :: WaitsFor(s, c, d) && OwnStep(s, d)
  {
    ReachableInv(init, s);
    var u := s.calls[c].request.userId;
    if MustHold(s.calls[c].phase) || s.calls[c].phase.Leaving? {
      InTransactionCanStep(s, c);
    } else if s.calls[c].phase.Arrived? {
      assert Enabled(s, Begin(c, true));
    } else if s.calls[c].lost {
      assert Enabled(s, Select(c, SelectError(false)));
    } else if u in s.locks {
      HolderCanStep(s, s.locks[u], u);
      assert WaitsFor(s, c, s.locks[u]);
    } else {
      assert Enabled(s, Select(c, Row));
    }
  }

  /** The events a call in this phase has still before it. */
  ghost function PhaseWeight(p: Phase): nat {
    match p
    case Arrived => 7
    case Begun => 6
    case Read(_) => 5
    case Passed(_) => 4
    case Updated(_) => 3
    case Inserted(_) => 2
    case Leaving(_) => 1
    case Done(_) => 0
  }

  ghost function IsArrival(): Event -> nat { (e: Event) => if e.Arrive? then 1 else 0 }

  ghost function EventOf(c: nat): Event -> nat { (e: Event) => if !e.Arrive? && !e.Lose? && e.c == c then 1 else 0 }

  /** The events a call has still before it when it is there, or has when it will arrive. */
  ghost function EventsLeft(s: Server, c: nat): nat {
    if c < |s.calls| then PhaseWeight(s.calls[c].phase) else 7
  }

  lemma EventsLeftStep(s: Server, e: Event, c: nat)
    requires Enabled(s, e)
    ensures EventsLeft(Step(s, e), c) + EventOf(c)(e) <= EventsLeft(s, c)
  {
  }

  /** Every call is over after at most seven events of its own, whatever the other calls do. */
  lemma {:induction false} CallsAreShort(s: Server, es: seq<Event>, c: nat)
    requires Run(s, es)
    ensures Sum(es, EventOf(c)) + EventsLeft(After(s, es), c) <= EventsLeft(s, c) <= 7
  {
    if es != [] {
      CallsAreShort(s, es[..|es| - 1], c);
      EventsLeftStep(After(s, es[..|es| - 1]), es[|es| - 1], c);
    }
  }

  /** A call can also lose its connection, once. */
  ghost function CallWeight(): Call -> nat {
    (call: Call) => PhaseWeight(call.phase) + (if call.lost then 0 else 1)
  }

  lemma WeightStep(s: Server, e: Event)
    requires Enabled(s, e)
    ensures Sum(Step(s, e).calls, CallWeight()) + 1 <= Sum(s.calls, CallWeight()) + 9 * IsArrival()(e)
  {
    CallsChange(s, e);
    if e.Arrive? {
      SumAppend(s.calls, NewCall(e.request), CallWeight());
    } else {
      CallWeightStep(s, e);
      SumUpdate(s.calls, e.c, Step(s, e).calls[e.c], CallWeight());
    }
  }

  lemma CallWeightStep(s: Server, e: Event)
    requires Enabled(s, e) && !e.Arrive?
    ensures e.c < |Step(s, e).calls| && CallWeight()(Step(s, e).calls[e.c]) < CallWeight()(s.calls[e.c])
  {
  }

  /** All calls together take no more events than one to arrive, seven each, and one for each
      connection that is lost. */
  lemma {:induction false} RunsAreBounded(s: Server, es: seq<Event>)
    requires Run(s, es)
    ensures |es| + Sum(After(s, es).calls, CallWeight()) <= Sum(s.calls, CallWeight()) + 9 * Sum(es, IsArrival())
  {
    if es != [] {
      RunsAreBounded(s, es[..|es| - 1]);
      WeightStep(After(s, es[..|es| - 1]), es[|es| - 1]);
    }
  }

  // ----- successes are committed bets -----------------------------------------------------

  ghost function HasCommitted(): Call -> nat {
    (call: Call) =>
      if call.logged.Some? && ((call.phase.Leaving? || call.phase.Done?) &&
           (call.phase.response.Success? || call.phase.response == Failure(CommitFailed))) then 1 else 0
  }

  lemma HasCommittedStep(init: Ledger, s: Server, e: Event)
    requires Enabled(s, e) && !e.Arrive? && DataOk(s.committed, s.calls[e.c]) && CallExplained(init, s, e.c)
    ensures e.c < |Step(s, e).calls|
    ensures HasCommitted()(Step(s, e).calls[e.c]) + |s.committed.bets| ==
            HasCommitted()(s.calls[e.c]) + |Step(s, e).committed.bets|
  {
  }

  lemma CommittedCallsStep(init: Ledger, s: Server, e: Event)
    requires Enabled(s, e) && Inv(init, s)
    ensures Sum(Step(s, e).calls, HasCommitted()) + |s.committed.bets| ==
            Sum(s.calls, HasCommitted()) + |Step(s, e).committed.bets|
  {
    CallsChange(s, e);
    if e.Arrive? {
      SumAppend(s.calls, Step(s, e).calls[|s.calls|], HasCommitted());
    } else {
      assert DataOk(s.committed, s.calls[e.c]) && CallExplained(init, s, e.c);
      HasCommittedStep(init, s, e);
      SumUpdate(s.calls, e.c, Step(s, e).calls[e.c], HasCommitted());
    }
  }

  lemma {:induction false} CommittedCalls(init: Ledger, s: Server, es: seq<Event>)
    requires Inv(init, s) && Run(s, es)
    ensures Sum(After(s, es).calls, HasCommitted()) + |s.committed.bets| ==
            Sum(s.calls, HasCommitted()) + |After(s, es).committed.bets|
  {
    if es != [] {
      CommittedCalls(init, s, es[..|es| - 1]);
      RunInv(init, s, es[..|es| - 1]);
      CommittedCallsStep(init, After(s, es[..|es| - 1]), es[|es| - 1]);
    }
  }

  ghost function Succeeded(): Call -> nat {
    (call: Call) => if call.phase.Done? && call.phase.response.Success? then 1 else 0
  }

  lemma {:induction false} CommittedCount(init: Ledger, s: Server)
    requires Reachable(init, s)
    ensures Sum(s.calls, HasCommitted()) + |init.bets| == |s.committed.bets|
  {
    var es :| Run(Start(init), es) && After(Start(init), es) == s;
    assert Inv(init, Start(init));
    CommittedCalls(init, Start(init), es);
  }

  lemma SucceededHasCommitted(init: Ledger, s: Server, c: nat)
    requires c < |s.calls| && CallExplained(init, s, c)
    ensures Succeeded()(s.calls[c]) <= HasCommitted()(s.calls[c])
  {
  }

  /** There are no more successful calls than committed bets. */
  lemma {:induction false} SuccessesAreBets(init: Ledger, s: Server)
    requires Reachable(init, s)
    ensures |init.bets| + Sum(s.calls, Succeeded()) <= |s.committed.bets|
  {
    ReachableInv(init, s);
    CommittedCount(init, s);
    forall c | 0 <= c < |s.calls| ensures Succeeded()(s.calls[c]) <= HasCommitted()(s.calls[c]) {
      assert CallExplained(init, s, c);
      SucceededHasCommitted(init, s, c);
    }
    SumMonotone(s.calls, Succeeded(), HasCommitted());
  }
}
