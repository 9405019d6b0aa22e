/** PlaceBet itself, statement by statement, against a database that other calls keep using between
    any two statements. The ghost trace records the events of BetServer that have happened. */
module PlaceBet {
  import opened Wrappers
  import opened Sums
  import opened Ledger
  import opened BetServer

  /** What the outside decides: the failures this call meets and, for each gap between two of its
      statements, the events of other calls that fall into it. `holderFails` is about the holder of
      the row if it has not let go of it by the end of those events. */
  datatype Environment = Environment(beginOk: bool, found: SelectOutcome, updateOk: bool, insertOk: bool,
                                     commit: CommitOutcome, others: nat -> seq<Event>, holderFails: bool)
  {
    ghost predicate Quiet() {
      && beginOk && found == Row && updateOk && insertOk && commit == Committed
      && forall gap :: others(gap) == []
    }
  }

  /** An event that is not a statement of call `c`. */
  predicate IsOther(c: nat, e: Event) { e.Arrive? || e.Lose? || e.c != c }

  /** An event has its turn: it happens if it is not a statement of call `c` and can happen now. */
  ghost function Turn(s: Server, e: Event, c: nat): Server {
    if IsOther(c, e) && Enabled(s, e) then Step(s, e) else s
  }

  /** The state after all events of a schedule have had their turn, one after the other. */
  ghost function Interleaved(s: Server, schedule: seq<Event>, c: nat): Server {
    if schedule == [] then s else Turn(Interleaved(s, schedule[..|schedule| - 1], c), schedule[|schedule| - 1], c)
  }

  lemma InterleavedNext(s: Server, schedule: seq<Event>, i: nat, c: nat)
    requires i < |schedule|
    ensures Interleaved(s, schedule[..i + 1], c) == Turn(Interleaved(s, schedule[..i], c), schedule[i], c)
  {
    assert schedule[..i + 1][..i] == schedule[..i];
  }

  /** Whatever other calls can do between two statements, there is a schedule for it. */
  lemma {:induction false} SchedulesCoverRuns(s: Server, es: seq<Event>, c: nat)
    requires Run(s, es) && forall i | 0 <= i < |es| :: IsOther(c, es[i])
    ensures Interleaved(s, es, c) == After(s, es)
  {
    if es != [] { SchedulesCoverRuns(s, es[..|es| - 1], c); }
  }

  class Database {
    var committed: Ledger
    var locks: map<int, nat>
    var calls: seq<Call>
    var log: seq<Entry>
    ghost const init: Ledger
    ghost var trace: seq<Event>

    function View(): Server
      reads this
    {
      Server(committed, locks, calls, log)
    }

    ghost predicate Valid()
      reads this
    {
      Run(Start(init), trace) && After(Start(init), trace) == View()
    }

    constructor (init: Ledger)
      ensures Valid() && this.init == init && View() == Start(init) && trace == []
    {
      committed, locks, calls, log := init, map[], [], [];
      this.init := init;
      trace := [];
    }

    /** The event `e` has just happened: `before` was the state it happened in. */
    ghost method Record(before: Server, e: Event)
      requires Run(Start(init), trace) && After(Start(init), trace) == before
      requires Enabled(before, e) && Step(before, e) == View()
      modifies this`trace
      ensures Valid() && trace == old(trace) + [e]
    {
      RunGoesOn(Start(init), trace, e);
      trace := trace + [e];
    }

    method NewCall(request: Request) returns (c: nat)
      requires Valid()
      modifies this
      ensures Valid() && View() == Step(old(View()), Arrive(request)) && c == |old(calls)|
      ensures trace == old(trace) + [Arrive(request)]
    {
      ghost var before := View();
      c := |calls|;
      calls := calls + [BetServer.NewCall(request)];
      Record(before, Arrive(request));
    }

    /** Pool.Begin. */
    method BeginTransaction(c: nat, ok: bool)
      requires Valid() && Enabled(View(), Begin(c, ok))
      modifies this
      ensures Valid() && View() == Step(old(View()), Begin(c, ok)) && trace == old(trace) + [Begin(c, ok)]
    {
      ghost var before := View();
      calls := calls[c := calls[c].(phase := if ok then Begun else Done(Failure(BeginFailed)))];
      Record(before, Begin(c, ok));
    }

    /** SELECT balance ... FOR UPDATE and Scan, once the row is free. */
    method QueryRow(c: nat, found: SelectOutcome) returns (balance: Option<real>, error: Error)
      requires Valid() && Enabled(View(), Select(c, found))
      modifies this
      ensures Valid() && View() == Step(old(View()), Select(c, found)) && trace == old(trace) + [Select(c, found)]
      ensures balance.Some? ==> calls[c].phase == Read(balance.value)
      ensures balance.None? ==>
                calls[c].phase == Leaving(Failure(error)) && error == if found == Row then NoRows else QueryFailed
      ensures balance.Some? <==> found == Row && calls[c].request.userId in committed.users
    {
      ghost var before := View();
      var u := calls[c].request.userId;
      if found == Row && u in committed.users {
        balance, error := Some(committed.users[u]), NoRows;
        locks := locks[u := c];
        var call := calls[c].(phase := Read(committed.users[u]));
        if committed.users[u] < call.request.amount {
          call := call.(logged := Some(|log|));
          log := log + [Entry(c, call.request)];
        }
        calls := calls[c := call];
      } else if found == Row {
        balance, error := None, NoRows;
        calls := calls[c := Fail(calls[c], NoRows).(logged := Some(|log|))];
        log := log + [Entry(c, calls[c].request)];
      } else {
        balance, error := None, QueryFailed;
        if found.locked { locks := locks[u := c]; }
        calls := calls[c := Fail(calls[c], QueryFailed)];
      }
      Record(before, Select(c, found));
    }

    /** The comparison in the program. */
    method Compare(c: nat, sufficient: bool)
      requires Valid() && Enabled(View(), Check(c))
      requires sufficient <==> calls[c].phase.balance >= calls[c].request.amount
      modifies this
      ensures Valid() && View() == Step(old(View()), Check(c)) && trace == old(trace) + [Check(c)]
    {
      ghost var before := View();
      if sufficient {
        calls := calls[c := calls[c].(phase := Passed(calls[c].phase.balance - calls[c].request.amount))];
      } else {
        calls := calls[c := Fail(calls[c], InsufficientBalance)];
      }
      Record(before, Check(c));
    }

    /** UPDATE users SET balance = newBalance; it cannot work on a dead connection. */
    method ExecUpdate(c: nat, userId: int, newBalance: real, works: bool) returns (ok: bool)
      requires Valid() && c < |calls| && userId == calls[c].request.userId && calls[c].phase == Passed(newBalance)
      modifies this
      ensures ok == (works && !old(calls[c].lost))
      ensures Valid() && View() == Step(old(View()), Update(c, ok)) && trace == old(trace) + [Update(c, ok)]
    {
      ghost var before := View();
      ok := works && !calls[c].lost;
      calls := calls[c := if ok then calls[c].(phase := Updated(newBalance), write := Some(Write(userId, newBalance)))
                          else Fail(calls[c], UpdateFailed)];
      Record(before, Update(c, ok));
    }

    /** INSERT INTO bets. */
    method ExecInsert(c: nat, bet: Bet, works: bool) returns (ok: bool)
      requires Valid() && c < |calls| && calls[c].phase.Updated?
      requires var r := calls[c].request; bet == Bet(r.userId, r.eventId, r.amount, r.outcome)
      modifies this
      ensures ok == (works && !old(calls[c].lost))
      ensures Valid() && View() == Step(old(View()), Insert(c, ok)) && trace == old(trace) + [Insert(c, ok)]
    {
      ghost var before := View();
      ok := works && !calls[c].lost;
      calls := calls[c := if ok then calls[c].(phase := Inserted(calls[c].phase.newBalance), insert := Some(bet))
                          else Fail(calls[c], InsertFailed)];
      Record(before, Insert(c, ok));
    }

    method CommitTransaction(c: nat, works: CommitOutcome) returns (outcome: CommitOutcome)
      requires Valid() && c < |calls| && calls[c].phase.Inserted?
      modifies this
      ensures outcome == if old(calls[c].lost) then ErrorNotApplied else works
      ensures Valid() && View() == Step(old(View()), Commit(c, outcome)) && trace == old(trace) + [Commit(c, outcome)]
    {
      ghost var before := View();
      var call := calls[c];
      outcome := if call.lost then ErrorNotApplied else works;
      if outcome == ErrorNotApplied {
        calls := calls[c := Fail(call, CommitFailed)];
      } else {
        var response := if outcome == Committed then Success(call.phase.newBalance) else Failure(CommitFailed);
        committed := ApplyWrites(committed, call);
        locks := Freed(locks, c);
        calls := calls[c := call.(phase := Leaving(response), write := None, insert := None, logged := Some(|log|))];
        log := log + [Entry(c, call.request)];
      }
      Record(before, Commit(c, outcome));
    }

    method RollbackTransaction(c: nat)
      requires Valid() && Enabled(View(), Rollback(c))
      modifies this
      ensures Valid() && View() == Step(old(View()), Rollback(c)) && trace == old(trace) + [Rollback(c)]
    {
      ghost var before := View();
      locks := Freed(locks, c);
      calls := calls[c := calls[c].(phase := Done(calls[c].phase.response), write := None, insert := None)];
      Record(before, Rollback(c));
    }

    // ----- the other calls ----------------------------------------------------------------

    /** One event of another call, or the loss of this call's connection. */
    method Other(c: nat, e: Event)
      requires Valid() && c < |calls| && Enabled(View(), e) && IsOther(c, e)
      modifies this
      ensures Valid() && View() == Step(old(View()), e) && trace == old(trace) + [e]
      ensures c < |calls| && (calls[c] == old(calls[c]) || calls[c] == Lost(old(calls[c])))
      ensures e != Lose(c) ==> calls[c] == old(calls[c])
    {
      ghost var before := View();
      CallsChange(before, e);
      var s := Step(View(), e);
      committed, locks, calls, log := s.committed, s.locks, s.calls, s.log;
      Record(before, e);
    }

    /** Any events that are not statements of this call: those of the schedule. */
    method Others(c: nat, schedule: seq<Event>)
      requires Valid() && c < |calls|
      modifies this
      ensures Valid() && old(trace) <= trace
      ensures c < |calls| && (calls[c] == old(calls[c]) || calls[c] == Lost(old(calls[c])))
      ensures View() == Interleaved(old(View()), schedule, c)
      ensures schedule == [] ==> View() == old(View())
    {
      for i := 0 to |schedule|
        invariant Valid() && old(trace) <= trace
        invariant c < |calls| && (calls[c] == old(calls[c]) || calls[c] == Lost(old(calls[c])))
        invariant View() == Interleaved(old(View()), schedule[..i], c)
      {
        if Enabled(View(), schedule[i]) && IsOther(c, schedule[i]) { Other(c, schedule[i]); }
        InterleavedNext(old(View()), schedule, i, c);
      }
      assert schedule[..|schedule|] == schedule;
    }

    /** The next event of a call that holds a lock, with or without a failure. */
    function NextOf(d: nat, fails: bool): Event
      requires d < |calls| && (MustHold(calls[d].phase) || calls[d].phase.Leaving?)
      reads this
    {
      match calls[d].phase
      case Read(_) => Check(d)
      case Passed(_) => Update(d, !fails)
      case Updated(_) => Insert(d, !fails)
      case Inserted(_) => Commit(d, if fails then ErrorNotApplied else Committed)
      case Leaving(_) => Rollback(d)
    }

    method HolderGoesOn(c: nat, u: int, fails: bool)
      requires Valid() && c < |calls| && calls[c].phase.Begun? && u in locks && locks[u] != c
      modifies this
      ensures Valid() && old(trace) <= trace && c < |calls| && calls[c] == old(calls[c])
      ensures Sum(calls, CallWeight()) < old(Sum(calls, CallWeight()))
    {
      ReachableByTrace();
      ReachableInv(init, View());
      ghost var before := View();
      var e := NextOf(locks[u], fails);
      Other(c, e);
      WeightStep(before, e);
    }

    /** Blocked on the row lock: any events of other calls, new ones and failing ones included,
        and after them whatever the holder has left to do. The wait also ends with the loss of the
        connection. */
    method AwaitRow(c: nat, schedule: seq<Event>, holderFails: bool)
      requires Valid() && c < |calls| && calls[c].phase.Begun?
      modifies this
      ensures Valid() && old(trace) <= trace
      ensures c < |calls| && (calls[c] == old(calls[c]) || calls[c] == Lost(old(calls[c])))
      ensures calls[c].lost || calls[c].request.userId !in locks
      ensures schedule == [] && old(calls[c].request.userId !in locks) ==> View() == old(View())
    {
      var u := calls[c].request.userId;
      Others(c, schedule);
      ghost var waited := View();
      while u in locks && !calls[c].lost
        invariant Valid() && old(trace) <= trace
        invariant c < |calls| && (calls[c] == old(calls[c]) || calls[c] == Lost(old(calls[c])))
        invariant u !in waited.locks ==> View() == waited
        decreases Sum(calls, CallWeight())
      {
        WaitsForAnother(c, u);
        HolderGoesOn(c, u, holderFails);
      }
    }

    lemma WaitsForAnother(c: nat, u: int)
      requires Valid() && c < |calls| && calls[c].phase.Begun? && u in locks
      ensures locks[u] != c
    {
      ReachableByTrace();
      ReachableInv(init, View());
    }

    lemma ReplyIsExplained(c: nat)
      requires Valid() && c < |calls| && (calls[c].phase.Leaving? || calls[c].phase.Done?)
      ensures Explained(init, log, calls[c].phase.response, calls[c].logged)
      ensures calls[c].phase.Done? ==> forall u | u in locks :: locks[u] != c
    {
      ReachableByTrace();
      ReachableInv(init, View());
      assert CallExplained(init, View(), c);
    }

    lemma ReplyHasCause(c: nat)
      requires Valid() && c < |calls| && calls[c].phase.Done?
      ensures HasCause(trace, c, calls[c].phase.response, calls[c].logged)
      ensures var r := calls[c].request;
              calls[c].phase.response.Success? ==> Bet(r.userId, r.eventId, r.amount, r.outcome) in committed.bets
    {
      ReachableByTrace();
      ResponseHasCause(init, trace, c);
      if calls[c].phase.response.Success? { SuccessIsCommitted(init, View(), c); }
    }

    /** What a call has read is what is committed. */
    lemma ReadIsCurrent(c: nat)
      requires Valid() && c < |calls|
      ensures DataOk(committed, calls[c])
    {
      ReachableByTrace();
      ReachableInv(init, View());
    }

    /** Right after a commit that was applied the call has the last place in the log, and the
        committed data are what the ledger makes of its request there. */
    lemma CommitIsLedgerStep(before: Server, c: nat, outcome: CommitOutcome)
      requires Reachable(init, before) && Enabled(before, Commit(c, outcome))
      requires View() == Step(before, Commit(c, outcome))
      ensures outcome != ErrorNotApplied ==>
                && IsLast(c, before.calls[c].request, before.calls[c].phase.newBalance)
                && committed == Place(before.committed, before.calls[c].request)
    {
      ReachableInv(init, before);
      assert DataOk(before.committed, before.calls[c]);
      DecisionStep(init, before, Commit(c, outcome));
      assert before.log[..|before.log|] == before.log;
      BeforeAppend(init, before.log, Entry(c, before.calls[c].request), |before.log|);
    }

    /** The last decision was to place the bet `req` of call `c`, which left `newBalance`. */
    ghost predicate IsLast(c: nat, req: Request, newBalance: real)
      reads this
    {
      && c < |calls| && log != [] && log[|log| - 1] == Entry(c, req) && calls[c].logged == Some(|log| - 1)
      && Reply(Before(init, log, |log| - 1), req) == Success(newBalance)
      && committed == Place(Before(init, log, |log| - 1), req)
    }

    lemma ReachableByTrace()
      requires Valid()
      ensures Reachable(init, View())
    {
    }
  }

  /** SELECT ... FOR UPDATE: the balance once the row is locked, or the error to leave with. */
  method LockRow(db: Database, c: nat, req: Request, env: Environment) returns (balance: Option<real>, error: Error)
    requires db.Valid() && c < |db.calls| && db.calls[c].phase.Begun? && db.calls[c].request == req
    modifies db
    ensures db.Valid() && old(db.trace) <= db.trace && c < |db.calls| && db.calls[c].request == req
    ensures db.calls[c].phase == if balance.Some? then Read(balance.value) else Leaving(Failure(error))
    ensures balance.Some? ==>
              !db.calls[c].lost && req.userId in db.committed.users && db.committed.users[req.userId] == balance.value
    ensures balance.None? ==> Explained(db.init, db.log, Failure(error), db.calls[c].logged)
    ensures if balance.Some? then env.found == Row else error == NoRows || error == QueryFailed
    ensures env.Quiet() && !old(db.calls[c].lost) && req.userId !in old(db.locks) ==>
              && db.committed == old(db.committed) && !db.calls[c].lost
              && (balance.Some? <==> req.userId in db.committed.users)
              && (balance.Some? ==> balance.value == db.committed.users[req.userId])
              && (balance.None? ==> error == NoRows)
  {
    db.AwaitRow(c, env.others(1), env.holderFails);
    // nothing works on a dead connection, and a row that is not there cannot have been locked
    var dead := db.calls[c].lost;
    var found := if dead || (env.found.SelectError? && req.userId !in db.committed.users) then SelectError(false)
                 else env.found;
    balance, error := db.QueryRow(c, found);
    db.ReadIsCurrent(c);
    if balance.None? { db.ReplyIsExplained(c); }
  }

  /** The SELECT and the comparison: the new balance, which is the ledger's reply to the request
      as long as the connection lives and so the row is locked, or the response to leave with. */
  method ReadBalance(db: Database, c: nat, req: Request, env: Environment)
    returns (newBalance: Option<real>, refusal: Response)
    requires db.Valid() && c < |db.calls| && db.calls[c].phase.Begun? && db.calls[c].request == req
    modifies db
    ensures db.Valid() && old(db.trace) <= db.trace && c < |db.calls| && db.calls[c].request == req
    ensures refusal.Failure?
    ensures db.calls[c].phase == if newBalance.Some? then Passed(newBalance.value) else Leaving(refusal)
    ensures newBalance.Some? && !db.calls[c].lost ==> Reply(db.committed, req) == Success(newBalance.value)
    ensures newBalance.None? ==> Explained(db.init, db.log, refusal, db.calls[c].logged)
    ensures newBalance.Some? ==> env.found == Row
    ensures refusal != Failure(BeginFailed)
    ensures env.Quiet() && !old(db.calls[c].lost) && req.userId !in old(db.locks) ==>
              && db.committed == old(db.committed) && !db.calls[c].lost
              && Reply(old(db.committed), req) == (if newBalance.Some? then Success(newBalance.value) else refusal)
  {
    var balance, error := LockRow(db, c, req, env);
    if balance.None? { return None, Failure(error); }

    db.Others(c, env.others(2));
    db.Compare(c, !(balance.value < req.amount));
    db.ReadIsCurrent(c);
    if balance.value < req.amount {
      db.ReplyIsExplained(c);
      return None, Failure(InsufficientBalance);
    }
    return Some(balance.value - req.amount), Failure(InsufficientBalance);
  }

  /** UPDATE, INSERT and Commit: a success is the last decision, and one ledger step. */
  method WriteBet(db: Database, c: nat, req: Request, newBalance: real, env: Environment) returns (response: Response)
    requires db.Valid() && c < |db.calls| && db.calls[c].phase == Passed(newBalance) && db.calls[c].request == req
    modifies db
    ensures db.Valid() && old(db.trace) <= db.trace
    ensures c < |db.calls| && db.calls[c].request == req && db.calls[c].phase == Leaving(response)
    ensures Explained(db.init, db.log, response, db.calls[c].logged)
    ensures response.Success? ==> response == Success(newBalance) && db.IsLast(c, req, newBalance)
    ensures response != Failure(BeginFailed)
    ensures response.Success? ==> env.updateOk && env.insertOk && env.commit == Committed
    ensures response.Success? ==>
              && req.userId in db.committed.users && db.committed.users[req.userId] == newBalance
              && db.committed.bets != []
              && db.committed.bets[|db.committed.bets| - 1] == Bet(req.userId, req.eventId, req.amount, req.outcome)
    ensures env.Quiet() && !old(db.calls[c].lost) ==>
              response == Success(newBalance) && db.committed == Place(old(db.committed), req)
  {
    db.Others(c, env.others(3));
    var ok := db.ExecUpdate(c, req.userId, newBalance, env.updateOk);
    if !ok {
      db.ReplyIsExplained(c);
      return Failure(UpdateFailed);
    }

    response := InsertAndCommit(db, c, req, newBalance, env);
    if response.Success? { PlaceInFull(Before(db.init, db.log, |db.log| - 1), req); }
  }

  method InsertAndCommit(db: Database, c: nat, req: Request, newBalance: real, env: Environment)
    returns (response: Response)
    requires db.Valid() && c < |db.calls| && db.calls[c].phase == Updated(newBalance) && db.calls[c].request == req
    modifies db
    ensures db.Valid() && old(db.trace) <= db.trace
    ensures c < |db.calls| && db.calls[c].request == req && db.calls[c].phase == Leaving(response)
    ensures Explained(db.init, db.log, response, db.calls[c].logged)
    ensures response.Success? ==> response == Success(newBalance) && db.IsLast(c, req, newBalance)
    ensures response != Failure(BeginFailed)
    ensures response.Success? ==> env.insertOk && env.commit == Committed
    ensures env.Quiet() && !old(db.calls[c].lost) ==>
              response == Success(newBalance) && db.committed == Place(old(db.committed), req)
  {
    db.Others(c, env.others(4));
    var ok := db.ExecInsert(c, Bet(req.userId, req.eventId, req.amount, req.outcome), env.insertOk);
    if !ok {
      db.ReplyIsExplained(c);
      return Failure(InsertFailed);
    }

    response := CommitBet(db, c, req, newBalance, env);
  }

  method CommitBet(db: Database, c: nat, req: Request, newBalance: real, env: Environment) returns (response: Response)
    requires db.Valid() && c < |db.calls| && db.calls[c].phase == Inserted(newBalance) && db.calls[c].request == req
    modifies db
    ensures db.Valid() && old(db.trace) <= db.trace
    ensures c < |db.calls| && db.calls[c].request == req && db.calls[c].phase == Leaving(response)
    ensures Explained(db.init, db.log, response, db.calls[c].logged)
    ensures response.Success? ==> response == Success(newBalance) && db.IsLast(c, req, newBalance)
    ensures response != Failure(BeginFailed)
    ensures response.Success? ==> env.commit == Committed
    ensures env.Quiet() && !old(db.calls[c].lost) ==>
              response == Success(newBalance) && db.committed == Place(old(db.committed), req)
  {
    db.Others(c, env.others(5));
    db.ReachableByTrace();
    ghost var before := db.View();
    var outcome := db.CommitTransaction(c, env.commit);
    db.CommitIsLedgerStep(before, c, outcome);
    db.ReplyIsExplained(c);
    if outcome != Committed { return Failure(CommitFailed); }
    return Success(newBalance);
  }

  /** The transaction between Begin and the deferred Rollback. */
  method InTransaction(db: Database, c: nat, req: Request, env: Environment) returns (response: Response)
    requires db.Valid() && c < |db.calls| && db.calls[c].phase.Begun? && db.calls[c].request == req
    modifies db
    ensures db.Valid() && old(db.trace) <= db.trace
    ensures c < |db.calls| && db.calls[c].request == req && db.calls[c].phase == Leaving(response)
    ensures response != Failure(BeginFailed)
    ensures response.Success? ==> env.found == Row && env.updateOk && env.insertOk && env.commit == Committed
    ensures env.Quiet() && !old(db.calls[c].lost) && req.userId !in old(db.locks) ==>
              response == Reply(old(db.committed), req) && db.committed == Place(old(db.committed), req)
  {
    var newBalance, refusal := ReadBalance(db, c, req, env);
    if newBalance.None? {
      response := refusal;
    } else {
      response := WriteBet(db, c, req, newBalance.value, env);
    }
  }

  /** The deferred Rollback. */
  method Leave(db: Database, c: nat, schedule: seq<Event>)
    requires db.Valid() && c < |db.calls| && db.calls[c].phase.Leaving?
    modifies db
    ensures db.Valid() && old(db.trace) <= db.trace
    ensures c < |db.calls| && db.calls[c].request == old(db.calls[c].request)
    ensures db.calls[c].phase == Done(old(db.calls[c].phase.response))
    ensures schedule == [] ==> db.committed == old(db.committed)
  {
    db.Others(c, schedule);
    db.RollbackTransaction(c);
  }

  /** Whatever the environment does, the call ends with its locks free, the whole run is one of
      BetServer, and the reply is explained by the atomic ledger; and without failures and
      interference the call does to the database exactly what the ledger does. */
  method PlaceBet(db: Database, req: Request, env: Environment) returns (response: Response)
    requires db.Valid()
    modifies db
    ensures db.Valid() && old(db.trace) <= db.trace
    ensures var c := |old(db.calls)|;
            && c < |db.calls| && db.calls[c].request == req && db.calls[c].phase == Done(response)
            && (forall u | u in db.locks :: db.locks[u] != c)
            && Explained(db.init, db.log, response, db.calls[c].logged)
            && HasCause(db.trace, c, response, db.calls[c].logged)
    ensures response == Failure(BeginFailed) <==> !env.beginOk
    ensures response.Success? ==>
              && env.beginOk && env.found == Row && env.updateOk && env.insertOk && env.commit == Committed
              && Bet(req.userId, req.eventId, req.amount, req.outcome) in db.committed.bets
    ensures env.Quiet() && req.userId !in old(db.locks) ==>
              var l, l' := old(db.committed), db.committed;
              if req.userId !in l.users then
                response == Failure(NoRows) && l' == l
              else if l.users[req.userId] < req.amount then
                response == Failure(InsufficientBalance) && l' == l
              else
                && response == Success(l.users[req.userId] - req.amount)
                && l'.users == l.users[req.userId := l.users[req.userId] - req.amount]
                && l'.bets == l.bets + [Bet(req.userId, req.eventId, req.amount, req.outcome)]
  {
    var c := db.NewCall(req);
    db.Others(c, env.others(0));
    response := BeginToRollback(db, c, req, env);
    db.ReplyIsExplained(c);
    db.ReplyHasCause(c);
    PlaceInFull(old(db.committed), req);
  }

  /** The transaction, if there is one. */
  method BeginToRollback(db: Database, c: nat, req: Request, env: Environment) returns (response: Response)
    requires db.Valid() && c < |db.calls| && db.calls[c].phase.Arrived? && db.calls[c].request == req
    modifies db
    ensures db.Valid() && old(db.trace) <= db.trace
    ensures c < |db.calls| && db.calls[c].request == req && db.calls[c].phase == Done(response)
    ensures response == Failure(BeginFailed) <==> !env.beginOk
    ensures response.Success? ==> env.found == Row && env.updateOk && env.insertOk && env.commit == Committed
    ensures env.Quiet() && !old(db.calls[c].lost) && req.userId !in old(db.locks) ==>
              response == Reply(old(db.committed), req) && db.committed == Place(old(db.committed), req)
  {
    db.BeginTransaction(c, env.beginOk);
    if env.beginOk {
      response := InTransaction(db, c, req, env);
      Leave(db, c, env.others(6));
    } else {
      response := Failure(BeginFailed);
    }
  }
}
