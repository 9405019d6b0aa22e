/** What becomes of a request: the one that arrives is the one that is answered, the database is asked
    about its email, and the reply is the one for what the database said. */
module Requests {
  import opened Wrappers
  import opened Sums
  import opened Wire
  import opened Codec
  import opened Login
  import opened LoginService
  import Pool = PoolMonitor

  /** Handlers keep their queues, requests are never lost, and only a match brings a new one. */
  ghost predicate RequestsKept(s: Service, t: Service, matched: bool) {
    && |s.handlers| <= |t.handlers|
    && (forall h | 0 <= h < |s.handlers| ::
          t.handlers[h].queue == s.handlers[h].queue &&
          (s.handlers[h].request.Some? || !matched ==> t.handlers[h].request == s.handlers[h].request))
    && (!matched ==> forall h | |s.handlers| <= h < |t.handlers| :: t.handlers[h].request.None?)
  }

  /** From the n-th on, all events come from the work itself: none is a new request, the shutdown
      or a spurious wakeup. */
  ghost predicate OnlyWork(es: seq<Event>, n: nat) { forall i | n <= i < |es| :: IsProgress(es[i]) }

  lemma RequestsStep(s: Service, e: Event)
    requires Enabled(s, e) && LocalInv(s)
    ensures RequestsKept(s, Step(s, e), e.Match?)
  {
    if e.Match? { assert OpOk(s, s.ops[e.i]); }
  }

  lemma {:induction false} RequestsRun(c: Config, es: seq<Event>, n: nat)
    requires Run(Start(c), es) && n <= |es|
    ensures Run(Start(c), es[..n])
    ensures RequestsKept(After(Start(c), es[..n]), After(Start(c), es), !OnlyWork(es, n))
  {
    if n == |es| {
      assert es[..n] == es;
    } else {
      var rest := es[..|es| - 1];
      assert rest[..n] == es[..n];
      assert OnlyWork(es, n) ==> OnlyWork(rest, n) && IsProgress(es[|rest|]);
      RequestsRun(c, rest, n);
      StartInv(c);
      RunInv(Start(c), rest, c.perQueue, multiset(c.connections));
      RequestsStep(After(Start(c), rest), es[|es| - 1]);
    }
  }

  // ----- from the arrival to the reply ----------------------------------------------------

  /** Event `k` of the run brings `request` to handler `h`. */
  ghost predicate Arrives(c: Config, es: seq<Event>, k: nat, h: nat, request: RequestValue) {
    && k < |es| && es[k].Match? && es[k].request == request
    && Run(Start(c), es[..k]) && es[k].i < |After(Start(c), es[..k]).ops|
    && After(Start(c), es[..k]).ops[es[k].i].tag == h
  }

  lemma {:induction false} PrefixRuns(c: Config, es: seq<Event>, k: nat)
    requires Run(Start(c), es) && k < |es|
    ensures Run(Start(c), es[..k]) && Enabled(After(Start(c), es[..k]), es[k])
    ensures Run(Start(c), es[..k + 1]) && After(Start(c), es[..k + 1]) == Step(After(Start(c), es[..k]), es[k])
  {
    RequestsRun(c, es, k + 1);
    assert es[..k + 1][..k] == es[..k];
  }

  lemma MatchStores(s: Service, i: nat, request: RequestValue)
    requires Enabled(s, Match(i, request))
    ensures var h := s.ops[i].tag;
            h < |Step(s, Match(i, request)).handlers| && Step(s, Match(i, request)).handlers[h].request == Some(request)
  {
  }

  /** The request that arrives for a handler is the handler's request ever after. */
  lemma {:induction false} ArrivalIsKept(c: Config, es: seq<Event>, k: nat)
    requires Run(Start(c), es) && k < |es| && es[k].Match?
    ensures Run(Start(c), es[..k]) && es[k].i < |After(Start(c), es[..k]).ops|
    ensures var h := After(Start(c), es[..k]).ops[es[k].i].tag;
            h < |After(Start(c), es).handlers| && After(Start(c), es).handlers[h].request == Some(es[k].request)
  {
    PrefixRuns(c, es, k);
    MatchStores(After(Start(c), es[..k]), es[k].i, es[k].request);
    RequestsRun(c, es, k + 1);
  }

  lemma RequestComes(s: Service, e: Event, h: nat)
    requires Enabled(s, e) && h < |Step(s, e).handlers| && Step(s, e).handlers[h].request.Some?
    ensures if e.Match? && s.ops[e.i].tag == h then Step(s, e).handlers[h].request == Some(e.request)
            else h < |s.handlers| && s.handlers[h].request == Step(s, e).handlers[h].request
  {
  }

  /** A handler has a request only because one has arrived for it, and it is that one. */
  lemma {:induction false} RequestHasArrived(c: Config, es: seq<Event>, h: nat)
    requires Run(Start(c), es)
    requires h < |After(Start(c), es).handlers| && After(Start(c), es).handlers[h].request.Some?
    ensures exists k: nat :: Arrives(c, es, k, h, After(Start(c), es).handlers[h].request.value)
  {
    var request := After(Start(c), es).handlers[h].request.value;
    if es == [] {
      NoRequestAtStart(c, h);
    } else {
      var n := |es| - 1;
      var rest, s := es[..n], After(Start(c), es[..n]);
      RequestComes(s, es[n], h);
      if es[n].Match? && s.ops[es[n].i].tag == h {
        assert Arrives(c, es, n, h, request);
      } else {
        RequestHasArrived(c, rest, h);
        var k: nat :| Arrives(c, rest, k, h, request);
        assert rest[..k] == es[..k];
        assert Arrives(c, es, k, h, request);
      }
    }
  }

  ghost predicate NoRequests(s: Service) { forall h | 0 <= h < |s.handlers| :: s.handlers[h].request.None? }

  lemma {:induction false} PopulateNoRequests(s: Service, q: nat, k: nat)
    requires NoRequests(s)
    ensures NoRequests(Populate(s, q, k))
  {
    if k > 0 { PopulateNoRequests(s, q, k - 1); }
  }

  lemma {:induction false} QueuesNoRequests(s: Service, queues: nat, k: nat)
    requires NoRequests(s)
    ensures NoRequests(PopulateQueues(s, queues, k))
  {
    if queues > 0 {
      QueuesNoRequests(s, queues - 1, k);
      PopulateNoRequests(PopulateQueues(s, queues - 1, k), queues - 1, k);
    }
  }

  lemma {:induction false} NoRequestAtStart(c: Config, h: nat)
    requires h < |Start(c).handlers|
    ensures Start(c).handlers[h].request.None?
  {
    QueuesNoRequests(Idle(c), c.workers, c.perQueue);
  }

  /** At most one request arrives for a handler. */
  lemma {:induction false} OneArrival(c: Config, es: seq<Event>, j: nat, k: nat, h: nat,
                                     r: RequestValue, r': RequestValue)
    requires Run(Start(c), es) && Arrives(c, es, j, h, r) && Arrives(c, es, k, h, r')
    ensures j == k
  {
    if j < k { SecondArrival(c, es, j, k, h, r, r'); } else if k < j { SecondArrival(c, es, k, j, h, r', r); }
  }

  lemma {:induction false} SecondArrival(c: Config, es: seq<Event>, j: nat, k: nat, h: nat,
                                        r: RequestValue, r': RequestValue)
    requires Run(Start(c), es) && j < k < |es| && Arrives(c, es, j, h, r)
    ensures !Arrives(c, es, k, h, r')
  {
    PrefixRuns(c, es, k);
    assert es[..k][..j] == es[..j];
    ArrivalIsKept(c, es[..k], j);
    var s := After(Start(c), es[..k]);
    ReachableInv(c, s);
    if es[k].Match? { MatchIsFirst(s, es[k].i, es[k].request); }
  }

  lemma MatchIsFirst(s: Service, i: nat, request: RequestValue)
    requires Enabled(s, Match(i, request)) && LocalInv(s)
    ensures s.handlers[s.ops[i].tag].request.None?
  {
    assert OpOk(s, s.ops[i]);
  }

  /** Every reply is to the request that arrived for its handler, and rests on what the database
      said in this run about the email of that request. */
  lemma {:induction false} ReplyIsForArrival(c: Config, es: seq<Event>, i: nat)
    requires Run(Start(c), es) && i < |After(Start(c), es).log|
    ensures var r := After(Start(c), es).log[i];
            && (exists k: nat :: Arrives(c, es, k, r.handler, r.request))
            && (r.result.Some? ==>
                  exists j :: 0 <= j < |es| && es[j].Answer? &&
                              es[j].database(UserOf(r.request).email) == r.result.value)
  {
    var s := After(Start(c), es);
    ReachableInv(c, s);
    assert ReplyOk(s, s.log[i]);
    RequestHasArrived(c, es, s.log[i].handler);
    var says := (email: Bytes, result: QueryResult) =>
                  exists j :: 0 <= j < |es| && es[j].Answer? && es[j].database(email) == result;
    RepliesAreAnswers(c, es, says);
    assert SaidOf(s.log[i].request, s.log[i].result, says);
  }

  /** The reply in each case: without a pool, for an unknown email, for an exception, for a wrong
      password and for the right one. */
  lemma {:induction false} ReplyCases(c: Config, s: Service, i: nat)
    requires Reachable(c, s) && i < |s.log|
    ensures var r := s.log[i];
            var password := if r.request.user.Some? then r.request.user.value.password else [];
            && (r.result.None? <==> !c.hasPool)
            && match r.result
               case None => r.status == Status(UNAVAILABLE, "DB not available") && r.response == ResponseValue([], 0)
               case Some(NoRows) =>
                 r.status == Status(NOT_FOUND, "User not found") && r.response == ResponseValue([], 0)
               case Some(Throws(what)) => r.status == Status(INTERNAL, what) && r.response == ResponseValue([], 0)
               case Some(Row(id, stored)) =>
                 if stored != password then
                   r.status == Status(UNAUTHENTICATED, "Wrong password") && r.response == ResponseValue([], 0)
                 else
                   r.status == Status(OK, "") && r.response == ResponseValue(TokenFor(id), id)
  {
    ReachableInv(c, s);
    assert ReplyOk(s, s.log[i]);
  }

  // ----- nothing the environment may do is excluded ---------------------------------------

  /** As long as the server is up, any request can arrive for any registration that is pending. */
  lemma {:induction false} AnyRequestCanArrive(c: Config, s: Service, i: nat, request: RequestValue)
    requires Reachable(c, s) && !s.down && i < |s.ops| && s.ops[i].kind.LoginOp? && s.ops[i].ok.None?
    ensures Enabled(s, Match(i, request))
  {
    ReachableInv(c, s);
    assert OpOk(s, s.ops[i]);
  }

  /** The shutdown can come at any time, a reply can leave or fail, a queue can deliver its ready events
      in any order, and a sleeping worker can wake up for no reason. */
  lemma EnvironmentIsFree(s: Service, i: nat, w: nat)
    requires i < |s.ops| && w < |s.stage|
    ensures !s.down ==> Enabled(s, Shutdown)
    ensures s.ops[i].kind.FinishOp? && s.ops[i].ok.None? ==>
              Enabled(s, Complete(i, true)) && Enabled(s, Complete(i, false))
    ensures s.ops[i].queue == w && s.ops[i].ok.Some? && s.stage[w].Polling? ==> Enabled(s, Next(w, i))
    ensures s.hasPool && w < |s.pool.phase| && s.pool.phase[w].Sleeping? ==> Enabled(s, Spurious(w))
  {
  }

  /** With no worker running it, a waiting handler is registered with its queue. */
  lemma {:induction false} WaitingIsRegistered(s: Service, h: nat) returns (i: nat)
    requires OwnerInv(s) && LocalInv(s) && h < |s.handlers| && s.handlers[h].state == WAIT
    requires forall w | 0 <= w < |s.stage| :: s.stage[w].Polling?
    ensures i < |s.ops| && s.ops[i].tag == h && s.ops[i].kind.LoginOp? && s.ops[i].queue == s.handlers[h].queue
  {
    NobodyRuns(s, h);
    assert Owners(s, h) == 1;
    i := SumWitness(s.ops, TagIs(h));
    assert OpOk(s, s.ops[i]);
  }

  lemma {:induction false} ServedHasRegistration(c: Config, s: Service, q: nat) returns (i: nat)
    requires Reachable(c, s) && Served(s, c.perQueue, c.connections) && q < |s.stage| && c.perQueue > 0
    ensures i < |s.ops| && s.ops[i].kind.LoginOp? && s.ops[i].queue == q
  {
    ReachableInv(c, s);
    assert s.stage[q].Polling? && Acceptors(s, q) == c.perQueue;
    var h := SumWitness(s.handlers, WaitsOn(q));
    i := WaitingIsRegistered(s, h);
  }

  lemma ReadyIsTaken(s: Service, i: nat)
    requires i < |s.ops| && s.ops[i].queue < |s.stage| && s.stage[s.ops[i].queue].Polling? && s.ops[i].ok.Some?
    ensures Enabled(s, Next(s.ops[i].queue, i)) && IsProgress(Next(s.ops[i].queue, i))
  {
  }

  /** A server at rest is ready for more: any request can arrive at any queue. */
  lemma {:induction false} RestAccepts(c: Config, s: Service, q: nat, request: RequestValue)
    requires Reachable(c, s) && !s.down && (c.hasPool ==> c.connections != []) && q < |s.stage| && c.perQueue > 0
    requires forall e | Enabled(s, e) :: !IsProgress(e)
    ensures exists i: nat :: Enabled(s, Match(i, request)) && s.ops[i].queue == q
  {
    QuietIsServed(c, s);
    var i := ServedHasRegistration(c, s, q);
    if s.ops[i].ok.Some? { ReadyIsTaken(s, i); }
    AnyRequestCanArrive(c, s, i, request);
  }
}
