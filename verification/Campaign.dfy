/** BetGun firing at the bet service: the generator and the server together. */
module Campaign {
  import opened Sums
  import opened Ledger
  import Server = BetServer
  import Gun = BetGun

  datatype Campaign = Campaign(gun: Gun.Gun, server: Server.Server)

  datatype Event =
    | Fire(w: nat, userId: int)                                  // generateBet, and the request arrives
    | Answer(w: nat, outcome: Gun.Outcome, latency: nat)         // the response, or a transport error
    | GunStep(g: Gun.Event)
    | ServerStep(e: Server.Event)

  ghost function GeneratedBet(userId: int): Request { Request(userId, "event_1", 1.0, "home") }

  /** A response is the server's; a transport error may hide any fate of the call. */
  ghost predicate Honest(s: Server.Server, call: nat, outcome: Gun.Outcome) {
    match outcome
    case TransportError => true
    case Placed => call < |s.calls| && s.calls[call].phase.Done? && s.calls[call].phase.response.Success?
    case Refused => call < |s.calls| && s.calls[call].phase.Done? && s.calls[call].phase.response.Failure?
  }

  ghost predicate Enabled(s: Campaign, users: seq<int>, e: Event) {
    match e
    case Fire(w, u) => u in users && Gun.Enabled(s.gun, Gun.Send(w))
    case Answer(w, outcome, latency) =>
      Gun.Enabled(s.gun, Gun.Return(w, outcome, latency)) && Honest(s.server, s.gun.workers[w].call, outcome)
    case GunStep(g) => Gun.Enabled(s.gun, g) && !g.Send? && !g.Return?
    case ServerStep(x) => Server.Enabled(s.server, x) && !x.Arrive?
  }

  ghost function Step(s: Campaign, users: seq<int>, e: Event): Campaign
    requires Enabled(s, users, e)
  {
    match e
    case Fire(w, u) =>
      Campaign(Gun.Step(s.gun, Gun.Send(w)), Server.Step(s.server, Server.Arrive(GeneratedBet(u))))
    case Answer(w, outcome, latency) => s.(gun := Gun.Step(s.gun, Gun.Return(w, outcome, latency)))
    case GunStep(g) => s.(gun := Gun.Step(s.gun, g))
    case ServerStep(x) => s.(server := Server.Step(s.server, x))
  }

  ghost function Start(init: Ledger, numWorkers: nat): Campaign {
    Campaign(Gun.Start(numWorkers), Server.Start(init))
  }

  ghost predicate Run(s: Campaign, users: seq<int>, es: seq<Event>)
    decreases |es|, 0
  {
    es == [] || (Run(s, users, es[..|es| - 1]) && Enabled(After(s, users, es[..|es| - 1]), users, es[|es| - 1]))
  }

  ghost function After(s: Campaign, users: seq<int>, es: seq<Event>): Campaign
    requires Run(s, users, es)
    decreases |es|, 1
  {
    if es == [] then s else Step(After(s, users, es[..|es| - 1]), users, es[|es| - 1])
  }

  // ----- the generator's successes are the server's ---------------------------------------

  ghost predicate HonestPhase(s: Server.Server, p: Gun.Phase) {
    match p
    case Calling(c) => c < |s.calls|
    case Timed(c, outcome, _) => Honest(s, c, outcome)
    case LatencyAdded(c, outcome) => Honest(s, c, outcome)
    case _ => true
  }

  ghost predicate Inv(s: Campaign, users: seq<int>) {
    && s.gun.sent == |s.server.calls|
    && (forall c | 0 <= c < |s.server.calls| ::
          && s.server.calls[c].request.amount == 1.0 && s.server.calls[c].request.userId in users
          && s.server.calls[c].request.eventId == "event_1" && s.server.calls[c].request.outcome == "home")
    && (forall w | 0 <= w < |s.gun.workers| :: HonestPhase(s.server, s.gun.workers[w]))
    && (forall i | 0 <= i < |s.gun.completions| ::
          Honest(s.server, s.gun.completions[i].call, s.gun.completions[i].outcome))
  }

  /** What a call was answered stays its answer. */
  lemma HonestForever(s: Server.Server, x: Server.Event, call: nat, outcome: Gun.Outcome)
    requires Server.Enabled(s, x) && Honest(s, call, outcome)
    ensures Honest(Server.Step(s, x), call, outcome)
  {
  }

  lemma ServerStepInv(s: Campaign, users: seq<int>, x: Server.Event, s': Campaign)
    requires Inv(s, users) && Server.Enabled(s.server, x) && !x.Arrive?
    requires s' == s.(server := Server.Step(s.server, x))
    ensures Inv(s', users)
  {
    forall w | 0 <= w < |s'.gun.workers| ensures HonestPhase(s'.server, s'.gun.workers[w]) {
      assert HonestPhase(s.server, s.gun.workers[w]);
      match s.gun.workers[w]
      case Timed(c, outcome, _) => HonestForever(s.server, x, c, outcome);
      case LatencyAdded(c, outcome) => HonestForever(s.server, x, c, outcome);
      case _ =>
    }
    forall i | 0 <= i < |s'.gun.completions|
      ensures Honest(s'.server, s'.gun.completions[i].call, s'.gun.completions[i].outcome)
    {
      HonestForever(s.server, x, s.gun.completions[i].call, s.gun.completions[i].outcome);
    }
  }

  lemma FireInv(s: Campaign, users: seq<int>, w: nat, u: int)
    requires Inv(s, users) && Enabled(s, users, Fire(w, u))
    ensures Inv(Step(s, users, Fire(w, u)), users)
  {
    var s' := Step(s, users, Fire(w, u));
    forall v | 0 <= v < |s'.gun.workers| ensures HonestPhase(s'.server, s'.gun.workers[v]) {
      assert HonestPhase(s.server, s.gun.workers[v]);
    }
    forall i | 0 <= i < |s'.gun.completions|
      ensures Honest(s'.server, s'.gun.completions[i].call, s'.gun.completions[i].outcome)
    {
      HonestForever(s.server, Server.Arrive(GeneratedBet(u)), s.gun.completions[i].call, s.gun.completions[i].outcome);
    }
  }

  lemma InvStep(s: Campaign, users: seq<int>, e: Event)
    requires Inv(s, users) && Enabled(s, users, e)
    ensures Inv(Step(s, users, e), users)
  {
    var s' := Step(s, users, e);
    match e
    case Fire(w, u) => FireInv(s, users, w, u);
    case ServerStep(x) => ServerStepInv(s, users, x, s');
    case Answer(w, _, _) =>
      forall v | 0 <= v < |s'.gun.workers| ensures HonestPhase(s'.server, s'.gun.workers[v]) {
        assert HonestPhase(s.server, s.gun.workers[v]);
      }
    case GunStep(g) =>
      forall v | 0 <= v < |s'.gun.workers| ensures HonestPhase(s'.server, s'.gun.workers[v]) {
        assert HonestPhase(s.server, s.gun.workers[v]);
      }
  }

  /** The generator and the server each only do what they do on their own. */
  lemma {:induction false} Projections(init: Ledger, numWorkers: nat, users: seq<int>, es: seq<Event>)
    requires Run(Start(init, numWorkers), users, es)
    ensures Gun.Reachable(numWorkers, After(Start(init, numWorkers), users, es).gun)
    ensures Server.Reachable(init, After(Start(init, numWorkers), users, es).server)
    ensures Inv(After(Start(init, numWorkers), users, es), users)
  {
    if es == [] {
      assert Gun.Run(Gun.Start(numWorkers), []) && Gun.After(Gun.Start(numWorkers), []) == Gun.Start(numWorkers);
      assert Server.Run(Server.Start(init), []) && Server.After(Server.Start(init), []) == Server.Start(init);
    } else {
      var s, e := After(Start(init, numWorkers), users, es[..|es| - 1]), es[|es| - 1];
      Projections(init, numWorkers, users, es[..|es| - 1]);
      InvStep(s, users, e);
      match e
      case Fire(w, u) =>
        Gun.ReachableStep(numWorkers, s.gun, Gun.Send(w));
        Server.ReachableStep(init, s.server, Server.Arrive(GeneratedBet(u)));
      case Answer(w, outcome, latency) => Gun.ReachableStep(numWorkers, s.gun, Gun.Return(w, outcome, latency));
      case GunStep(g) => Gun.ReachableStep(numWorkers, s.gun, g);
      case ServerStep(x) => Server.ReachableStep(init, s.server, x);
    }
  }

  /** Completions of different calls that were all placed are no more than the successful calls. */
  lemma {:induction false} PlacedAreSuccesses(cs: seq<Gun.Completion>, calls: seq<Server.Call>)
    requires forall call: nat :: Sum(cs, Gun.CompletionOf(call)) <= 1
    requires forall i | 0 <= i < |cs| && cs[i].outcome.Placed? ::
               cs[i].call < |calls| && calls[cs[i].call].phase.Done? && calls[cs[i].call].phase.response.Success?
    ensures Sum(cs, Gun.WithOutcome(Gun.Placed)) <= Sum(calls, Server.Succeeded())
  {
    if cs != [] {
      var n := |cs| - 1;
      forall call: nat ensures Sum(cs[..n], Gun.CompletionOf(call)) <= 1 {
        assert Sum(cs, Gun.CompletionOf(call)) <= 1;
      }
      if cs[n].outcome.Placed? {
        var c := cs[n].call;
        var used := calls[c].(phase := Server.Arrived);
        forall i | 0 <= i < n ensures cs[i].call != c { SumTwoMembers(cs, i, n, Gun.CompletionOf(c)); }
        SumUpdate(calls, c, used, Server.Succeeded());
        PlacedAreSuccesses(cs[..n], calls[c := used]);
      } else {
        PlacedAreSuccesses(cs[..n], calls);
      }
    }
  }

  /** Whatever is in the bets table after a run was put there by the generator, for one of its users. */
  lemma {:induction false} BetsAreGenerated(init: Ledger, numWorkers: nat, users: seq<int>, es: seq<Event>, j: nat)
    requires Run(Start(init, numWorkers), users, es)
    ensures var bets := After(Start(init, numWorkers), users, es).server.committed.bets;
            |init.bets| <= j < |bets| ==>
              && bets[j].userId in users && bets[j].eventId == "event_1"
              && bets[j].amount == 1.0 && bets[j].outcome == "home"
  {
    var s := After(Start(init, numWorkers), users, es).server;
    Projections(init, numWorkers, users, es);
    Server.BetsAreRequests(init, s, j);
    Server.RefinesLedger(init, s);
    assert forall i | 0 <= i < |s.log| :: Server.EntryOfCall(s, s.log[i]);
  }

  /** A free worker can fire for any user, a call can be answered as soon as the server has, or fail in
      transport at any time, and the server goes on as it can alone. */
  lemma EveryShotIsPossible(s: Campaign, users: seq<int>, w: nat, u: int, latency: nat, x: Server.Event)
    requires w < |s.gun.workers|
    ensures u in users && s.gun.workers[w].LoopHead? && !s.gun.cancelled ==> Enabled(s, users, Fire(w, u))
    ensures s.gun.workers[w].Calling? ==> Enabled(s, users, Answer(w, Gun.TransportError, latency))
    ensures s.gun.workers[w].Calling? && s.gun.workers[w].call < |s.server.calls| &&
            s.server.calls[s.gun.workers[w].call].phase.Done? ==>
              Enabled(s, users, Answer(w, if s.server.calls[s.gun.workers[w].call].phase.response.Success?
                                          then Gun.Placed else Gun.Refused, latency))
    ensures Server.Enabled(s.server, x) && !x.Arrive? ==> Enabled(s, users, ServerStep(x))
  {
  }

  // ----- the bound ------------------------------------------------------------------------

  ghost function BetCount(bets: seq<Bet>): int -> nat { (u: int) => |BetsOf(bets, u)| }

  ghost function WholeBets(init: Ledger): int -> nat {
    (u: int) => if u in init.users && init.users[u] >= 0.0 then init.users[u].Floor else 0
  }

  lemma {:induction false} SumZero(users: seq<int>)
    ensures Sum(users, BetCount([])) == 0
  {
    if users != [] { SumZero(users[..|users| - 1]); }
  }

  lemma {:induction false} OneMoreBet(bets: seq<Bet>, b: Bet, users: seq<int>)
    requires forall i, j | 0 <= i < j < |users| :: users[i] != users[j]
    ensures Sum(users, BetCount(bets + [b])) == Sum(users, BetCount(bets)) + if b.userId in users then 1 else 0
  {
    if users != [] {
      var n := |users| - 1;
      OneMoreBet(bets, b, users[..n]);
      BetsOfAppend(bets, b, users[n]);
      assert users == users[..n] + [users[n]];
    }
  }

  lemma {:induction false} BetsByUser(bets: seq<Bet>, users: seq<int>)
    requires forall i, j | 0 <= i < j < |users| :: users[i] != users[j]
    requires forall i | 0 <= i < |bets| :: bets[i].userId in users
    ensures |bets| == Sum(users, BetCount(bets))
  {
    if bets == [] {
      SumZero(users);
    } else {
      var n := |bets| - 1;
      BetsByUser(bets[..n], users);
      OneMoreBet(bets[..n], bets[n], users);
      assert bets == bets[..n] + [bets[n]];
    }
  }

  lemma {:induction false} ReplayedUsers(init: Ledger, rs: seq<Request>, users: seq<int>)
    requires init.bets == [] && forall i | 0 <= i < |rs| :: rs[i].userId in users
    ensures forall i | 0 <= i < |Replay(init, rs).bets| :: Replay(init, rs).bets[i].userId in users
    ensures forall i | 0 <= i < |Replay(init, rs).bets| :: Replay(init, rs).bets[i].userId in init.users
  {
    if rs != [] {
      ReplayedUsers(init, rs[..|rs| - 1], users);
      ReplayConserves(init, rs[..|rs| - 1]);
    }
  }

  /** Over any run, the successes the generator ever counted, reported or not, are at most the
      whole currency units the distinct configured users started with. */
  lemma {:induction false} SuccessesAreBounded(init: Ledger, numWorkers: nat, users: seq<int>, es: seq<Event>)
    requires Run(Start(init, numWorkers), users, es)
    requires Solvent(init) && init.bets == []
    requires forall i, j | 0 <= i < j < |users| :: users[i] != users[j]
    ensures Gun.Total(After(Start(init, numWorkers), users, es).gun, Gun.Placed) <= Sum(users, WholeBets(init))
  {
    var s := After(Start(init, numWorkers), users, es);
    Projections(init, numWorkers, users, es);
    Gun.CountersByOutcome(numWorkers, s.gun, Gun.Placed);
    Gun.LatencyCoverage(numWorkers, s.gun);
    forall i | 0 <= i < |s.gun.completions| && s.gun.completions[i].outcome.Placed?
      ensures Honest(s.server, s.gun.completions[i].call, Gun.Placed) {}
    PlacedAreSuccesses(s.gun.completions, s.server.calls);
    Server.SuccessesAreBets(init, s.server);
    BetsAreCovered(init, s.server, users);
  }

  lemma ByOne(x: real)
    ensures x / 1.0 == x
  {
  }

  lemma {:induction false} UserIsCovered(init: Ledger, s: Server.Server, u: int)
    requires Server.Reachable(init, s) && Solvent(init) && init.bets == []
    requires forall c | 0 <= c < |s.calls| :: s.calls[c].request.amount == 1.0
    requires forall i | 0 <= i < |s.committed.bets| :: s.committed.bets[i].userId in init.users
    ensures |BetsOf(s.committed.bets, u)| <= WholeBets(init)(u)
  {
    if u in init.users {
      Server.CommittedBetsAreBounded(init, s, u, 1.0);
      ByOne(init.users[u]);
    } else {
      NoBetsOf(s.committed.bets, u);
    }
  }

  lemma {:induction false} BetsAreCovered(init: Ledger, s: Server.Server, users: seq<int>)
    requires Server.Reachable(init, s) && Solvent(init) && init.bets == []
    requires forall i, j | 0 <= i < j < |users| :: users[i] != users[j]
    requires forall c | 0 <= c < |s.calls| :: s.calls[c].request.amount == 1.0 && s.calls[c].request.userId in users
    ensures |s.committed.bets| <= Sum(users, WholeBets(init))
  {
    Server.RefinesLedger(init, s);
    var rs := Server.Requests(s.log);
    forall i | 0 <= i < |rs| ensures rs[i].userId in users { assert Server.EntryOfCall(s, s.log[i]); }
    ReplayedUsers(init, rs, users);
    BetsByUser(s.committed.bets, users);
    forall i | 0 <= i < |users| ensures BetCount(s.committed.bets)(users[i]) <= WholeBets(init)(users[i]) {
      UserIsCovered(init, s, users[i]);
    }
    SumMonotone(users, BetCount(s.committed.bets), WholeBets(init));
  }

  lemma {:induction false} NoBetsOf(bets: seq<Bet>, u: int)
    requires forall i | 0 <= i < |bets| :: bets[i].userId != u
    ensures BetsOf(bets, u) == []
  {
    if bets != [] { NoBetsOf(bets[..|bets| - 1], u); }
  }
}
