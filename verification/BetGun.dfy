/** The load generator: workers that count their calls in five atomic counters, and a reporter that
    swaps the counters to zero while the workers go on. Every event is one atomic operation. */
module BetGun {
  import opened Sums

  datatype Outcome = Placed | Refused | TransportError

  /** Where a worker is in `sendOne`. */
  datatype Phase =
    | LoopHead
    | Calling(call: nat)                                        // PlaceBet is under way
    | Timed(call: nat, outcome: Outcome, latency: nat)          // returned, nothing counted yet
    | LatencyAdded(call: nat, outcome: Outcome)
    | Counted(outcome: Outcome)                                 // completed added, outcome not yet
    | Exited

  /** Where the reporter is in one tick. */
  datatype Reporter =
    | Waiting
    | CompletedSwapped(comp: nat)
    | LatencySwapped
    | SuccessSwapped
    | RejectedSwapped
    | ReporterStopped

  datatype Timing = Timing(call: nat, latency: nat)
  datatype Completion = Completion(call: nat, outcome: Outcome)

  /** The five counters, the goroutines, and as history: every addition to `totalLat` and to
      `completed` in order, how many of them have been swapped out, and the other drained sums. */
  datatype Gun = Gun(
    success: nat, rejected: nat, failed: nat, completed: nat, totalLat: nat,
    workers: seq<Phase>, reporter: Reporter, cancelled: bool,
    sent: nat, timings: seq<Timing>, completions: seq<Completion>,
    timingsDrained: nat, completionsDrained: nat,
    latDrained: nat, successDrained: nat, rejectedDrained: nat, failedDrained: nat)

  datatype Event =
    | Send(w: nat)
    | Return(w: nat, outcome: Outcome, latency: nat)
    | AddLatency(w: nat)
    | AddCompleted(w: nat)
    | AddOutcome(w: nat)
    | Exit(w: nat)
    | CancelContext
    | SwapCompleted
    | SwapLatency        // or the decision not to, when comp == 0
    | SwapSuccess
    | SwapRejected
    | SwapFailed
    | StopReport

  predicate Enabled(g: Gun, e: Event) {
    match e
    case Send(w) => w < |g.workers| && g.workers[w].LoopHead? && !g.cancelled
    case Return(w, _, _) => w < |g.workers| && g.workers[w].Calling?
    case AddLatency(w) => w < |g.workers| && g.workers[w].Timed?
    case AddCompleted(w) => w < |g.workers| && g.workers[w].LatencyAdded?
    case AddOutcome(w) => w < |g.workers| && g.workers[w].Counted?
    case Exit(w) => w < |g.workers| && g.workers[w].LoopHead? && g.cancelled
    case CancelContext => !g.cancelled
    case SwapCompleted => g.reporter.Waiting?
    case SwapLatency => g.reporter.CompletedSwapped?
    case SwapSuccess => g.reporter.LatencySwapped?
    case SwapRejected => g.reporter.SuccessSwapped?
    case SwapFailed => g.reporter.RejectedSwapped?
    case StopReport => g.reporter.Waiting? && g.cancelled
  }

  function Step(g: Gun, e: Event): Gun
    requires Enabled(g, e)
  {
    match e
    case Send(w) => g.(workers := g.workers[w := Calling(g.sent)], sent := g.sent + 1)
    case Return(w, outcome, latency) => g.(workers := g.workers[w := Timed(g.workers[w].call, outcome, latency)])
    case AddLatency(w) =>
      var p := g.workers[w];
      g.(workers := g.workers[w := LatencyAdded(p.call, p.outcome)],
         totalLat := g.totalLat + p.latency, timings := g.timings + [Timing(p.call, p.latency)])
    case AddCompleted(w) =>
      var p := g.workers[w];
      g.(workers := g.workers[w := Counted(p.outcome)],
         completed := g.completed + 1, completions := g.completions + [Completion(p.call, p.outcome)])
    case AddOutcome(w) =>
      var g' := g.(workers := g.workers[w := LoopHead]);
      (match g.workers[w].outcome
       case TransportError => g'.(failed := g.failed + 1)
       case Placed => g'.(success := g.success + 1)
       case Refused => g'.(rejected := g.rejected + 1))
    case Exit(w) => g.(workers := g.workers[w := Exited])
    case CancelContext => g.(cancelled := true)
    case SwapCompleted =>
      g.(reporter := CompletedSwapped(g.completed), completed := 0, completionsDrained := |g.completions|)
    case SwapLatency =>
      if g.reporter.comp > 0 then
        g.(reporter := LatencySwapped, totalLat := 0,
           timingsDrained := |g.timings|, latDrained := g.latDrained + g.totalLat)
      else
        g.(reporter := LatencySwapped)
    case SwapSuccess => g.(reporter := SuccessSwapped, success := 0, successDrained := g.successDrained + g.success)
    case SwapRejected =>
      g.(reporter := RejectedSwapped, rejected := 0, rejectedDrained := g.rejectedDrained + g.rejected)
    case SwapFailed => g.(reporter := Waiting, failed := 0, failedDrained := g.failedDrained + g.failed)
    case StopReport => g.(reporter := ReporterStopped)
  }

  function Start(numWorkers: nat): Gun {
    Gun(0, 0, 0, 0, 0, seq(numWorkers, _ => LoopHead), Waiting, false, 0, [], [], 0, 0, 0, 0, 0, 0)
  }

  ghost predicate Run(g: Gun, es: seq<Event>)
    decreases |es|, 0
  {
    es == [] || (Run(g, es[..|es| - 1]) && Enabled(After(g, es[..|es| - 1]), es[|es| - 1]))
  }

  ghost function After(g: Gun, es: seq<Event>): Gun
    requires Run(g, es)
    decreases |es|, 1
  {
    if es == [] then g else Step(After(g, es[..|es| - 1]), es[|es| - 1])
  }

  ghost predicate Reachable(numWorkers: nat, g: Gun) {
    exists es :: Run(Start(numWorkers), es) && After(Start(numWorkers), es) == g
  }

  /** One more event at the end of a run. */
  lemma RunGoesOn(g: Gun, es: seq<Event>, e: Event)
    requires Run(g, es) && Enabled(After(g, es), e)
    ensures Run(g, es + [e]) && After(g, es + [e]) == Step(After(g, es), e)
  {
    assert (es + [e])[..|es|] == es;
  }

  lemma ReachableStep(numWorkers: nat, g: Gun, e: Event)
    requires Reachable(numWorkers, g) && Enabled(g, e)
    ensures Reachable(numWorkers, Step(g, e))
  {
    var es :| Run(Start(numWorkers), es) && After(Start(numWorkers), es) == g;
    RunGoesOn(Start(numWorkers), es, e);
  }

  // ----- the inductive invariant ----------------------------------------------------------

  ghost function LatencyOf(): Timing -> nat { (t: Timing) => t.latency }

  ghost function WithOutcome(o: Outcome): Completion -> nat { (c: Completion) => if c.outcome == o then 1 else 0 }

  ghost function BetweenAdds(o: Outcome): Phase -> nat { (p: Phase) => if p.Counted? && p.outcome == o then 1 else 0 }

  ghost function IsCounted(): Phase -> nat { (p: Phase) => if p.Counted? then 1 else 0 }

  /** What the outcome counters hold or have held, by outcome. */
  ghost function Total(g: Gun, o: Outcome): nat {
    match o
    case Placed => g.success + g.successDrained
    case Refused => g.rejected + g.rejectedDrained
    case TransportError => g.failed + g.failedDrained
  }

  ghost predicate CountInv(g: Gun) {
    && g.completed + g.completionsDrained == |g.completions|
    && g.totalLat + g.latDrained == Sum(g.timings, LatencyOf())
    && g.completionsDrained <= |g.completions|
    && forall o :: Total(g, o) + Sum(g.workers, BetweenAdds(o)) == Sum(g.completions, WithOutcome(o))
  }

  /** The drained latency is that of the first `timingsDrained` timings. */
  ghost predicate DrainInv(g: Gun) {
    g.timingsDrained <= |g.timings| && g.latDrained == Sum(g.timings[..g.timingsDrained], LatencyOf())
  }

  ghost predicate TimedAmong(timings: seq<Timing>, n: nat, call: nat) {
    exists j :: 0 <= j < n <= |timings| && timings[j].call == call
  }

  /** Every drained completion has its latency drained. */
  ghost predicate Covered(g: Gun) {
    forall i | 0 <= i < g.completionsDrained <= |g.completions| ::
      TimedAmong(g.timings, g.timingsDrained, g.completions[i].call)
  }

  ghost predicate LatencyFirst(g: Gun) {
    && (forall i | 0 <= i < |g.completions| :: TimedAmong(g.timings, |g.timings|, g.completions[i].call))
    && (forall w | 0 <= w < |g.workers| && g.workers[w].LatencyAdded? ::
          TimedAmong(g.timings, |g.timings|, g.workers[w].call))
    && ((g.reporter.CompletedSwapped? && g.reporter.comp > 0) || Covered(g))
  }

  ghost function TimingOf(call: nat): Timing -> nat { (t: Timing) => if t.call == call then 1 else 0 }

  ghost function CompletionOf(call: nat): Completion -> nat { (c: Completion) => if c.call == call then 1 else 0 }

  ghost function Untimed(call: nat): Phase -> nat {
    (p: Phase) => if (p.Calling? || p.Timed?) && p.call == call then 1 else 0
  }

  ghost function Uncompleted(call: nat): Phase -> nat {
    (p: Phase) => if (p.Calling? || p.Timed? || p.LatencyAdded?) && p.call == call then 1 else 0
  }

  /** Each call that was sent adds its latency once and is completed once. */
  ghost predicate OnceInv(g: Gun) {
    && (forall call: nat ::
          Sum(g.timings, TimingOf(call)) + Sum(g.workers, Untimed(call)) == if call < g.sent then 1 else 0)
    && (forall call: nat ::
          Sum(g.completions, CompletionOf(call)) + Sum(g.workers, Uncompleted(call)) == if call < g.sent then 1 else 0)
  }

  ghost predicate IsWorkerEvent(e: Event) {
    e.Send? || e.Return? || e.AddLatency? || e.AddCompleted? || e.AddOutcome? || e.Exit?
  }

  lemma UntimedStep(g: Gun, e: Event, call: nat)
    requires Enabled(g, e)
    ensures Sum(Step(g, e).workers, Untimed(call)) + (if e.AddLatency? && g.workers[e.w].call == call then 1 else 0) ==
            Sum(g.workers, Untimed(call)) + (if e.Send? && g.sent == call then 1 else 0)
  {
    if IsWorkerEvent(e) { SumUpdate(g.workers, e.w, Step(g, e).workers[e.w], Untimed(call)); }
  }

  lemma UncompletedStep(g: Gun, e: Event, call: nat)
    requires Enabled(g, e)
    ensures Sum(Step(g, e).workers, Uncompleted(call)) +
            (if e.AddCompleted? && g.workers[e.w].call == call then 1 else 0) ==
            Sum(g.workers, Uncompleted(call)) + (if e.Send? && g.sent == call then 1 else 0)
  {
    if IsWorkerEvent(e) { SumUpdate(g.workers, e.w, Step(g, e).workers[e.w], Uncompleted(call)); }
  }

  lemma TimingsStep(g: Gun, e: Event, call: nat)
    requires Enabled(g, e)
    ensures Sum(Step(g, e).timings, TimingOf(call)) ==
            Sum(g.timings, TimingOf(call)) + (if e.AddLatency? && g.workers[e.w].call == call then 1 else 0)
  {
    if e.AddLatency? { SumAppend(g.timings, Timing(g.workers[e.w].call, g.workers[e.w].latency), TimingOf(call)); }
  }

  lemma CompletionsStep(g: Gun, e: Event, call: nat)
    requires Enabled(g, e)
    ensures Sum(Step(g, e).completions, CompletionOf(call)) ==
            Sum(g.completions, CompletionOf(call)) + (if e.AddCompleted? && g.workers[e.w].call == call then 1 else 0)
  {
    if e.AddCompleted? {
      SumAppend(g.completions, Completion(g.workers[e.w].call, g.workers[e.w].outcome), CompletionOf(call));
    }
  }

  lemma SentStep(g: Gun, e: Event)
    requires Enabled(g, e)
    ensures Step(g, e).sent == g.sent + (if e.Send? then 1 else 0)
  {
  }

  lemma TimedOnceStep(g: Gun, e: Event, call: nat)
    requires Enabled(g, e)
    requires Sum(g.timings, TimingOf(call)) + Sum(g.workers, Untimed(call)) == if call < g.sent then 1 else 0
    ensures Sum(Step(g, e).timings, TimingOf(call)) + Sum(Step(g, e).workers, Untimed(call)) ==
            if call < Step(g, e).sent then 1 else 0
  {
    UntimedStep(g, e, call);
    TimingsStep(g, e, call);
    SentStep(g, e);
  }

  lemma CompletedOnceStep(g: Gun, e: Event, call: nat)
    requires Enabled(g, e)
    requires Sum(g.completions, CompletionOf(call)) + Sum(g.workers, Uncompleted(call)) ==
             if call < g.sent then 1 else 0
    ensures Sum(Step(g, e).completions, CompletionOf(call)) + Sum(Step(g, e).workers, Uncompleted(call)) ==
            if call < Step(g, e).sent then 1 else 0
  {
    UncompletedStep(g, e, call);
    CompletionsStep(g, e, call);
    SentStep(g, e);
  }

  lemma OnceStep(g: Gun, e: Event)
    requires Enabled(g, e) && OnceInv(g)
    ensures OnceInv(Step(g, e))
  {
    var g' := Step(g, e);
    forall call: nat
      ensures Sum(g'.timings, TimingOf(call)) + Sum(g'.workers, Untimed(call)) == if call < g'.sent then 1 else 0
    {
      assert Sum(g.timings, TimingOf(call)) + Sum(g.workers, Untimed(call)) == if call < g.sent then 1 else 0;
      TimedOnceStep(g, e, call);
    }
    forall call: nat
      ensures Sum(g'.completions, CompletionOf(call)) + Sum(g'.workers, Uncompleted(call)) ==
              if call < g'.sent then 1 else 0
    {
      assert Sum(g.completions, CompletionOf(call)) + Sum(g.workers, Uncompleted(call)) ==
             if call < g.sent then 1 else 0;
      CompletedOnceStep(g, e, call);
    }
  }

  lemma DrainStep(g: Gun, e: Event)
    requires Enabled(g, e) && CountInv(g) && DrainInv(g)
    ensures DrainInv(Step(g, e))
  {
    if e.AddLatency? {
      assert Step(g, e).timings[..g.timingsDrained] == g.timings[..g.timingsDrained];
    } else if e.SwapLatency? {
      assert g.timings[..|g.timings|] == g.timings;
    }
  }

  ghost predicate Inv(g: Gun) { CountInv(g) && DrainInv(g) && LatencyFirst(g) && OnceInv(g) }

  /** Swapping moves a count from the counter to the drained sum; only one operation adds to it. */
  lemma TotalStep(g: Gun, e: Event, o: Outcome)
    requires Enabled(g, e)
    ensures Total(Step(g, e), o) == Total(g, o) + (if e.AddOutcome? && g.workers[e.w].outcome == o then 1 else 0)
  {
  }

  lemma BetweenStep(g: Gun, e: Event, o: Outcome)
    requires Enabled(g, e)
    ensures Sum(Step(g, e).workers, BetweenAdds(o)) + (if e.AddOutcome? && g.workers[e.w].outcome == o then 1 else 0) ==
            Sum(g.workers, BetweenAdds(o)) + (if e.AddCompleted? && g.workers[e.w].outcome == o then 1 else 0)
  {
    if IsWorkerEvent(e) { SumUpdate(g.workers, e.w, Step(g, e).workers[e.w], BetweenAdds(o)); }
  }

  lemma WithOutcomeStep(g: Gun, e: Event, o: Outcome)
    requires Enabled(g, e)
    ensures Sum(Step(g, e).completions, WithOutcome(o)) ==
            Sum(g.completions, WithOutcome(o)) + (if e.AddCompleted? && g.workers[e.w].outcome == o then 1 else 0)
  {
    if e.AddCompleted? {
      SumAppend(g.completions, Completion(g.workers[e.w].call, g.workers[e.w].outcome), WithOutcome(o));
    }
  }

  lemma OutcomeStep(g: Gun, e: Event, o: Outcome)
    requires Enabled(g, e)
    requires Total(g, o) + Sum(g.workers, BetweenAdds(o)) == Sum(g.completions, WithOutcome(o))
    ensures Total(Step(g, e), o) + Sum(Step(g, e).workers, BetweenAdds(o)) ==
            Sum(Step(g, e).completions, WithOutcome(o))
  {
    TotalStep(g, e, o);
    BetweenStep(g, e, o);
    WithOutcomeStep(g, e, o);
  }

  lemma CompletedCountStep(g: Gun, e: Event)
    requires Enabled(g, e) && g.completed + g.completionsDrained == |g.completions|
    requires g.completionsDrained <= |g.completions|
    ensures var g' := Step(g, e);
            g'.completed + g'.completionsDrained == |g'.completions| && g'.completionsDrained <= |g'.completions|
  {
  }

  lemma LatencyCountStep(g: Gun, e: Event)
    requires Enabled(g, e) && g.totalLat + g.latDrained == Sum(g.timings, LatencyOf())
    ensures Step(g, e).totalLat + Step(g, e).latDrained == Sum(Step(g, e).timings, LatencyOf())
  {
    if e.AddLatency? { SumAppend(g.timings, Timing(g.workers[e.w].call, g.workers[e.w].latency), LatencyOf()); }
  }

  lemma CountStep(g: Gun, e: Event)
    requires Enabled(g, e) && CountInv(g)
    ensures CountInv(Step(g, e))
  {
    var g' := Step(g, e);
    CompletedCountStep(g, e);
    LatencyCountStep(g, e);
    forall o ensures Total(g', o) + Sum(g'.workers, BetweenAdds(o)) == Sum(g'.completions, WithOutcome(o)) {
      assert Total(g, o) + Sum(g.workers, BetweenAdds(o)) == Sum(g.completions, WithOutcome(o));
      OutcomeStep(g, e, o);
    }
  }

  lemma TimedAmongMore(timings: seq<Timing>, n: nat, more: seq<Timing>, m: nat, call: nat)
    requires TimedAmong(timings, n, call) && n <= m <= |timings + more|
    ensures TimedAmong(timings + more, m, call)
  {
    var j :| 0 <= j < n <= |timings| && timings[j].call == call;
    assert (timings + more)[j].call == call;
  }

  /** Additions of a latency come before the completion they belong to ... */
  lemma AddLatencyStep(g: Gun, w: nat)
    requires Enabled(g, AddLatency(w)) && LatencyFirst(g)
    ensures LatencyFirst(Step(g, AddLatency(w)))
  {
    var g' := Step(g, AddLatency(w));
    var t := Timing(g.workers[w].call, g.workers[w].latency);
    forall i | 0 <= i < |g'.completions| ensures TimedAmong(g'.timings, |g'.timings|, g'.completions[i].call) {
      TimedAmongMore(g.timings, |g.timings|, [t], |g'.timings|, g.completions[i].call);
    }
    forall v | 0 <= v < |g'.workers| && g'.workers[v].LatencyAdded?
      ensures TimedAmong(g'.timings, |g'.timings|, g'.workers[v].call)
    {
      if v == w {
        assert g'.timings[|g.timings|].call == g'.workers[v].call;
      } else {
        TimedAmongMore(g.timings, |g.timings|, [t], |g'.timings|, g.workers[v].call);
      }
    }
    if Covered(g) {
      forall i | 0 <= i < g'.completionsDrained <= |g'.completions|
        ensures TimedAmong(g'.timings, g'.timingsDrained, g'.completions[i].call)
      {
        TimedAmongMore(g.timings, g.timingsDrained, [t], g.timingsDrained, g.completions[i].call);
      }
    }
  }

  lemma AddCompletedStep(g: Gun, w: nat)
    requires Enabled(g, AddCompleted(w)) && CountInv(g) && LatencyFirst(g)
    ensures LatencyFirst(Step(g, AddCompleted(w)))
  {
    var g' := Step(g, AddCompleted(w));
    forall i | 0 <= i < |g'.completions| ensures TimedAmong(g'.timings, |g'.timings|, g'.completions[i].call) {
      if i < |g.completions| { assert TimedAmong(g.timings, |g.timings|, g.completions[i].call); }
    }
    if Covered(g) {
      forall i | 0 <= i < g'.completionsDrained <= |g'.completions|
        ensures TimedAmong(g'.timings, g'.timingsDrained, g'.completions[i].call)
      {
        assert g.completions[i] == g'.completions[i];
      }
    }
  }

  /** ... and the reporter swaps the completions before the latencies. */
  lemma LatencyFirstStep(g: Gun, e: Event)
    requires Enabled(g, e) && CountInv(g) && LatencyFirst(g)
    ensures LatencyFirst(Step(g, e))
  {
    if e.AddLatency? {
      AddLatencyStep(g, e.w);
    } else if e.AddCompleted? {
      AddCompletedStep(g, e.w);
    }
  }

  lemma InvStep(g: Gun, e: Event)
    requires Enabled(g, e) && Inv(g)
    ensures Inv(Step(g, e)) && |Step(g, e).workers| == |g.workers|
  {
    CountStep(g, e);
    DrainStep(g, e);
    LatencyFirstStep(g, e);
    OnceStep(g, e);
  }

  lemma {:induction false} StartInv(numWorkers: nat)
    ensures Inv(Start(numWorkers))
  {
    var g := Start(numWorkers);
    forall o ensures Sum(g.workers, BetweenAdds(o)) == 0 {
      if 0 < Sum(g.workers, BetweenAdds(o)) { var w := SumWitness(g.workers, BetweenAdds(o)); }
    }
    forall call: nat ensures Sum(g.workers, Untimed(call)) == 0 && Sum(g.workers, Uncompleted(call)) == 0 {
      if 0 < Sum(g.workers, Untimed(call)) { var w := SumWitness(g.workers, Untimed(call)); }
      if 0 < Sum(g.workers, Uncompleted(call)) { var w := SumWitness(g.workers, Uncompleted(call)); }
    }
  }

  lemma {:induction false} RunInv(g: Gun, es: seq<Event>)
    requires Inv(g) && Run(g, es)
    ensures Inv(After(g, es)) && |After(g, es).workers| == |g.workers|
  {
    if es != [] {
      RunInv(g, es[..|es| - 1]);
      InvStep(After(g, es[..|es| - 1]), es[|es| - 1]);
    }
  }

  lemma ReachableInv(numWorkers: nat, g: Gun)
    requires Reachable(numWorkers, g)
    ensures Inv(g) && |g.workers| == numWorkers
  {
    StartInv(numWorkers);
    var es :| Run(Start(numWorkers), es) && After(Start(numWorkers), es) == g;
    RunInv(Start(numWorkers), es);
  }

  // ----- what the counters mean -----------------------------------------------------------

  /** For each outcome, what was counted and drained falls short of the completed calls with that
      outcome by exactly the workers between their two additions. */
  lemma {:induction false} CountersByOutcome(numWorkers: nat, g: Gun, o: Outcome)
    requires Reachable(numWorkers, g)
    ensures Total(g, o) + Sum(g.workers, BetweenAdds(o)) == Sum(g.completions, WithOutcome(o))
  {
    ReachableInv(numWorkers, g);
  }

  lemma {:induction false} OutcomesAddUp(cs: seq<Completion>)
    ensures Sum(cs, WithOutcome(Placed)) + Sum(cs, WithOutcome(Refused)) + Sum(cs, WithOutcome(TransportError)) == |cs|
  {
    if cs != [] { OutcomesAddUp(cs[..|cs| - 1]); }
  }

  lemma {:induction false} BetweenAddUp(ps: seq<Phase>)
    ensures Sum(ps, BetweenAdds(Placed)) + Sum(ps, BetweenAdds(Refused)) + Sum(ps, BetweenAdds(TransportError)) ==
            Sum(ps, IsCounted())
    ensures Sum(ps, IsCounted()) <= |ps|
  {
    if ps != [] { BetweenAddUp(ps[..|ps| - 1]); }
  }

  /** Completed, drained or not, exceeds the three outcomes by the workers in between: a gap of at
      most the number of workers, and none once all of them have exited. */
  lemma {:induction false} CompletedGap(numWorkers: nat, g: Gun)
    requires Reachable(numWorkers, g)
    ensures g.completed + g.completionsDrained ==
            Total(g, Placed) + Total(g, Refused) + Total(g, TransportError) + Sum(g.workers, IsCounted())
    ensures Sum(g.workers, IsCounted()) <= numWorkers
    ensures (forall w | 0 <= w < |g.workers| :: g.workers[w].Exited?) ==> Sum(g.workers, IsCounted()) == 0
  {
    ReachableInv(numWorkers, g);
    assert forall o :: Total(g, o) + Sum(g.workers, BetweenAdds(o)) == Sum(g.completions, WithOutcome(o));
    OutcomesAddUp(g.completions);
    BetweenAddUp(g.workers);
    if 0 < Sum(g.workers, IsCounted()) { var w := SumWitness(g.workers, IsCounted()); }
  }

  /** Latencies are never lost, and between two reports every completion that has been reported
      has had its own latency reported too. */
  lemma {:induction false} LatencyCoverage(numWorkers: nat, g: Gun)
    requires Reachable(numWorkers, g)
    ensures g.latDrained + g.totalLat == Sum(g.timings, LatencyOf())
    ensures g.timingsDrained <= |g.timings| && g.latDrained == Sum(g.timings[..g.timingsDrained], LatencyOf())
    ensures g.reporter.Waiting? ==> Covered(g)
    ensures forall call: nat :: Sum(g.timings, TimingOf(call)) <= 1 && Sum(g.completions, CompletionOf(call)) <= 1
  {
    ReachableInv(numWorkers, g);
    forall call: nat ensures Sum(g.timings, TimingOf(call)) <= 1 && Sum(g.completions, CompletionOf(call)) <= 1 {
      assert Sum(g.timings, TimingOf(call)) + Sum(g.workers, Untimed(call)) == if call < g.sent then 1 else 0;
    }
  }

  /** Once every worker has exited, each call that was sent has been counted in full. */
  lemma {:induction false} AllCallsCounted(numWorkers: nat, g: Gun, call: nat)
    requires Reachable(numWorkers, g) && forall w | 0 <= w < |g.workers| :: g.workers[w].Exited?
    requires call < g.sent
    ensures Sum(g.timings, TimingOf(call)) == 1 && Sum(g.completions, CompletionOf(call)) == 1
  {
    ReachableInv(numWorkers, g);
    if 0 < Sum(g.workers, Untimed(call)) { var w := SumWitness(g.workers, Untimed(call)); }
    if 0 < Sum(g.workers, Uncompleted(call)) { var w := SumWitness(g.workers, Uncompleted(call)); }
    assert Sum(g.timings, TimingOf(call)) + Sum(g.workers, Untimed(call)) == 1;
  }

  // ----- the end of Fire ------------------------------------------------------------------

  /** The operations a worker has before it until it notices the cancelled context. */
  ghost function ToExit(): Phase -> nat {
    (p: Phase) =>
      match p
      case Calling(_) => 5
      case Timed(_, _, _) => 4
      case LatencyAdded(_, _) => 3
      case Counted(_) => 2
      case LoopHead => 1
      case Exited => 0
  }

  ghost function OfWorker(): Event -> nat { (e: Event) => if IsWorkerEvent(e) then 1 else 0 }

  lemma ToExitStep(g: Gun, e: Event)
    requires Enabled(g, e) && g.cancelled
    ensures Step(g, e).cancelled
    ensures Sum(Step(g, e).workers, ToExit()) + OfWorker()(e) == Sum(g.workers, ToExit())
  {
    if IsWorkerEvent(e) { SumUpdate(g.workers, e.w, Step(g, e).workers[e.w], ToExit()); }
  }

  /** Once the context is cancelled the workers do exactly the operations they have before them, a
      call under way included, and a worker that has not exited can always go on: the wait of Fire
      ends, with every worker exited. */
  lemma {:induction false} FireEnds(g: Gun, es: seq<Event>)
    requires Run(g, es) && g.cancelled
    ensures After(g, es).cancelled
    ensures Sum(es, OfWorker()) + Sum(After(g, es).workers, ToExit()) == Sum(g.workers, ToExit())
    ensures (forall e | Enabled(After(g, es), e) :: !IsWorkerEvent(e)) ==>
              forall w | 0 <= w < |After(g, es).workers| :: After(g, es).workers[w].Exited?
  {
    if es != [] {
      FireEnds(g, es[..|es| - 1]);
      ToExitStep(After(g, es[..|es| - 1]), es[|es| - 1]);
    }
    var t := After(g, es);
    if forall e | Enabled(t, e) :: !IsWorkerEvent(e) {
      forall w: nat | w < |t.workers| ensures t.workers[w].Exited? {
        if !t.workers[w].Exited? { var e := WorkerCanGoOn(t, w); }
      }
    }
  }

  lemma WorkerCanGoOn(g: Gun, w: nat) returns (e: Event)
    requires g.cancelled && w < |g.workers| && !g.workers[w].Exited?
    ensures Enabled(g, e) && IsWorkerEvent(e)
  {
    match g.workers[w]
    case LoopHead => e := Exit(w);
    case Calling(_) => e := Return(w, TransportError, 0);
    case Timed(_, _, _) => e := AddLatency(w);
    case LatencyAdded(_, _) => e := AddCompleted(w);
    case Counted(_) => e := AddOutcome(w);
  }

  /** The reporter can stop between two ticks once the context is cancelled, and then swaps no more. */
  lemma {:induction false} ReporterEnds(g: Gun, es: seq<Event>)
    requires g.reporter.Waiting? && g.cancelled && Enabled(g, StopReport) && Run(Step(g, StopReport), es)
    ensures var t := After(Step(g, StopReport), es);
            && t.reporter.ReporterStopped? && t.completionsDrained == g.completionsDrained
            && t.latDrained == g.latDrained && t.successDrained == g.successDrained
            && t.rejectedDrained == g.rejectedDrained && t.failedDrained == g.failedDrained
  {
    if es != [] { ReporterEnds(g, es[..|es| - 1]); }
  }

  /** Until then it can be cancelled at any time, and any call can return with any outcome. */
  lemma EveryOutcomeIsPossible(g: Gun, w: nat, outcome: Outcome, latency: nat)
    ensures !g.cancelled ==> Enabled(g, CancelContext) && Step(g, CancelContext).cancelled
    ensures w < |g.workers| && g.workers[w].Calling? ==> Enabled(g, Return(w, outcome, latency))
    ensures w < |g.workers| && g.workers[w].LoopHead? && !g.cancelled ==> Enabled(g, Send(w))
    ensures g.reporter.Waiting? ==> Enabled(g, SwapCompleted) && (g.cancelled ==> Enabled(g, StopReport))
  {
  }
}
