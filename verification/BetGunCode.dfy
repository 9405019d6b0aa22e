/** `sendOne`, `worker` and one tick of `report`, operation by operation, while the other goroutines
    keep working on the same counters in between. The ghost trace records the events of BetGun. */
module BetGunCode {
  import opened BetGun

  /** Events of goroutines other than `w`, which is a worker or, as the number of workers, the reporter. */
  predicate Foreign(numWorkers: nat, w: nat, e: Event) {
    match e
    case Send(v) => v != w
    case Return(v, _, _) => v != w
    case AddLatency(v) => v != w
    case AddCompleted(v) => v != w
    case AddOutcome(v) => v != w
    case Exit(v) => v != w
    case CancelContext => true
    case _ => w != numWorkers
  }

  /** An event has its turn: it happens if it is another goroutine's and can happen now. */
  ghost function Turn(g: Gun, e: Event, w: nat): Gun {
    if Foreign(|g.workers|, w, e) && Enabled(g, e) then Step(g, e) else g
  }

  /** The state after all events of a schedule have had their turn, one after the other. */
  ghost function Interleaved(g: Gun, schedule: seq<Event>, w: nat): Gun {
    if schedule == [] then g else Turn(Interleaved(g, schedule[..|schedule| - 1], w), schedule[|schedule| - 1], w)
  }

  lemma InterleavedNext(g: Gun, schedule: seq<Event>, i: nat, w: nat)
    requires i < |schedule|
    ensures Interleaved(g, schedule[..i + 1], w) == Turn(Interleaved(g, schedule[..i], w), schedule[i], w)
  {
    assert schedule[..i + 1][..i] == schedule[..i];
  }

  /** Whatever the other goroutines can do between two operations, there is a schedule for it. */
  lemma {:induction false} SchedulesCoverRuns(g: Gun, es: seq<Event>, w: nat)
    requires Run(g, es) && forall i | 0 <= i < |es| :: Foreign(|g.workers|, w, es[i])
    ensures Interleaved(g, es, w) == After(g, es) && |After(g, es).workers| == |g.workers|
  {
    if es != [] {
      SchedulesCoverRuns(g, es[..|es| - 1], w);
      ForeignLeaves(After(g, es[..|es| - 1]), es[|es| - 1], w);
    }
  }

  lemma ForeignLeaves(g: Gun, e: Event, w: nat)
    requires Enabled(g, e) && Foreign(|g.workers|, w, e)
    ensures var g' := Step(g, e);
            && |g'.workers| == |g.workers| && g.timings <= g'.timings && g.completions <= g'.completions
            && g.sent <= g'.sent
            && (w < |g.workers| ==> g'.workers[w] == g.workers[w])
            && (w == |g.workers| ==>
                  && g'.reporter == g.reporter && g'.completionsDrained == g.completionsDrained
                  && g'.latDrained == g.latDrained && g'.successDrained == g.successDrained
                  && g'.rejectedDrained == g.rejectedDrained && g'.failedDrained == g.failedDrained)
  {
  }

  class Generator {
    var success: nat
    var rejected: nat
    var failed: nat
    var completed: nat
    var totalLat: nat
    /** Where the goroutines are, and the history; its own counter fields are not looked at. */
    var world: Gun
    ghost const numWorkers: nat
    ghost var trace: seq<Event>

    function View(): Gun
      reads this
    {
      world.(success := success, rejected := rejected, failed := failed, completed := completed, totalLat := totalLat)
    }

    ghost predicate Valid()
      reads this
    {
      Run(Start(numWorkers), trace) && After(Start(numWorkers), trace) == View()
    }

    /** `Fire` up to the point where all goroutines have been launched. */
    constructor (numWorkers: nat)
      ensures Valid() && this.numWorkers == numWorkers && View() == Start(numWorkers)
    {
      success, rejected, failed, completed, totalLat := 0, 0, 0, 0, 0;
      world := Start(numWorkers);
      this.numWorkers := numWorkers;
      trace := [];
    }

    ghost method Record(before: Gun, e: Event)
      requires Run(Start(numWorkers), trace) && After(Start(numWorkers), trace) == before
      requires Enabled(before, e) && Step(before, e) == View()
      modifies this`trace
      ensures Valid() && trace == old(trace) + [e]
    {
      RunGoesOn(Start(numWorkers), trace, e);
      trace := trace + [e];
    }

    /** An event that touches no counter: a goroutine moves on. */
    method Advance(e: Event)
      requires Valid() && Enabled(View(), e) && (e.Send? || e.Return? || e.Exit? || e.CancelContext?)
      modifies this`world, this`trace
      ensures Valid() && View() == Step(old(View()), e) && trace == old(trace) + [e]
    {
      ghost var before := View();
      world := Step(View(), e);
      Record(before, e);
    }

    method AddTotalLat(w: nat, latency: nat)
      requires Valid() && Enabled(View(), AddLatency(w)) && world.workers[w].latency == latency
      modifies this`totalLat, this`world, this`trace
      ensures Valid() && View() == Step(old(View()), AddLatency(w)) && trace == old(trace) + [AddLatency(w)]
    {
      ghost var before := View();
      world := Step(View(), AddLatency(w));
      totalLat := totalLat + latency;
      Record(before, AddLatency(w));
    }

    method AddCompletedOne(w: nat)
      requires Valid() && Enabled(View(), AddCompleted(w))
      modifies this`completed, this`world, this`trace
      ensures Valid() && View() == Step(old(View()), AddCompleted(w)) && trace == old(trace) + [AddCompleted(w)]
    {
      ghost var before := View();
      world := Step(View(), AddCompleted(w));
      completed := completed + 1;
      Record(before, AddCompleted(w));
    }

    method AddOutcomeOne(w: nat, outcome: Outcome)
      requires Valid() && Enabled(View(), AddOutcome(w)) && world.workers[w].outcome == outcome
      modifies this`success, this`rejected, this`failed, this`world, this`trace
      ensures Valid() && View() == Step(old(View()), AddOutcome(w)) && trace == old(trace) + [AddOutcome(w)]
    {
      ghost var before := View();
      world := Step(View(), AddOutcome(w));
      match outcome {
        case TransportError => failed := failed + 1;
        case Placed => success := success + 1;
        case Refused => rejected := rejected + 1;
      }
      Record(before, AddOutcome(w));
    }

    /** One swap of the reporter; the result is the value swapped out. */
    method Swap(e: Event) returns (value: nat)
      requires Valid() && Enabled(View(), e)
      requires e.SwapCompleted? || e.SwapLatency? || e.SwapSuccess? || e.SwapRejected? || e.SwapFailed?
      modifies this
      ensures Valid() && View() == Step(old(View()), e) && trace == old(trace) + [e]
      ensures value == match e
                       case SwapCompleted => old(completed)
                       case SwapLatency => if old(world.reporter.comp) > 0 then old(totalLat) else 0
                       case SwapSuccess => old(success)
                       case SwapRejected => old(rejected)
                       case _ => old(failed)
    {
      ghost var before := View();
      var next := Step(View(), e);
      match e {
        case SwapCompleted => value, completed := completed, 0;
        case SwapLatency =>
          value := 0;
          if world.reporter.comp > 0 { value, totalLat := totalLat, 0; }
        case SwapSuccess => value, success := success, 0;
        case SwapRejected => value, rejected := rejected, 0;
        case SwapFailed => value, failed := failed, 0;
      }
      world := next;
      Record(before, e);
    }

    // ----- the other goroutines -----------------------------------------------------------

    /** What no event of another goroutine takes away. */
    twostate predicate Keeps()
      reads this
    {
      && |old(world.workers)| == |world.workers|
      && old(world.timings) <= world.timings && old(world.completions) <= world.completions
      && old(world.sent) <= world.sent && old(trace) <= trace
    }

    /** Nothing has been swapped out. */
    twostate predicate NothingDrained()
      reads this
    {
      && world.completionsDrained == old(world.completionsDrained) && world.latDrained == old(world.latDrained)
      && world.successDrained == old(world.successDrained) && world.rejectedDrained == old(world.rejectedDrained)
      && world.failedDrained == old(world.failedDrained)
    }

    /** Any events of the goroutines other than `w`, a worker or, as |workers|, the reporter: those
        of the schedule that can happen when their turn comes. */
    method Others(w: nat, schedule: seq<Event>)
      requires Valid()
      modifies this
      ensures Valid() && Keeps()
      ensures w < |world.workers| ==> world.workers[w] == old(world.workers[w])
      ensures w == |world.workers| ==> world.reporter == old(world.reporter) && NothingDrained()
      ensures View() == Interleaved(old(View()), schedule, w)
      ensures schedule == [] ==> View() == old(View())
    {
      for i := 0 to |schedule|
        invariant Valid() && Keeps()
        invariant w < |world.workers| ==> world.workers[w] == old(world.workers[w])
        invariant w == |world.workers| ==> world.reporter == old(world.reporter) && NothingDrained()
        invariant View() == Interleaved(old(View()), schedule[..i], w)
      {
        if Enabled(View(), schedule[i]) && Foreign(|world.workers|, w, schedule[i]) { Other(w, schedule[i]); }
        InterleavedNext(old(View()), schedule, i, w);
      }
      assert schedule[..|schedule|] == schedule;
    }

    method Other(w: nat, e: Event)
      requires Valid() && Enabled(View(), e) && Foreign(|world.workers|, w, e)
      modifies this
      ensures Valid() && Keeps() && View() == old(Step(View(), e))
      ensures w < |world.workers| ==> world.workers[w] == old(world.workers[w])
      ensures w == |world.workers| ==> world.reporter == old(world.reporter) && NothingDrained()
    {
      ghost var before := View();
      ForeignLeaves(before, e, w);
      world := Step(View(), e);
      success, rejected, failed, completed, totalLat :=
        world.success, world.rejected, world.failed, world.completed, world.totalLat;
      Record(before, e);
    }

    // ----- the code -----------------------------------------------------------------------

    /** One call, timed and counted: whatever the others do in between, it ends up exactly where
        its outcome says; and alone it adds its latency and one to each of two counters. */
    method SendOne(w: nat, outcome: Outcome, latency: nat, others: nat -> seq<Event>)
      requires Valid() && Enabled(View(), Send(w))
      modifies this
      ensures Valid() && Keeps() && w < |world.workers| && world.workers[w].LoopHead?
      ensures Timing(old(world.sent), latency) in world.timings
      ensures Completion(old(world.sent), outcome) in world.completions
      ensures (forall gap :: others(gap) == []) ==>
                && totalLat == old(totalLat) + latency && completed == old(completed) + 1
                && success == old(success) + (if outcome == Placed then 1 else 0)
                && rejected == old(rejected) + (if outcome == Refused then 1 else 0)
                && failed == old(failed) + (if outcome == TransportError then 1 else 0)
    {
      AwaitReply(w, outcome, latency, others);
      CountLatency(w, latency, others(2));
      CountOutcome(w, outcome, others(3));
    }

    /** The call itself, and reading the clock. */
    method AwaitReply(w: nat, outcome: Outcome, latency: nat, others: nat -> seq<Event>)
      requires Valid() && Enabled(View(), Send(w))
      modifies this
      ensures Valid() && Keeps() && w < |world.workers| && world.workers[w] == Timed(old(world.sent), outcome, latency)
      ensures (forall gap :: others(gap) == []) ==>
                && totalLat == old(totalLat) && completed == old(completed)
                && success == old(success) && rejected == old(rejected) && failed == old(failed)
    {
      Advance(Send(w));
      Others(w, others(0));
      Advance(Return(w, outcome, latency));
      Others(w, others(1));
    }

    method CountLatency(w: nat, latency: nat, others: seq<Event>)
      requires Valid() && Enabled(View(), AddLatency(w)) && world.workers[w].latency == latency
      modifies this
      ensures Valid() && Keeps() && w < |world.workers|
      ensures world.workers[w] == LatencyAdded(old(world.workers[w].call), old(world.workers[w].outcome))
      ensures Timing(old(world.workers[w].call), latency) in world.timings
      ensures others == [] ==> View() == Step(old(View()), AddLatency(w))
    {
      AddTotalLat(w, latency);
      assert world.timings[|old(world.timings)|] == Timing(old(world.workers[w].call), latency);
      Others(w, others);
    }

    method CountOutcome(w: nat, outcome: Outcome, others: seq<Event>)
      requires Valid() && Enabled(View(), AddCompleted(w)) && world.workers[w].outcome == outcome
      modifies this
      ensures Valid() && Keeps() && w < |world.workers| && world.workers[w].LoopHead?
      ensures Completion(old(world.workers[w].call), outcome) in world.completions
      ensures others == [] ==>
                && completed == old(completed) + 1 && totalLat == old(totalLat)
                && success == old(success) + (if outcome == Placed then 1 else 0)
                && rejected == old(rejected) + (if outcome == Refused then 1 else 0)
                && failed == old(failed) + (if outcome == TransportError then 1 else 0)
    {
      AddCompletedOne(w);
      assert world.completions[|old(world.completions)|] == Completion(old(world.workers[w].call), outcome);
      Others(w, others);
      AddOutcomeOne(w, outcome);
    }

    /** The two swaps behind the average latency, completions first. */
    method DrainLatency(others: seq<Event>) returns (comp: nat, lat: nat)
      requires Valid() && world.reporter.Waiting?
      modifies this
      ensures Valid() && Keeps() && world.reporter.LatencySwapped?
      ensures comp == world.completionsDrained - old(world.completionsDrained)
      ensures lat == world.latDrained - old(world.latDrained) && (comp == 0 ==> lat == 0)
      ensures world.successDrained == old(world.successDrained) && world.rejectedDrained == old(world.rejectedDrained)
      ensures world.failedDrained == old(world.failedDrained)
      ensures others == [] ==>
                && success == old(success) && rejected == old(rejected) && failed == old(failed) && completed == 0
                && totalLat == (if old(completed) > 0 then 0 else old(totalLat))
                && comp == old(completed) && lat == (if old(completed) > 0 then old(totalLat) else 0)
    {
      CompletionsAddUp();
      comp := Swap(SwapCompleted);
      Others(|world.workers|, others);
      lat := Swap(SwapLatency);
    }

    lemma CompletionsAddUp()
      requires Valid()
      ensures completed + world.completionsDrained == |world.completions|
    {
      ReachableInv(numWorkers, View());
    }

    /** `avgMs` milliseconds a call make up `lat` nanoseconds for `comp` calls. */
    ghost predicate IsAverage(avgMs: real, lat: int, comp: int) {
      if comp == 0 then avgMs == 0.0 else avgMs * comp as real * 1000000.0 == lat as real
    }

    method Average(lat: nat, comp: nat) returns (avgMs: real)
      ensures IsAverage(avgMs, lat, comp)
    {
      avgMs := 0.0;
      if comp > 0 {
        avgMs := lat as real / comp as real / 1000000.0;
        Undo(lat as real, comp as real, 1000000.0);
      }
    }

    lemma Undo(x: real, y: real, z: real)
      requires y > 0.0 && z > 0.0
      ensures x / y / z * y * z == x
    {
      var q := x / y;
      var r := q / z;
      assert r * z == q && q * y == x;
      assert r * y * z == (r * z) * y;
    }

    /** The three swaps among the arguments of the log line, from left to right. */
    method DrainOutcomes(others: seq<Event>, others': seq<Event>) returns (placed: nat, refused: nat, errors: nat)
      requires Valid() && world.reporter.LatencySwapped?
      modifies this
      ensures Valid() && Keeps() && world.reporter.Waiting?
      ensures others == [] && others' == [] ==>
                && placed == old(success) && refused == old(rejected) && errors == old(failed)
                && success == rejected == failed == 0 && completed == old(completed) && totalLat == old(totalLat)
      ensures placed == world.successDrained - old(world.successDrained)
      ensures refused == world.rejectedDrained - old(world.rejectedDrained)
      ensures errors == world.failedDrained - old(world.failedDrained)
      ensures world.completionsDrained == old(world.completionsDrained) && world.latDrained == old(world.latDrained)
    {
      placed := Swap(SwapSuccess);
      Others(|world.workers|, others);
      refused := Swap(SwapRejected);
      Others(|world.workers|, others');
      errors := Swap(SwapFailed);
    }

    /** One tick of the reporter. At its end every reported completion has its latency reported;
        alone, the tick reports what was there and leaves zeros, except that latencies without a
        completion stay for the next tick. */
    method ReportTick(others: nat -> seq<Event>) returns (placed: nat, refused: nat, errors: nat, avgMs: real)
      requires Valid() && world.reporter.Waiting?
      modifies this
      ensures Valid() && Keeps() && world.reporter.Waiting? && Covered(View())
      ensures (forall gap :: others(gap) == []) ==>
                && placed == old(success) && refused == old(rejected) && errors == old(failed)
                && success == rejected == failed == completed == 0
                && totalLat == (if old(completed) > 0 then 0 else old(totalLat))
                && IsAverage(avgMs, old(totalLat), old(completed))
      ensures placed == world.successDrained - old(world.successDrained)
      ensures refused == world.rejectedDrained - old(world.rejectedDrained)
      ensures errors == world.failedDrained - old(world.failedDrained)
      ensures var comp := world.completionsDrained - old(world.completionsDrained);
              var lat := world.latDrained - old(world.latDrained);
              && comp >= 0 && lat >= 0 && (comp == 0 ==> lat == 0)
              && IsAverage(avgMs, lat, comp)
    {
      var comp, lat;
      comp, lat, placed, refused, errors := DrainAll(others);
      avgMs := Average(lat, comp);
    }

    method DrainAll(others: nat -> seq<Event>) returns (comp: nat, lat: nat, placed: nat, refused: nat, errors: nat)
      requires Valid() && world.reporter.Waiting?
      modifies this
      ensures Valid() && Keeps() && world.reporter.Waiting? && Covered(View())
      ensures comp == world.completionsDrained - old(world.completionsDrained)
      ensures lat == world.latDrained - old(world.latDrained) && (comp == 0 ==> lat == 0)
      ensures placed == world.successDrained - old(world.successDrained)
      ensures refused == world.rejectedDrained - old(world.rejectedDrained)
      ensures errors == world.failedDrained - old(world.failedDrained)
      ensures (forall gap :: others(gap) == []) ==>
                && placed == old(success) && refused == old(rejected) && errors == old(failed)
                && success == rejected == failed == completed == 0
                && totalLat == (if old(completed) > 0 then 0 else old(totalLat))
                && comp == old(completed) && lat == (if old(completed) > 0 then old(totalLat) else 0)
    {
      comp, lat := DrainLatency(others(0));
      Others(|world.workers|, others(1));
      placed, refused, errors := DrainOutcomes(others(2), others(3));
      CoveredWhenWaiting();
    }

    lemma CoveredWhenWaiting()
      requires Valid() && world.reporter.Waiting?
      ensures Covered(View())
    {
      LatencyCoverage(numWorkers, View());
    }
  }
}
