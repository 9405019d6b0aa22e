/** The monitor inside PostgresConnectionPool: any number of workers borrow from one FIFO queue of
    connections, guarded by a mutex and a condition variable. Every worker is at one point of
    `acquire`, of the code that uses the connection, or of `release`; each event is one atomic
    action of one worker. */
module PoolMonitor {
  import opened Wrappers
  import opened Sums

  datatype Connection = Connection(id: nat)

  datatype Phase =
    | Outside                         // not using the pool
    | Entering                        // acquire: wants the mutex for the first time
    | Testing                         // acquire: owns the mutex, about to evaluate the predicate
    | Sleeping                        // acquire: in the wait set
    | Woken                           // acquire: left the wait set, wants the mutex back
    | Taken(conn: Connection)         // acquire: owns the mutex, popped the front of the queue
    | Holding(conn: Connection)       // acquire has returned
    | Releasing(conn: Connection)     // release: wants the mutex
    | Pushing(conn: Connection)       // release: owns the mutex, about to push
    | Notifying                       // release: owns the mutex, about to notify
    | Leaving                         // release: owns the mutex, about to unlock

  datatype Monitor = Monitor(owner: Option<nat>, free: seq<Connection>, phase: seq<Phase>)

  /** `Wake` is a spurious wakeup; every other event is an action of worker `w` itself.
      `Lock` makes no difference between new acquirers, woken waiters and releasers: barging. */
  datatype Event =
    | Enter(w: nat)
    | Lock(w: nat)
    | Test(w: nat)
    | Unlock(w: nat)
    | Return(w: nat)
    | Push(w: nat)
    | Notify(w: nat, target: Option<nat>)
    | Wake(w: nat)

  predicate Enabled(m: Monitor, e: Event) {
    && e.w < |m.phase|
    && var p := m.phase[e.w];
       match e
       case Enter(_) => p.Outside?
       case Lock(_) => m.owner.None? && (p.Entering? || p.Woken? || p.Releasing?)
       case Test(_) => p.Testing?
       case Unlock(_) => p.Taken? || p.Leaving?
       case Return(_) => p.Holding?
       case Push(_) => p.Pushing?
       case Notify(_, Some(t)) => p.Notifying? && t < |m.phase| && m.phase[t].Sleeping?
       case Notify(_, None) => p.Notifying? && forall t | 0 <= t < |m.phase| :: !m.phase[t].Sleeping?
       case Wake(_) => p.Sleeping?
  }

  function Step(m: Monitor, e: Event): Monitor
    requires Enabled(m, e)
  {
    var p := m.phase[e.w];
    match e
    case Enter(w) => m.(phase := m.phase[w := Entering])
    case Lock(w) => m.(owner := Some(w), phase := m.phase[w := if p.Releasing? then Pushing(p.conn) else Testing])
    case Test(w) =>
      if m.free == [] then m.(owner := None, phase := m.phase[w := Sleeping])
      else m.(free := m.free[1..], phase := m.phase[w := Taken(m.free[0])])
    case Unlock(w) => m.(owner := None, phase := m.phase[w := if p.Taken? then Holding(p.conn) else Outside])
    case Return(w) => m.(phase := m.phase[w := Releasing(p.conn)])
    case Push(w) => m.(free := m.free + [p.conn], phase := m.phase[w := Notifying])
    case Notify(w, None) => m.(phase := m.phase[w := Leaving])
    case Notify(w, Some(t)) => m.(phase := m.phase[w := Leaving][t := Woken])
    case Wake(w) => m.(phase := m.phase[w := Woken])
  }

  /** The pool right after its constructor: all connections queued, nobody inside. */
  ghost predicate Initial(m: Monitor) {
    m.owner == None && forall w | 0 <= w < |m.phase| :: m.phase[w].Outside?
  }

  // ----- the inductive invariant ----------------------------------------------------------

  ghost predicate InCritical(p: Phase) {
    p.Testing? || p.Taken? || p.Pushing? || p.Notifying? || p.Leaving?
  }

  /** The mutex is owned by exactly the worker that is inside a critical section. */
  ghost predicate MutexInv(m: Monitor) {
    && (m.owner.Some? ==> m.owner.value < |m.phase|)
    && forall w | 0 <= w < |m.phase| :: InCritical(m.phase[w]) <==> m.owner == Some(w)
  }

  ghost function ConnOf(p: Phase): multiset<Connection> {
    if p.Taken? || p.Holding? || p.Releasing? || p.Pushing? then multiset{p.conn} else multiset{}
  }

  /** All connections that are in some worker's hands. */
  ghost function Held(ps: seq<Phase>): multiset<Connection> {
    if ps == [] then multiset{} else Held(ps[..|ps| - 1]) + ConnOf(ps[|ps| - 1])
  }

  ghost function Connections(m: Monitor): multiset<Connection> { multiset(m.free) + Held(m.phase) }

  /** Queued and held connections together are a permutation of the connections `all`. */
  ghost predicate ConservationInv(m: Monitor, all: multiset<Connection>) {
    Connections(m) == all
  }

  ghost function IsSleeping(): Phase -> nat { (p: Phase) => if p.Sleeping? then 1 else 0 }

  ghost function IsWoken(): Phase -> nat { (p: Phase) => if p.Woken? then 1 else 0 }

  /** Workers that will look at the queue, or hand a wakeup on, before the mutex is free again. */
  ghost function Credit(): Phase -> nat { (p: Phase) => if p.Woken? || p.Testing? || p.Notifying? then 1 else 0 }

  /** While somebody sleeps, every queued connection is matched by a worker about to look. */
  ghost predicate WakeupInv(m: Monitor) {
    0 < Sum(m.phase, IsSleeping()) ==> |m.free| <= Sum(m.phase, Credit())
  }

  ghost predicate Inv(m: Monitor, all: multiset<Connection>) {
    MutexInv(m) && ConservationInv(m, all) && WakeupInv(m)
  }

  lemma {:induction false} HeldConcat(ps: seq<Phase>, qs: seq<Phase>)
    ensures Held(ps + qs) == Held(ps) + Held(qs)
  {
    if qs == [] {
      assert ps + qs == ps;
    } else {
      assert (ps + qs)[..|ps + qs| - 1] == ps + qs[..|qs| - 1];
      HeldConcat(ps, qs[..|qs| - 1]);
    }
  }

  lemma {:induction false} HeldOne(p: Phase)
    ensures Held([p]) == ConnOf(p)
  {
    assert [p][..0] == [];
  }

  lemma HeldAround(before: seq<Phase>, p: Phase, after: seq<Phase>)
    ensures Held(before + [p] + after) == Held(before) + ConnOf(p) + Held(after)
  {
    HeldOne(p);
    HeldConcat(before, [p]);
    HeldConcat(before + [p], after);
  }

  lemma Split(ps: seq<Phase>, w: nat, p: Phase)
    requires w < |ps|
    ensures ps[w := p] == ps[..w] + [p] + ps[w + 1..]
    ensures p == ps[w] ==> ps[w := p] == ps
  {
  }

  lemma HeldSplit(ps: seq<Phase>, w: nat, p: Phase)
    requires w < |ps|
    ensures Held(ps[w := p]) == Held(ps[..w]) + ConnOf(p) + Held(ps[w + 1..])
  {
    Split(ps, w, p);
    HeldAround(ps[..w], p, ps[w + 1..]);
  }

  lemma HeldUpdate(ps: seq<Phase>, w: nat, p: Phase)
    requires w < |ps|
    ensures ConnOf(ps[w]) <= Held(ps)
    ensures Held(ps[w := p]) + ConnOf(ps[w]) == Held(ps) + ConnOf(p)
  {
    HeldSplit(ps, w, p);
    Split(ps, w, ps[w]);
    HeldAround(ps[..w], ps[w], ps[w + 1..]);
    Regroup(Held(ps[..w]), ConnOf(ps[w]), Held(ps[w + 1..]), ConnOf(p));
  }

  lemma Regroup(a: multiset<Connection>, x: multiset<Connection>, b: multiset<Connection>, y: multiset<Connection>)
    ensures x <= a + x + b && (a + y + b) + x == (a + x + b) + y
  {
  }

  ghost predicate EmptyHanded(p: Phase) { ConnOf(p) == multiset{} }

  lemma {:induction false} HeldNone(ps: seq<Phase>)
    requires forall w | 0 <= w < |ps| :: EmptyHanded(ps[w])
    ensures Held(ps) == multiset{}
  {
    if ps != [] { HeldNone(ps[..|ps| - 1]); }
  }

  lemma {:induction false} HeldBound(ps: seq<Phase>)
    ensures |Held(ps)| <= |ps|
  {
    if ps != [] { HeldBound(ps[..|ps| - 1]); }
  }

  lemma {:induction false} InitialInv(m: Monitor)
    requires Initial(m)
    ensures Inv(m, multiset(m.free))
  {
    HeldNone(m.phase);
    SleepingCount(m);
  }

  lemma MutexStep(m: Monitor, e: Event)
    requires Enabled(m, e) && MutexInv(m)
    ensures MutexInv(Step(m, e))
  {
    assert InCritical(m.phase[e.w]) <==> m.owner == Some(e.w);
  }

  lemma HeldSame(ps: seq<Phase>, w: nat, p: Phase)
    requires w < |ps| && ConnOf(ps[w]) == ConnOf(p)
    ensures Held(ps[w := p]) == Held(ps)
  {
    HeldSplit(ps, w, p);
    HeldSplit(ps, w, ps[w]);
    assert ps[w := ps[w]] == ps;
  }

  lemma TakeConserves(m: Monitor, w: nat)
    requires w < |m.phase| && m.phase[w].Testing? && m.free != []
    ensures multiset(m.free[1..]) + Held(m.phase[w := Taken(m.free[0])]) == multiset(m.free) + Held(m.phase)
  {
    var c, h := multiset{m.free[0]}, Held(m.phase);
    HeldUpdate(m.phase, w, Taken(m.free[0]));
    assert Held(m.phase[w := Taken(m.free[0])]) == h + c;
    assert m.free == [m.free[0]] + m.free[1..];
    assert multiset(m.free) == c + multiset(m.free[1..]);
  }

  lemma PushConserves(m: Monitor, w: nat)
    requires w < |m.phase| && m.phase[w].Pushing?
    ensures multiset(m.free + [m.phase[w].conn]) + Held(m.phase[w := Notifying]) == multiset(m.free) + Held(m.phase)
  {
    var c, h := multiset{m.phase[w].conn}, Held(m.phase);
    HeldUpdate(m.phase, w, Notifying);
    assert Held(m.phase[w := Notifying]) + c == h;
    assert multiset(m.free + [m.phase[w].conn]) == multiset(m.free) + c;
  }

  lemma TestConserves(m: Monitor, w: nat)
    requires Enabled(m, Test(w))
    ensures Connections(Step(m, Test(w))) == Connections(m)
  {
    if m.free == [] { HeldSame(m.phase, w, Sleeping); } else { TakeConserves(m, w); }
  }

  lemma NotifyConserves(m: Monitor, w: nat, target: Option<nat>)
    requires Enabled(m, Notify(w, target))
    ensures Connections(Step(m, Notify(w, target))) == Connections(m)
  {
    HeldSame(m.phase, w, Leaving);
    if target.Some? { HeldSame(m.phase[w := Leaving], target.value, Woken); }
  }

  lemma LockConserves(m: Monitor, w: nat)
    requires Enabled(m, Lock(w))
    ensures Connections(Step(m, Lock(w))) == Connections(m)
  {
    HeldSame(m.phase, w, if m.phase[w].Releasing? then Pushing(m.phase[w].conn) else Testing);
  }

  lemma UnlockConserves(m: Monitor, w: nat)
    requires Enabled(m, Unlock(w))
    ensures Connections(Step(m, Unlock(w))) == Connections(m)
  {
    HeldSame(m.phase, w, if m.phase[w].Taken? then Holding(m.phase[w].conn) else Outside);
  }

  lemma ConservationStep(m: Monitor, e: Event)
    requires Enabled(m, e)
    ensures Connections(Step(m, e)) == Connections(m)
  {
    match e
    case Test(w) => TestConserves(m, w);
    case Push(w) => PushConserves(m, w);
    case Notify(w, target) => NotifyConserves(m, w, target);
    case Lock(w) => LockConserves(m, w);
    case Unlock(w) => UnlockConserves(m, w);
    case Enter(w) => HeldSame(m.phase, w, Entering);
    case Wake(w) => HeldSame(m.phase, w, Woken);
    case Return(w) => HeldSame(m.phase, w, Releasing(m.phase[w].conn));
  }

  lemma SleepingCount(m: Monitor)
    ensures 0 == Sum(m.phase, IsSleeping()) <==> forall w | 0 <= w < |m.phase| :: !m.phase[w].Sleeping?
  {
    if 0 < Sum(m.phase, IsSleeping()) {
      var w := SumWitness(m.phase, IsSleeping());
    } else {
      forall w | 0 <= w < |m.phase| ensures !m.phase[w].Sleeping? { SumMember(m.phase, w, IsSleeping()); }
    }
  }

  lemma WakeupStep(m: Monitor, e: Event)
    requires Enabled(m, e) && WakeupInv(m)
    ensures WakeupInv(Step(m, e))
  {
    var m' := Step(m, e);
    SumUpdate(m.phase, e.w, m'.phase[e.w], IsSleeping());
    SumUpdate(m.phase, e.w, m'.phase[e.w], Credit());
    if e.Notify? {
      SleepingCount(m);
      if e.target.Some? {
        var ps := m.phase[e.w := Leaving];
        var t := e.target.value;
        SumUpdate(m.phase, e.w, Leaving, IsSleeping());
        SumUpdate(m.phase, e.w, Leaving, Credit());
        SumUpdate(ps, t, Woken, IsSleeping());
        SumUpdate(ps, t, Woken, Credit());
      }
    }
  }

  lemma WorkersStay(m: Monitor, e: Event)
    requires Enabled(m, e)
    ensures |Step(m, e).phase| == |m.phase|
  {
  }

  lemma InvStep(m: Monitor, e: Event, all: multiset<Connection>)
    requires Enabled(m, e) && Inv(m, all)
    ensures Inv(Step(m, e), all) && |Step(m, e).phase| == |m.phase|
  {
    MutexStep(m, e);
    ConservationStep(m, e);
    WakeupStep(m, e);
    WorkersStay(m, e);
  }

  // ----- runs -----------------------------------------------------------------------------

  ghost predicate Run(m: Monitor, es: seq<Event>)
    decreases |es|, 0
  {
    es == [] || (Run(m, es[..|es| - 1]) && Enabled(After(m, es[..|es| - 1]), es[|es| - 1]))
  }

  ghost function After(m: Monitor, es: seq<Event>): Monitor
    requires Run(m, es)
    decreases |es|, 1
  {
    if es == [] then m else Step(After(m, es[..|es| - 1]), es[|es| - 1])
  }

  /** `m` is reached from the pool `init` by some interleaving of its workers. */
  ghost predicate Reachable(init: Monitor, m: Monitor) {
    Initial(init) && exists es :: Run(init, es) && After(init, es) == m
  }

  lemma ReachableStep(init: Monitor, m: Monitor, e: Event)
    requires Reachable(init, m) && Enabled(m, e)
    ensures Reachable(init, Step(m, e))
  {
    var es :| Run(init, es) && After(init, es) == m;
    assert (es + [e])[..|es|] == es;
    assert Run(init, es + [e]);
    assert After(init, es + [e]) == Step(m, e);
  }

  lemma {:induction false} RunInv(init: Monitor, es: seq<Event>)
    requires Initial(init) && Run(init, es)
    ensures Inv(After(init, es), multiset(init.free)) && |After(init, es).phase| == |init.phase|
  {
    if es == [] {
      InitialInv(init);
    } else {
      var m, e := After(init, es[..|es| - 1]), es[|es| - 1];
      RunInv(init, es[..|es| - 1]);
      InvStep(m, e, multiset(init.free));
      assert After(init, es) == Step(m, e);
    }
  }

  lemma ReachableInv(init: Monitor, m: Monitor)
    requires Reachable(init, m)
    ensures Inv(m, multiset(init.free)) && |m.phase| == |init.phase|
  {
    var es :| Run(init, es) && After(init, es) == m;
    RunInv(init, es);
  }

  // ----- what the invariant gives ---------------------------------------------------------

  /** No lost wakeup: whenever the mutex is free and a waiter sleeps, there are no more queued
      connections than woken waiters on their way to them. */
  lemma {:induction false} NoLostWakeup(init: Monitor, m: Monitor)
    requires Reachable(init, m) && m.owner == None
    requires exists w :: 0 <= w < |m.phase| && m.phase[w].Sleeping?
    ensures |m.free| <= Sum(m.phase, IsWoken())
  {
    ReachableInv(init, m);
    SleepingCount(m);
    SumMonotone(m.phase, Credit(), IsWoken());
  }

  /** Some worker inside the pool can act, without the help of a spurious wakeup. */
  ghost predicate CanAct(m: Monitor) {
    exists e: Event :: Enabled(m, e) && !e.Enter? && !e.Wake?
  }

  /** Worker `w` itself can act. */
  ghost predicate CanStep(m: Monitor, w: nat) {
    exists e: Event :: Enabled(m, e) && !e.Enter? && !e.Wake? && e.w == w
  }

  lemma OwnerCanAct(m: Monitor, all: multiset<Connection>)
    requires Inv(m, all) && m.owner.Some?
    ensures CanAct(m) && CanStep(m, m.owner.value)
  {
    var w := m.owner.value;
    assert InCritical(m.phase[w]);
    match m.phase[w]
    case Testing => assert Enabled(m, Test(w));
    case Taken(_) => assert Enabled(m, Unlock(w));
    case Leaving => assert Enabled(m, Unlock(w));
    case Pushing(_) => assert Enabled(m, Push(w));
    case Notifying =>
      if t: nat :| t < |m.phase| && m.phase[t].Sleeping? {
        assert Enabled(m, Notify(w, Some(t)));
      } else {
        assert Enabled(m, Notify(w, None));
      }
  }

  /** With the mutex free and nobody on the way to it, somebody holds a connection. */
  lemma {:induction false} SomeHolder(m: Monitor, all: multiset<Connection>) returns (w: nat)
    requires Inv(m, all) && |all| >= 1 && m.owner == None
    requires exists w :: 0 <= w < |m.phase| && !m.phase[w].Outside?
    requires forall w | 0 <= w < |m.phase| :: !m.phase[w].Entering? && !m.phase[w].Woken? && !m.phase[w].Releasing?
    ensures w < |m.phase| && m.phase[w].Holding?
  {
    if h: nat :| h < |m.phase| && m.phase[h].Holding? {
      w := h;
    } else {
      SleepingCount(m);
      if 0 < Sum(m.phase, Credit()) {
        var v := SumWitness(m.phase, Credit());
      }
      HeldNone(m.phase);
      assert false;
    }
  }

  /** No deadlock: while any worker is inside the pool, some worker inside it can act; in
      particular the workers inside are never all asleep. */
  lemma {:induction false} NoDeadlock(init: Monitor, m: Monitor)
    requires Reachable(init, m) && |init.free| >= 1
    requires exists w :: 0 <= w < |m.phase| && !m.phase[w].Outside?
    ensures CanAct(m)
    ensures exists w :: 0 <= w < |m.phase| && !m.phase[w].Outside? && !m.phase[w].Sleeping?
  {
    ReachableInv(init, m);
    var e := InsideCanAct(m, multiset(init.free));
  }

  lemma {:induction false} InsideCanAct(m: Monitor, all: multiset<Connection>) returns (e: Event)
    requires Inv(m, all) && |all| >= 1
    requires exists w :: 0 <= w < |m.phase| && !m.phase[w].Outside?
    ensures Enabled(m, e) && !e.Enter? && !e.Wake?
  {
    if m.owner.Some? {
      OwnerCanAct(m, all);
      e :| Enabled(m, e) && !e.Enter? && !e.Wake?;
    } else if w: nat :| w < |m.phase| && (m.phase[w].Entering? || m.phase[w].Woken? || m.phase[w].Releasing?) {
      e := Lock(w);
    } else {
      var h := SomeHolder(m, all);
      e := Return(h);
    }
  }

  ghost predicate HasConnection(p: Phase) { p.Taken? || p.Holding? || p.Releasing? || p.Pushing? }

  /** Whenever the queue is empty, some worker has a connection in its hands and can take its next
      step towards pushing it back, or it waits for the mutex to do so and the owner can act. */
  lemma {:induction false} EmptyQueueHasHolder(init: Monitor, m: Monitor)
    requires Reachable(init, m) && |init.free| >= 1 && m.free == []
    ensures exists w: nat :: w < |m.phase| && HasConnection(m.phase[w]) &&
              (CanStep(m, w) || (m.phase[w].Releasing? && m.owner.Some? && CanStep(m, m.owner.value)))
  {
    ReachableInv(init, m);
    if w: nat :| w < |m.phase| && HasConnection(m.phase[w]) {
      HolderCanStep(m, multiset(init.free), w);
    } else {
      HeldNone(m.phase);
      assert false;
    }
  }

  lemma HolderCanStep(m: Monitor, all: multiset<Connection>, w: nat)
    requires Inv(m, all) && w < |m.phase| && HasConnection(m.phase[w])
    ensures CanStep(m, w) || (m.phase[w].Releasing? && m.owner.Some? && CanStep(m, m.owner.value))
  {
    match m.phase[w]
    case Taken(_) => assert Enabled(m, Unlock(w));
    case Holding(_) => assert Enabled(m, Return(w));
    case Pushing(_) => assert Enabled(m, Push(w));
    case Releasing(_) =>
      if m.owner.Some? { OwnerCanAct(m, all); } else { assert Enabled(m, Lock(w)); }
  }

  /** With at most as many workers as connections the wait predicate holds whenever it is tested,
      and no worker ever sleeps. */
  lemma {:induction false} EnoughConnections(init: Monitor, m: Monitor)
    requires Reachable(init, m) && |init.phase| <= |init.free|
    ensures forall w | 0 <= w < |m.phase| && m.phase[w].Testing? :: m.free != []
    ensures forall w | 0 <= w < |m.phase| :: !m.phase[w].Sleeping?
  {
    ReachableInv(init, m);
    forall w | 0 <= w < |m.phase| && m.phase[w].Testing? ensures m.free != [] {
      TestSucceeds(m, multiset(init.free), w);
    }
    var es :| Run(init, es) && After(init, es) == m;
    NobodySleeps(init, es);
  }

  lemma {:induction false} TestSucceeds(m: Monitor, all: multiset<Connection>, w: nat)
    requires ConservationInv(m, all) && |m.phase| <= |all| && w < |m.phase| && m.phase[w].Testing?
    ensures m.free != []
  {
    var ps := m.phase[w := Holding(Connection(0))];
    HeldUpdate(m.phase, w, ps[w]);
    HeldBound(ps);
    assert Held(ps) == Held(m.phase) + multiset{Connection(0)};
  }

  lemma NobodyFallsAsleep(m: Monitor, e: Event)
    requires Enabled(m, e) && (e.Test? ==> m.free != [])
    requires forall w | 0 <= w < |m.phase| :: !m.phase[w].Sleeping?
    ensures forall w | 0 <= w < |Step(m, e).phase| :: !Step(m, e).phase[w].Sleeping?
  {
  }

  lemma {:induction false} NobodySleeps(init: Monitor, es: seq<Event>)
    requires Initial(init) && Run(init, es) && |init.phase| <= |init.free|
    ensures forall w | 0 <= w < |After(init, es).phase| :: !After(init, es).phase[w].Sleeping?
  {
    if es != [] {
      var m, e := After(init, es[..|es| - 1]), es[|es| - 1];
      NobodySleeps(init, es[..|es| - 1]);
      RunInv(init, es[..|es| - 1]);
      if e.Test? { TestSucceeds(m, multiset(init.free), e.w); }
      NobodyFallsAsleep(m, e);
    }
  }

  /** No connection is ever in two hands, nor queued and held at once, nor queued twice, nor lost. */
  lemma {:induction false} ExclusiveUse(init: Monitor, m: Monitor, c: Connection)
    requires Reachable(init, m)
    requires forall i, j | 0 <= i < j < |init.free| :: init.free[i] != init.free[j]
    ensures multiset(m.free)[c] + Held(m.phase)[c] == (if c in init.free then 1 else 0)
    ensures forall v, w | 0 <= v < w < |m.phase| && c in ConnOf(m.phase[v]) :: c !in ConnOf(m.phase[w])
  {
    ReachableInv(init, m);
    DistinctCount(init.free, c);
    assert multiset(init.free)[c] == multiset(m.free)[c] + Held(m.phase)[c];
    forall v, w | 0 <= v < w < |m.phase| && c in ConnOf(m.phase[v]) ensures c !in ConnOf(m.phase[w]) {
      HeldTwice(m.phase, v, w, c);
    }
  }

  lemma {:induction false} HeldTwice(ps: seq<Phase>, v: nat, w: nat, c: Connection)
    requires v < w < |ps|
    ensures ConnOf(ps[v])[c] + ConnOf(ps[w])[c] <= Held(ps)[c]
  {
    HeldUpdate(ps, v, Outside);
    HeldUpdate(ps[v := Outside], w, Outside);
    assert (Held(ps[v := Outside]) + ConnOf(ps[v]))[c] == Held(ps)[c];
  }

  lemma {:induction false} DistinctCount(q: seq<Connection>, c: Connection)
    requires forall i, j | 0 <= i < j < |q| :: q[i] != q[j]
    ensures multiset(q)[c] == (if c in q then 1 else 0)
  {
    if q != [] {
      var n := |q| - 1;
      assert q == q[..n] + [q[n]];
      DistinctCount(q[..n], c);
    }
  }

  /** Nothing a thread library may do is excluded: a sleeper can wake up for no reason, a free mutex
      can go to anybody who wants it, and a notification to any sleeper. */
  lemma EveryChoiceIsOpen(m: Monitor, v: nat, w: nat)
    requires v < |m.phase| && w < |m.phase|
    ensures m.phase[v].Sleeping? ==> Enabled(m, Wake(v))
    ensures m.owner == None && (m.phase[v].Entering? || m.phase[v].Woken? || m.phase[v].Releasing?) ==>
              Enabled(m, Lock(v))
    ensures m.phase[w].Notifying? && m.phase[v].Sleeping? ==> Enabled(m, Notify(w, Some(v)))
    ensures m.phase[v].Outside? ==> Enabled(m, Enter(v))
  {
  }

  // ----- the measure ----------------------------------------------------------------------

  ghost function Weight(): Phase -> nat {
    (p: Phase) => match p
      case Outside => 0
      case Leaving => 1
      case Notifying => 4
      case Pushing(_) => 5
      case Releasing(_) => 6
      case Holding(_) => 7
      case Taken(_) => 8
      case Sleeping => 8
      case Testing => 9
      case Woken => 10
      case Entering => 10
  }

  ghost function Remaining(m: Monitor): nat { Sum(m.phase, Weight()) }

  /** Entering costs 10 and a spurious wakeup 2; every other event uses the measure up. */
  lemma RemainingStep(m: Monitor, e: Event)
    requires Enabled(m, e)
    ensures Remaining(Step(m, e)) <= Remaining(m) + (if e.Enter? then 10 else if e.Wake? then 2 else 0)
    ensures !e.Enter? && !e.Wake? ==> Remaining(Step(m, e)) < Remaining(m)
  {
    var m' := Step(m, e);
    SumUpdate(m.phase, e.w, m'.phase[e.w], Weight());
    if e.Notify? && e.target.Some? {
      SumUpdate(m.phase, e.w, Leaving, Weight());
      SumUpdate(m.phase[e.w := Leaving], e.target.value, Woken, Weight());
    }
  }
}
