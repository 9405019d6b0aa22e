/** The atomic ledger: what PlaceBet means when one call runs at a time and nothing fails. */
module Ledger {

  datatype Request = Request(userId: int, eventId: string, amount: real, outcome: string)

  datatype Error = BeginFailed | QueryFailed | NoRows | InsufficientBalance | UpdateFailed | InsertFailed | CommitFailed

  datatype Response = Success(newBalance: real) | Failure(error: Error)

  datatype Bet = Bet(userId: int, eventId: string, amount: real, outcome: string)

  datatype Ledger = Ledger(users: map<int, real>, bets: seq<Bet>)

  function BetOf(r: Request): Bet { Bet(r.userId, r.eventId, r.amount, r.outcome) }

  /** The answer of the ledger to a request. */
  function Reply(l: Ledger, r: Request): Response {
    if r.userId !in l.users then Failure(NoRows)
    else if l.users[r.userId] < r.amount then Failure(InsufficientBalance)
    else Success(l.users[r.userId] - r.amount)
  }

  /** The ledger after a request: a refused one leaves no trace. */
  function Place(l: Ledger, r: Request): Ledger {
    match Reply(l, r)
    case Success(b) => Ledger(l.users[r.userId := b], l.bets + [BetOf(r)])
    case Failure(_) => l
  }

  ghost function Replay(l: Ledger, rs: seq<Request>): Ledger {
    if rs == [] then l else Place(Replay(l, rs[..|rs| - 1]), rs[|rs| - 1])
  }

  lemma ReplayAppend(l: Ledger, rs: seq<Request>, r: Request)
    ensures Replay(l, rs + [r]) == Place(Replay(l, rs), r)
  {
    assert (rs + [r])[..|rs|] == rs;
  }

  /** What a request does to the ledger, in full: money and a bet only for a known user whose balance
      is at least the amount, and then the new balance, and the bet as it was asked for. */
  lemma PlaceInFull(l: Ledger, r: Request)
    ensures r.userId !in l.users ==> Reply(l, r) == Failure(NoRows) && Place(l, r) == l
    ensures r.userId in l.users && l.users[r.userId] < r.amount ==>
              Reply(l, r) == Failure(InsufficientBalance) && Place(l, r) == l
    ensures r.userId in l.users && l.users[r.userId] >= r.amount ==>
              && Reply(l, r) == Success(l.users[r.userId] - r.amount)
              && Place(l, r) == Ledger(l.users[r.userId := l.users[r.userId] - r.amount],
                                       l.bets + [Bet(r.userId, r.eventId, r.amount, r.outcome)])
  {
  }

  /** Bets are only added, and each one is the bet that one of the requests asked for, in order. */
  lemma {:induction false} ReplayedBets(init: Ledger, rs: seq<Request>, j: nat)
    ensures init.bets <= Replay(init, rs).bets
    ensures |init.bets| <= j < |Replay(init, rs).bets| ==>
              exists i: nat :: i < |rs| && |Replay(init, rs[..i]).bets| == j &&
                var b := Replay(init, rs).bets[j];
                b.userId == rs[i].userId && b.eventId == rs[i].eventId &&
                b.amount == rs[i].amount && b.outcome == rs[i].outcome
  {
    if rs != [] {
      var n := |rs| - 1;
      var rest := rs[..n];
      ReplayedBets(init, rest, j);
      PlaceInFull(Replay(init, rest), rs[n]);
      if |init.bets| <= j < |Replay(init, rest).bets| {
        var i: nat :| i < |rest| && |Replay(init, rest[..i]).bets| == j &&
          var b := Replay(init, rest).bets[j];
          b.userId == rest[i].userId && b.eventId == rest[i].eventId &&
          b.amount == rest[i].amount && b.outcome == rest[i].outcome;
        assert rs[..i] == rest[..i];
      }
    }
  }

  // ----- conservation and solvency --------------------------------------------------------

  /** The amounts a user has bet. */
  ghost function Staked(bets: seq<Bet>, u: int): real {
    if bets == [] then 0.0
    else Staked(bets[..|bets| - 1], u) + (if bets[|bets| - 1].userId == u then bets[|bets| - 1].amount else 0.0)
  }

  ghost predicate Solvent(l: Ledger) { forall u | u in l.users :: l.users[u] >= 0.0 }

  /** Money only moves from the balance to the bets of the same user. */
  ghost predicate Conserves(init: Ledger, l: Ledger) {
    && l.users.Keys == init.users.Keys
    && forall u | u in init.users :: l.users[u] + Staked(l.bets, u) == init.users[u] + Staked(init.bets, u)
  }

  lemma PlaceConserves(init: Ledger, l: Ledger, r: Request)
    requires Conserves(init, l)
    ensures Conserves(init, Place(l, r))
  {
    if Reply(l, r).Success? {
      var l' := Place(l, r);
      assert l'.bets[..|l'.bets| - 1] == l.bets;
    }
  }

  lemma PlaceSolvent(l: Ledger, r: Request)
    requires Solvent(l)
    ensures Solvent(Place(l, r))
  {
    if Reply(l, r).Success? {
      forall u | u in Place(l, r).users ensures Place(l, r).users[u] >= 0.0 { assert u in l.users; }
    }
  }

  lemma {:induction false} ReplayConserves(init: Ledger, rs: seq<Request>)
    ensures Conserves(init, Replay(init, rs))
  {
    if rs != [] {
      ReplayConserves(init, rs[..|rs| - 1]);
      PlaceConserves(init, Replay(init, rs[..|rs| - 1]), rs[|rs| - 1]);
    }
  }

  lemma {:induction false} ReplaySolvent(init: Ledger, rs: seq<Request>)
    requires Solvent(init)
    ensures Solvent(Replay(init, rs))
  {
    if rs != [] {
      ReplaySolvent(init, rs[..|rs| - 1]);
      PlaceSolvent(Replay(init, rs[..|rs| - 1]), rs[|rs| - 1]);
    }
  }

  // ----- how many bets a balance can carry ------------------------------------------------

  ghost function BetsOf(bets: seq<Bet>, u: int): seq<Bet> {
    if bets == [] then []
    else BetsOf(bets[..|bets| - 1], u) + (if bets[|bets| - 1].userId == u then [bets[|bets| - 1]] else [])
  }

  lemma MultiplyNext(k: nat, a: real)
    ensures (k + 1) as real * a == k as real * a + a
  {
  }

  lemma {:induction false} StakedAtLeast(bets: seq<Bet>, u: int, a: real)
    requires forall i | 0 <= i < |bets| :: bets[i].amount >= a
    ensures Staked(bets, u) >= |BetsOf(bets, u)| as real * a
  {
    if bets != [] {
      var n := |bets| - 1;
      StakedAtLeast(bets[..n], u, a);
      MultiplyNext(|BetsOf(bets[..n], u)|, a);
    }
  }

  /** With no bet below `a` > 0, a user has at most floor(initial balance / a) bets. */
  lemma {:induction false} BetsAreBounded(init: Ledger, rs: seq<Request>, u: int, a: real)
    requires Solvent(init) && init.bets == [] && u in init.users
    requires a > 0.0 && forall i | 0 <= i < |rs| :: rs[i].amount >= a
    ensures |BetsOf(Replay(init, rs).bets, u)| <= (init.users[u] / a).Floor
  {
    var l := Replay(init, rs);
    ReplayConserves(init, rs);
    ReplaySolvent(init, rs);
    ReplayBets(init, rs, a);
    StakedAtLeast(l.bets, u, a);
    NeverOverspent(l.users[u], Staked(l.bets, u), init.users[u], |BetsOf(l.bets, u)|, a);
  }

  lemma NeverOverspent(balance: real, staked: real, start: real, k: nat, a: real)
    requires balance >= 0.0 && balance + staked == start && staked >= k as real * a && a > 0.0
    ensures k <= (start / a).Floor
  {
    QuotientBound(k, a, start);
  }

  lemma QuotientBound(k: nat, a: real, b: real)
    requires a > 0.0 && k as real * a <= b
    ensures k <= (b / a).Floor
  {
    var q := b / a;
    assert q * a == b;
    if q < k as real { PositiveProduct(k as real - q, a); }
  }

  lemma PositiveProduct(x: real, y: real)
    requires x > 0.0 && y > 0.0
    ensures x * y > 0.0
  {
  }

  lemma {:induction false} ReplayBets(init: Ledger, rs: seq<Request>, a: real)
    requires init.bets == [] && forall i | 0 <= i < |rs| :: rs[i].amount >= a
    ensures forall i | 0 <= i < |Replay(init, rs).bets| :: Replay(init, rs).bets[i].amount >= a
  {
    if rs != [] { ReplayBets(init, rs[..|rs| - 1], a); }
  }

  // ----- independence of users ------------------------------------------------------------

  ghost function RequestsOf(rs: seq<Request>, u: int): seq<Request> {
    if rs == [] then []
    else RequestsOf(rs[..|rs| - 1], u) + (if rs[|rs| - 1].userId == u then [rs[|rs| - 1]] else [])
  }

  lemma {:induction false} RequestsOfOneUser(rs: seq<Request>, u: int)
    ensures forall i | 0 <= i < |RequestsOf(rs, u)| :: RequestsOf(rs, u)[i].userId == u
  {
    if rs != [] { RequestsOfOneUser(rs[..|rs| - 1], u); }
  }

  /** Two ledgers that agree on what concerns one user. */
  ghost predicate SameFor(l: Ledger, m: Ledger, u: int) {
    && (u in l.users <==> u in m.users)
    && (u in l.users ==> l.users[u] == m.users[u])
    && BetsOf(l.bets, u) == BetsOf(m.bets, u)
  }

  lemma BetsOfAppend(bets: seq<Bet>, b: Bet, u: int)
    ensures BetsOf(bets + [b], u) == BetsOf(bets, u) + (if b.userId == u then [b] else [])
  {
    assert (bets + [b])[..|bets|] == bets;
  }

  lemma OwnPlace(l: Ledger, m: Ledger, r: Request)
    requires SameFor(l, m, r.userId)
    ensures SameFor(Place(l, r), Place(m, r), r.userId)
  {
    BetsOfAppend(l.bets, BetOf(r), r.userId);
    BetsOfAppend(m.bets, BetOf(r), r.userId);
    assert Reply(l, r) == Reply(m, r);
  }

  lemma OtherPlace(l: Ledger, r: Request, u: int)
    requires r.userId != u
    ensures SameFor(Place(l, r), l, u)
  {
    BetsOfAppend(l.bets, BetOf(r), u);
    assert BetsOf(l.bets, u) + [] == BetsOf(l.bets, u);
  }

  lemma PlaceIsLocal(l: Ledger, m: Ledger, r: Request, u: int)
    requires SameFor(l, m, u)
    ensures r.userId == u ==> SameFor(Place(l, r), Place(m, r), u)
    ensures r.userId != u ==> SameFor(Place(l, r), m, u)
  {
    if r.userId == u { OwnPlace(l, m, r); } else { OtherPlace(l, r, u); }
  }

  /** What a run of requests does for a user is what the user's own requests do. */
  lemma {:induction false} ReplayIsLocal(init: Ledger, rs: seq<Request>, u: int)
    ensures SameFor(Replay(init, rs), Replay(init, RequestsOf(rs, u)), u)
  {
    if rs != [] {
      var n := |rs| - 1;
      ReplayIsLocal(init, rs[..n], u);
      var own := RequestsOf(rs[..n], u);
      PlaceIsLocal(Replay(init, rs[..n]), Replay(init, own), rs[n], u);
      ReplayAppend(init, own, rs[n]);
      assert own + [] == own;
    }
  }

  lemma {:induction false} CountByUser(bets: seq<Bet>, b: Bet)
    ensures multiset(bets)[b] == multiset(BetsOf(bets, b.userId))[b]
  {
    if bets != [] {
      var n := |bets| - 1;
      assert bets == bets[..n] + [bets[n]];
      CountByUser(bets[..n], b);
    }
  }

  /** Commit orders that keep each user's own order end in the same balances and the same bets. */
  lemma {:induction false} OrderAcrossUsersIsIrrelevant(init: Ledger, rs: seq<Request>, ss: seq<Request>)
    requires forall u :: RequestsOf(rs, u) == RequestsOf(ss, u)
    ensures Replay(init, rs).users == Replay(init, ss).users
    ensures multiset(Replay(init, rs).bets) == multiset(Replay(init, ss).bets)
  {
    var l, m := Replay(init, rs), Replay(init, ss);
    forall u ensures SameFor(l, m, u) {
      ReplayIsLocal(init, rs, u);
      ReplayIsLocal(init, ss, u);
    }
    forall b ensures multiset(l.bets)[b] == multiset(m.bets)[b] {
      CountByUser(l.bets, b);
      CountByUser(m.bets, b);
      assert SameFor(l, m, b.userId);
    }
    forall u ensures u in l.users <==> u in m.users { assert SameFor(l, m, u); }
    forall u | u in l.users ensures l.users[u] == m.users[u] { assert SameFor(l, m, u); }
  }
}
