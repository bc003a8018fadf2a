// The parallel greedy fleet router of src/logic.py:75-183 as functions over
// value snapshots of the vehicles, and the properties it keeps.

module Router {
  import opened Distances

  datatype Option<T> = None | Some(value: T)

  /**
   * Value view of one vehicle: the fields of class Models.Vehicle, copied into a datatype so
   * the router can be specified by functions (Logic.View turns a Vehicle object into a Truck).
   */
  datatype Truck = Truck(id: int, capacity: int, load: int, route: seq<int>, travelCost: real)

  /** A move of the scan: vehicle index in the fleet, client id, shortest-path distance to it. */
  datatype Move = Move(vehicle: nat, client: nat, dist: real)

  /** The report lines, in the order the router emits them, without their formatting. */
  datatype Event =
    | ScenarioEmpty
    | Started
    | Delivered(step: nat, vehicle: int, client: int, amount: int)
    | FleetFull
    | DeliveriesOver
    | ReturnedHome(vehicle: int, distance: real, total: real)
    | FleetTotal(distance: real)
    | Shortfall(remaining: int)

  /**
   * The state of the delivery loop. `pending[k]` is the pending demand of the
   * client with id k + 1: the pending map's keys are the client ids 1 .. N,
   * inserted (and so iterated) in ascending order.
   */
  datatype Greedy = Greedy(fleet: seq<Truck>, pending: seq<int>, steps: nat, log: seq<Event>)

  datatype Outcome = Outcome(fleet: seq<Truck>, log: seq<Event>)

  function Min(a: int, b: int): int
  {
    if a < b then a else b
  }

  /** Python's sum() over the pending values. */
  function Sum(s: seq<int>): int
  {
    if |s| == 0 then 0 else Sum(s[..|s| - 1]) + s[|s| - 1]
  }

  lemma {:induction false} SumUpdate(s: seq<int>, k: nat, x: int)
    requires k < |s|
    ensures Sum(s[k := x]) == Sum(s) - s[k] + x
    decreases |s|
  {
    var t := s[k := x];
    if k < |s| - 1 {
      assert t[..|t| - 1] == s[..|s| - 1][k := x];
      SumUpdate(s[..|s| - 1], k, x);
    } else {
      assert t[..|t| - 1] == s[..|s| - 1];
    }
  }

  /** A positive total has a positive entry. */
  lemma {:induction false} SumPositive(s: seq<int>) returns (k: nat)
    requires Sum(s) > 0
    ensures k < |s| && s[k] > 0
    decreases |s|
  {
    if s[|s| - 1] > 0 {
      k := |s| - 1;
    } else {
      k := SumPositive(s[..|s| - 1]);
    }
  }

  function Last(route: seq<int>): int
    requires |route| > 0
  {
    route[|route| - 1]
  }

  /** A route starts at the depot and visits only locations of the matrix. */
  predicate ValidRoute(route: seq<int>, n: nat)
  {
    |route| > 0 && route[0] == 0 && forall p :: 0 <= p < |route| ==> 0 <= route[p] < n
  }

  /** The shortest-path matrix covers the depot and every client, and every route stays inside it. */
  predicate WellFormed(fw: Matrix, fleet: seq<Truck>, pending: seq<int>)
  {
    IsSquare(fw) && |fw| == |pending| + 1 &&
    forall v :: 0 <= v < |fleet| ==> ValidRoute(fleet[v].route, |fw|)
  }

  predicate HasSpace(t: Truck)
  {
    t.load < t.capacity
  }

  predicate AllFull(fleet: seq<Truck>)
  {
    forall v :: 0 <= v < |fleet| ==> !HasSpace(fleet[v])
  }

  /** The scan considers vehicle v with spare capacity and client k + 1 with pending demand. */
  predicate Candidate(fleet: seq<Truck>, pending: seq<int>, v: int, k: int)
  {
    0 <= v < |fleet| && 0 <= k < |pending| && HasSpace(fleet[v]) && pending[k] > 0
  }

  /** Shortest-path distance from vehicle v's last stop to client k + 1. */
  function Dist(fw: Matrix, fleet: seq<Truck>, pending: seq<int>, v: nat, k: nat): real
    requires WellFormed(fw, fleet, pending) && v < |fleet| && k < |pending|
  {
    fw[Last(fleet[v].route)][k + 1]
  }

  predicate IsMove(fw: Matrix, fleet: seq<Truck>, pending: seq<int>, m: Move)
    requires WellFormed(fw, fleet, pending)
  {
    1 <= m.client <= |pending| && Candidate(fleet, pending, m.vehicle, m.client - 1) &&
    m.dist == Dist(fw, fleet, pending, m.vehicle, m.client - 1)
  }

  /** The inner scan over the clients, for vehicle v, from client index k on. */
  function ScanClients(fw: Matrix, fleet: seq<Truck>, pending: seq<int>, v: nat, k: nat, best: Option<Move>)
    : (r: Option<Move>)
    requires WellFormed(fw, fleet, pending) && v < |fleet| && HasSpace(fleet[v]) && k <= |pending|
    ensures r == best || (r.Some? && IsMove(fw, fleet, pending, r.value))
    decreases |pending| - k
  {
    if k == |pending| then best
    else
      var d := Dist(fw, fleet, pending, v, k);
      var next := if pending[k] > 0 && (best.None? || d < best.value.dist) then Some(Move(v, k + 1, d)) else best;
      ScanClients(fw, fleet, pending, v, k + 1, next)
  }

  /** The outer scan over the vehicles from index v on; full vehicles are skipped. */
  function ScanVehicles(fw: Matrix, fleet: seq<Truck>, pending: seq<int>, v: nat, best: Option<Move>)
    : (r: Option<Move>)
    requires WellFormed(fw, fleet, pending) && v <= |fleet|
    ensures r == best || (r.Some? && IsMove(fw, fleet, pending, r.value))
    decreases |fleet| - v
  {
    if v == |fleet| then best
    else
      var next := if HasSpace(fleet[v]) then ScanClients(fw, fleet, pending, v, 0, best) else best;
      ScanVehicles(fw, fleet, pending, v + 1, next)
  }

  /** The globally nearest (vehicle, client) pair, first found on ties; None when there is no candidate. */
  function BestMove(fw: Matrix, fleet: seq<Truck>, pending: seq<int>): (r: Option<Move>)
    requires WellFormed(fw, fleet, pending)
    ensures r.Some? ==> IsMove(fw, fleet, pending, r.value)
  {
    ScanVehicles(fw, fleet, pending, 0, None)
  }

  /** Pair (v, k) comes before pair (v2, k2) in scan order: vehicles first, then clients. */
  predicate Before(v: int, k: int, v2: int, k2: int)
  {
    v < v2 || (v == v2 && k < k2)
  }

  lemma BeforeNext(v: int, k: int)
    ensures forall x, y :: Before(x, y, v, k + 1) <==> (Before(x, y, v, k) || (x == v && y == k))
  {
  }

  /** What the scan holds once it has visited exactly the pairs before (v0, k0). */
  ghost predicate ScanInv(fw: Matrix, fleet: seq<Truck>, pending: seq<int>, best: Option<Move>, v0: int, k0: int)
    requires WellFormed(fw, fleet, pending)
  {
    match best
    case None =>
      forall v, k :: Candidate(fleet, pending, v, k) ==> !Before(v, k, v0, k0)
    case Some(m) =>
      IsMove(fw, fleet, pending, m) && Before(m.vehicle, m.client - 1, v0, k0) &&
      (forall v, k :: Candidate(fleet, pending, v, k) && Before(v, k, v0, k0) ==>
         m.dist <= Dist(fw, fleet, pending, v, k)) &&
      (forall v, k :: Candidate(fleet, pending, v, k) && Before(v, k, m.vehicle, m.client - 1) ==>
         m.dist < Dist(fw, fleet, pending, v, k))
  }

  lemma {:induction false} ScanClientsInv(fw: Matrix, fleet: seq<Truck>, pending: seq<int>, v: nat, k: nat, best: Option<Move>)
    requires WellFormed(fw, fleet, pending) && v < |fleet| && HasSpace(fleet[v]) && k <= |pending|
    requires ScanInv(fw, fleet, pending, best, v, k)
    ensures ScanInv(fw, fleet, pending, ScanClients(fw, fleet, pending, v, k, best), v + 1, 0)
    decreases |pending| - k
  {
    if k == |pending| {
      assert forall x, y :: Candidate(fleet, pending, x, y) ==> (Before(x, y, v, k) <==> Before(x, y, v + 1, 0));
    } else {
      var d := Dist(fw, fleet, pending, v, k);
      var next := if pending[k] > 0 && (best.None? || d < best.value.dist) then Some(Move(v, k + 1, d)) else best;
      BeforeNext(v, k);
      assert ScanInv(fw, fleet, pending, next, v, k + 1);
      ScanClientsInv(fw, fleet, pending, v, k + 1, next);
    }
  }

  lemma {:induction false} ScanVehiclesInv(fw: Matrix, fleet: seq<Truck>, pending: seq<int>, v: nat, best: Option<Move>)
    requires WellFormed(fw, fleet, pending) && v <= |fleet|
    requires ScanInv(fw, fleet, pending, best, v, 0)
    ensures ScanInv(fw, fleet, pending, ScanVehicles(fw, fleet, pending, v, best), |fleet|, 0)
    decreases |fleet| - v
  {
    if v < |fleet| {
      var next := if HasSpace(fleet[v]) then ScanClients(fw, fleet, pending, v, 0, best) else best;
      if HasSpace(fleet[v]) {
        ScanClientsInv(fw, fleet, pending, v, 0, best);
      } else {
        assert forall x, y :: Candidate(fleet, pending, x, y) ==> (Before(x, y, v, 0) <==> Before(x, y, v + 1, 0));
      }
      ScanVehiclesInv(fw, fleet, pending, v + 1, next);
    }
  }

  /**
   * The selected move is a candidate at the minimum distance over all candidates, and every
   * candidate before it in scan order is strictly farther; there is none exactly when no
   * vehicle with spare capacity meets a client with pending demand.
   */
  lemma BestMoveIsFirstMinimum(fw: Matrix, fleet: seq<Truck>, pending: seq<int>)
    requires WellFormed(fw, fleet, pending)
    ensures BestMove(fw, fleet, pending).None? <==> forall v, k :: !Candidate(fleet, pending, v, k)
    ensures BestMove(fw, fleet, pending).Some? ==>
      var m := BestMove(fw, fleet, pending).value;
      IsMove(fw, fleet, pending, m) &&
      (forall v, k :: Candidate(fleet, pending, v, k) ==> m.dist <= Dist(fw, fleet, pending, v, k)) &&
      (forall v, k :: Candidate(fleet, pending, v, k) && Before(v, k, m.vehicle, m.client - 1) ==>
         m.dist < Dist(fw, fleet, pending, v, k))
  {
    ScanVehiclesInv(fw, fleet, pending, 0, None);
    assert forall x, y :: Candidate(fleet, pending, x, y) ==> Before(x, y, |fleet|, 0);
  }

  /**
   * One delivery step: the chosen vehicle goes to the client, takes min(spare capacity,
   * pending demand) off the client's pending demand and adds the distance to its cost.
   */
  function Deliver(fw: Matrix, g: Greedy, m: Move): (r: Greedy)
    requires WellFormed(fw, g.fleet, g.pending) && IsMove(fw, g.fleet, g.pending, m)
    ensures WellFormed(fw, r.fleet, r.pending)
    ensures |r.fleet| == |g.fleet| && |r.pending| == |g.pending|
    ensures Sum(r.pending) < Sum(g.pending)
  {
    var t := g.fleet[m.vehicle];
    var amount := Min(t.capacity - t.load, g.pending[m.client - 1]);
    SumUpdate(g.pending, m.client - 1, g.pending[m.client - 1] - amount);
    Greedy(
      g.fleet[m.vehicle := t.(route := t.route + [m.client], load := t.load + amount, travelCost := t.travelCost + m.dist)],
      g.pending[m.client - 1 := g.pending[m.client - 1] - amount],
      g.steps + 1,
      g.log + [Delivered(g.steps, t.id, m.client, amount)])
  }

  /** The delivered amount of a move: the smaller of spare capacity and pending demand. */
  function Amount(g: Greedy, m: Move): int
    requires m.vehicle < |g.fleet| && 1 <= m.client <= |g.pending|
  {
    Min(g.fleet[m.vehicle].capacity - g.fleet[m.vehicle].load, g.pending[m.client - 1])
  }

  lemma DeliverParts(fw: Matrix, g: Greedy, m: Move)
    requires WellFormed(fw, g.fleet, g.pending) && IsMove(fw, g.fleet, g.pending, m)
    ensures var t := g.fleet[m.vehicle]; var amount := Amount(g, m);
      Deliver(fw, g, m).fleet ==
        g.fleet[m.vehicle := t.(route := t.route + [m.client], load := t.load + amount, travelCost := t.travelCost + m.dist)] &&
      Deliver(fw, g, m).pending == g.pending[m.client - 1 := g.pending[m.client - 1] - amount] &&
      Deliver(fw, g, m).steps == g.steps + 1 &&
      Deliver(fw, g, m).log == g.log + [Delivered(g.steps, t.id, m.client, amount)]
  {
  }

  /** The delivery loop: stop on no pending demand, on a full fleet, or when no move is found. */
  function Run(fw: Matrix, g: Greedy): (r: Greedy)
    requires WellFormed(fw, g.fleet, g.pending)
    ensures WellFormed(fw, r.fleet, r.pending)
    ensures |r.fleet| == |g.fleet| && |r.pending| == |g.pending|
    decreases Sum(g.pending)
  {
    if Sum(g.pending) <= 0 then g
    else if AllFull(g.fleet) then g.(log := g.log + [FleetFull])
    else
      match BestMove(fw, g.fleet, g.pending)
      case None => g
      case Some(m) => Run(fw, Deliver(fw, g, m))
  }

  /** While demand is pending and some vehicle has room, the loop carries out the best move and goes on. */
  lemma RunTakesBestMove(fw: Matrix, g: Greedy, m: Move)
    requires WellFormed(fw, g.fleet, g.pending)
    requires Sum(g.pending) > 0 && !AllFull(g.fleet) && BestMove(fw, g.fleet, g.pending) == Some(m)
    ensures Run(fw, g) == Run(fw, Deliver(fw, g, m))
  {
  }

  /** A vehicle whose last stop is away from the depot goes back, paying the distance. */
  function ReturnHome(fw: Matrix, t: Truck): Truck
    requires IsSquare(fw) && ValidRoute(t.route, |fw|)
  {
    var home := fw[Last(t.route)][0];
    if home > 0.0 then t.(route := t.route + [0], travelCost := t.travelCost + home) else t
  }

  function ReturnEvent(fw: Matrix, t: Truck): seq<Event>
    requires IsSquare(fw) && ValidRoute(t.route, |fw|)
  {
    var home := fw[Last(t.route)][0];
    if home > 0.0 then [ReturnedHome(t.id, home, t.travelCost + home)] else []
  }

  predicate RoutesValid(fw: Matrix, fleet: seq<Truck>)
  {
    forall v :: 0 <= v < |fleet| ==> ValidRoute(fleet[v].route, |fw|)
  }

  function ReturnAll(fw: Matrix, fleet: seq<Truck>): (r: seq<Truck>)
    requires IsSquare(fw) && RoutesValid(fw, fleet)
    ensures |r| == |fleet|
  {
    seq(|fleet|, v requires 0 <= v < |fleet| => ReturnHome(fw, fleet[v]))
  }

  function ReturnEvents(fw: Matrix, fleet: seq<Truck>): seq<Event>
    requires IsSquare(fw) && RoutesValid(fw, fleet)
  {
    if |fleet| == 0 then [] else ReturnEvents(fw, fleet[..|fleet| - 1]) + ReturnEvent(fw, fleet[|fleet| - 1])
  }

  lemma ReturnEventsPrefix(fw: Matrix, fleet: seq<Truck>, i: nat)
    requires IsSquare(fw) && RoutesValid(fw, fleet) && i < |fleet|
    ensures ReturnEvents(fw, fleet[..i + 1]) == ReturnEvents(fw, fleet[..i]) + ReturnEvent(fw, fleet[i])
  {
    assert fleet[..i + 1][..i] == fleet[..i];
  }

  lemma TotalCostPrefix(fleet: seq<Truck>, i: nat)
    requires i < |fleet|
    ensures TotalCost(fleet[..i + 1]) == TotalCost(fleet[..i]) + fleet[i].travelCost
  {
    assert fleet[..i + 1][..i] == fleet[..i];
  }

  /** The fleet's total distance: the sum of the travel costs. */
  function TotalCost(fleet: seq<Truck>): real
  {
    if |fleet| == 0 then 0.0 else TotalCost(fleet[..|fleet| - 1]) + fleet[|fleet| - 1].travelCost
  }

  function LoadSum(fleet: seq<Truck>): int
  {
    if |fleet| == 0 then 0 else LoadSum(fleet[..|fleet| - 1]) + fleet[|fleet| - 1].load
  }

  /** Sum of the amounts the log records as delivered to the client with id c. */
  function DeliveredTo(log: seq<Event>, c: int): int
  {
    if |log| == 0 then 0
    else DeliveredTo(log[..|log| - 1], c) +
         match log[|log| - 1]
         case Delivered(_, _, client, amount) => if client == c then amount else 0
         case _ => 0
  }

  /** One truck per capacity, in order, with ids 1, 2, ..., at the depot, empty. */
  function InitialFleet(capacities: seq<int>): seq<Truck>
  {
    seq(|capacities|, i requires 0 <= i < |capacities| => Truck(i + 1, capacities[i], 0, [0], 0.0))
  }

  function Start(capacities: seq<int>, demands: seq<int>): Greedy
  {
    Greedy(InitialFleet(capacities), demands, 0, [Started])
  }

  /** The whole router for a non-empty scenario: delivery loop, return legs, total, and the alert. */
  function Plan(fw: Matrix, capacities: seq<int>, demands: seq<int>): Outcome
    requires IsSquare(fw) && |fw| == |demands| + 1
  {
    var g := Run(fw, Start(capacities, demands));
    Outcome(ReturnAll(fw, g.fleet), g.log + WrapUpLog(fw, g))
  }

  /** What is logged after the delivery loop: end marker, return legs, fleet total, alert. */
  function WrapUpLog(fw: Matrix, g: Greedy): seq<Event>
    requires IsSquare(fw) && RoutesValid(fw, g.fleet)
  {
    var remaining := Sum(g.pending);
    [DeliveriesOver] + ReturnEvents(fw, g.fleet) + [FleetTotal(TotalCost(ReturnAll(fw, g.fleet)))] +
    (if remaining > 0 then [Shortfall(remaining)] else [])
  }
}
