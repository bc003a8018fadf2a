// What the delivery loop and the whole plan of module Router keep and deliver.

module RouterProperties {
  import opened Distances
  import opened Router

  /** No load is negative, and a load never exceeds its capacity (a vehicle without capacity carries nothing). */
  predicate LoadsWithin(fleet: seq<Truck>)
  {
    forall v :: 0 <= v < |fleet| ==>
      0 <= fleet[v].load && (fleet[v].load <= fleet[v].capacity || fleet[v].load == 0)
  }

  /** A client's pending demand is either untouched or was lowered and stays non-negative. */
  predicate PendingWithin(demands: seq<int>, pending: seq<int>)
  {
    |pending| == |demands| &&
    forall k :: 0 <= k < |pending| ==> pending[k] == demands[k] || 0 <= pending[k] < demands[k]
  }

  /** Distance along a route: the sum of its legs. */
  function RouteLength(fw: Matrix, route: seq<int>): real
    requires IsSquare(fw) && forall p :: 0 <= p < |route| ==> 0 <= route[p] < |fw|
  {
    if |route| <= 1 then 0.0
    else RouteLength(fw, route[..|route| - 1]) + fw[route[|route| - 2]][route[|route| - 1]]
  }

  /** Every vehicle's travel cost is the length of the route it has driven. */
  predicate CostsMatchRoutes(fw: Matrix, fleet: seq<Truck>)
    requires IsSquare(fw) && RoutesValid(fw, fleet)
  {
    forall v :: 0 <= v < |fleet| ==> fleet[v].travelCost == RouteLength(fw, fleet[v].route)
  }

  /**
   * `later` is `earlier` after some deliveries: same vehicles, routes only extended, and a
   * vehicle that had no spare capacity is exactly as it was.
   */
  predicate Extends(earlier: seq<Truck>, later: seq<Truck>)
  {
    |later| == |earlier| &&
    forall v :: 0 <= v < |earlier| ==>
      later[v].id == earlier[v].id && later[v].capacity == earlier[v].capacity &&
      earlier[v].route <= later[v].route &&
      (!HasSpace(earlier[v]) ==> later[v] == earlier[v])
  }

  lemma RouteLengthSnoc(fw: Matrix, route: seq<int>, c: int)
    requires IsSquare(fw) && ValidRoute(route, |fw|) && 0 <= c < |fw|
    ensures ValidRoute(route + [c], |fw|)
    ensures RouteLength(fw, route + [c]) == RouteLength(fw, route) + fw[Last(route)][c]
  {
    assert (route + [c])[..|route|] == route;
  }

  lemma {:induction false} LoadSumUpdate(fleet: seq<Truck>, v: nat, t: Truck)
    requires v < |fleet|
    ensures LoadSum(fleet[v := t]) == LoadSum(fleet) - fleet[v].load + t.load
    decreases |fleet|
  {
    var f := fleet[v := t];
    if v < |fleet| - 1 {
      assert f[..|f| - 1] == fleet[..|fleet| - 1][v := t];
      LoadSumUpdate(fleet[..|fleet| - 1], v, t);
    } else {
      assert f[..|f| - 1] == fleet[..|fleet| - 1];
    }
  }

  lemma DeliveredToSnoc(log: seq<Event>, e: Event, c: int)
    ensures DeliveredTo(log + [e], c) == DeliveredTo(log, c) +
      match e
      case Delivered(_, _, client, amount) => if client == c then amount else 0
      case _ => 0
  {
    assert (log + [e])[..|log|] == log;
  }

  lemma {:induction false} DeliveredToConcat(a: seq<Event>, b: seq<Event>, c: int)
    ensures DeliveredTo(a + b, c) == DeliveredTo(a, c) + DeliveredTo(b, c)
    decreases |b|
  {
    if |b| == 0 {
      assert a + b == a;
    } else {
      var e := b[|b| - 1];
      var b' := b[..|b| - 1];
      assert a + b == (a + b') + [e];
      assert b == b' + [e];
      DeliveredToConcat(a, b', c);
      DeliveredToSnoc(a + b', e, c);
      DeliveredToSnoc(b', e, c);
    }
  }

  /**
   * One delivery step: a positive amount is delivered, the vehicle ends within its capacity,
   * the client's pending demand stays non-negative, the vehicle fills up or the client is served,
   * the cost grows by the leg driven, and no other vehicle or client changes.
   */
  lemma DeliverStep(fw: Matrix, g: Greedy, m: Move)
    requires WellFormed(fw, g.fleet, g.pending) && IsMove(fw, g.fleet, g.pending, m)
    ensures var r := Deliver(fw, g, m);
      var t, t' := g.fleet[m.vehicle], r.fleet[m.vehicle];
      var k := m.client - 1;
      var amount := t'.load - t.load;
      0 < amount && amount == g.pending[k] - r.pending[k] &&
      t'.load <= t.capacity && 0 <= r.pending[k] &&
      (t'.load == t.capacity || r.pending[k] == 0) &&
      t'.route == t.route + [m.client] && t'.travelCost == t.travelCost + m.dist &&
      (forall v :: 0 <= v < |g.fleet| && v != m.vehicle ==> r.fleet[v] == g.fleet[v]) &&
      (forall j :: 0 <= j < |g.pending| && j != k ==> r.pending[j] == g.pending[j])
  {
  }

  lemma {:induction false} RunKeepsLoadsWithin(fw: Matrix, g: Greedy)
    requires WellFormed(fw, g.fleet, g.pending) && LoadsWithin(g.fleet)
    ensures LoadsWithin(Run(fw, g).fleet)
    decreases Sum(g.pending)
  {
    if Sum(g.pending) > 0 && !AllFull(g.fleet) && BestMove(fw, g.fleet, g.pending).Some? {
      var m := BestMove(fw, g.fleet, g.pending).value;
      RunKeepsLoadsWithin(fw, Deliver(fw, g, m));
    }
  }

  lemma {:induction false} RunKeepsPendingWithin(fw: Matrix, g: Greedy, demands: seq<int>)
    requires WellFormed(fw, g.fleet, g.pending) && PendingWithin(demands, g.pending)
    ensures PendingWithin(demands, Run(fw, g).pending)
    decreases Sum(g.pending)
  {
    if Sum(g.pending) > 0 && !AllFull(g.fleet) && BestMove(fw, g.fleet, g.pending).Some? {
      var m := BestMove(fw, g.fleet, g.pending).value;
      RunKeepsPendingWithin(fw, Deliver(fw, g, m), demands);
    }
  }

  /** Every unit that leaves the pending map is in some vehicle's load. */
  lemma {:induction false} RunConserves(fw: Matrix, g: Greedy)
    requires WellFormed(fw, g.fleet, g.pending)
    ensures LoadSum(Run(fw, g).fleet) + Sum(Run(fw, g).pending) == LoadSum(g.fleet) + Sum(g.pending)
    decreases Sum(g.pending)
  {
    if Sum(g.pending) > 0 && !AllFull(g.fleet) && BestMove(fw, g.fleet, g.pending).Some? {
      var m := BestMove(fw, g.fleet, g.pending).value;
      var t := g.fleet[m.vehicle];
      var r := Deliver(fw, g, m);
      LoadSumUpdate(g.fleet, m.vehicle, r.fleet[m.vehicle]);
      SumUpdate(g.pending, m.client - 1, r.pending[m.client - 1]);
      RunConserves(fw, r);
    }
  }

  /** The log's delivery lines account for exactly what left each client's pending demand. */
  lemma {:induction false} RunLogsDeliveries(fw: Matrix, g: Greedy)
    requires WellFormed(fw, g.fleet, g.pending)
    ensures g.log <= Run(fw, g).log
    ensures forall c :: 1 <= c <= |g.pending| ==>
      DeliveredTo(Run(fw, g).log, c) - DeliveredTo(g.log, c) == g.pending[c - 1] - Run(fw, g).pending[c - 1]
    decreases Sum(g.pending)
  {
    var r := Run(fw, g);
    if Sum(g.pending) <= 0 {
    } else if AllFull(g.fleet) {
      forall c | 1 <= c <= |g.pending|
        ensures DeliveredTo(r.log, c) == DeliveredTo(g.log, c)
      {
        DeliveredToSnoc(g.log, FleetFull, c);
      }
    } else if BestMove(fw, g.fleet, g.pending).Some? {
      var m := BestMove(fw, g.fleet, g.pending).value;
      var d := Deliver(fw, g, m);
      var e := d.log[|d.log| - 1];
      assert d.log == g.log + [e];
      RunLogsDeliveries(fw, d);
      forall c | 1 <= c <= |g.pending|
        ensures DeliveredTo(r.log, c) - DeliveredTo(g.log, c) == g.pending[c - 1] - r.pending[c - 1]
      {
        DeliveredToSnoc(g.log, e, c);
      }
    }
  }

  /** Vehicles keep their identity and capacity, routes only grow, full vehicles stay put, costs follow routes. */
  lemma {:induction false} RunExtendsFleet(fw: Matrix, g: Greedy)
    requires WellFormed(fw, g.fleet, g.pending) && CostsMatchRoutes(fw, g.fleet)
    ensures Extends(g.fleet, Run(fw, g).fleet)
    ensures CostsMatchRoutes(fw, Run(fw, g).fleet)
    decreases Sum(g.pending)
  {
    if Sum(g.pending) > 0 && !AllFull(g.fleet) && BestMove(fw, g.fleet, g.pending).Some? {
      var m := BestMove(fw, g.fleet, g.pending).value;
      var d := Deliver(fw, g, m);
      RouteLengthSnoc(fw, g.fleet[m.vehicle].route, m.client);
      assert Extends(g.fleet, d.fleet);
      RunExtendsFleet(fw, d);
    }
  }

  /** The loop ends only when no demand is pending or no vehicle has spare capacity. */
  lemma {:induction false} RunExit(fw: Matrix, g: Greedy)
    requires WellFormed(fw, g.fleet, g.pending)
    ensures Sum(Run(fw, g).pending) <= 0 || AllFull(Run(fw, g).fleet)
    decreases Sum(g.pending)
  {
    if Sum(g.pending) > 0 && !AllFull(g.fleet) {
      var k := SumPositive(g.pending);
      var v :| 0 <= v < |g.fleet| && HasSpace(g.fleet[v]);
      assert Candidate(g.fleet, g.pending, v, k);
      BestMoveIsFirstMinimum(fw, g.fleet, g.pending);
      var m := BestMove(fw, g.fleet, g.pending).value;
      RunExit(fw, Deliver(fw, g, m));
    }
  }

  /** The fresh fleet is empty, at the depot, and has driven nothing. */
  lemma {:induction false} InitialFleetFacts(fw: Matrix, capacities: seq<int>)
    requires IsSquare(fw) && |fw| >= 1
    ensures |InitialFleet(capacities)| == |capacities| && LoadSum(InitialFleet(capacities)) == 0
    ensures LoadsWithin(InitialFleet(capacities)) && RoutesValid(fw, InitialFleet(capacities))
    ensures CostsMatchRoutes(fw, InitialFleet(capacities))
    ensures forall i :: 0 <= i < |capacities| ==>
      InitialFleet(capacities)[i].id == i + 1 && InitialFleet(capacities)[i].capacity == capacities[i] &&
      InitialFleet(capacities)[i].route == [0] && InitialFleet(capacities)[i].travelCost == 0.0
    decreases |capacities|
  {
    var f := InitialFleet(capacities);
    if |capacities| > 0 {
      var c' := capacities[..|capacities| - 1];
      assert f[..|f| - 1] == InitialFleet(c');
      InitialFleetFacts(fw, c');
    }
  }

  lemma {:induction false} ReturnAllKeepsLoads(fw: Matrix, fleet: seq<Truck>)
    requires IsSquare(fw) && RoutesValid(fw, fleet)
    ensures LoadSum(ReturnAll(fw, fleet)) == LoadSum(fleet)
    decreases |fleet|
  {
    if |fleet| > 0 {
      var f' := fleet[..|fleet| - 1];
      assert ReturnAll(fw, fleet)[..|fleet| - 1] == ReturnAll(fw, f');
      ReturnAllKeepsLoads(fw, f');
    }
  }

  /** The return legs keep identities, loads and valid routes, and costs still follow routes. */
  lemma ReturnAllFacts(fw: Matrix, fleet: seq<Truck>)
    requires IsSquare(fw) && RoutesValid(fw, fleet) && CostsMatchRoutes(fw, fleet)
    ensures var f := ReturnAll(fw, fleet);
      RoutesValid(fw, f) && CostsMatchRoutes(fw, f) &&
      forall v :: 0 <= v < |f| ==>
        f[v].id == fleet[v].id && f[v].capacity == fleet[v].capacity && f[v].load == fleet[v].load &&
        (fw[Last(fleet[v].route)][0] <= 0.0 ==> f[v] == fleet[v])
  {
    var f := ReturnAll(fw, fleet);
    forall v | 0 <= v < |f|
      ensures ValidRoute(f[v].route, |fw|) && f[v].travelCost == RouteLength(fw, f[v].route)
    {
      RouteLengthSnoc(fw, fleet[v].route, 0);
    }
  }

  lemma {:induction false} NoDeliveryLines(log: seq<Event>, c: int)
    requires forall i :: 0 <= i < |log| ==> !log[i].Delivered?
    ensures DeliveredTo(log, c) == 0
    decreases |log|
  {
    if |log| > 0 {
      NoDeliveryLines(log[..|log| - 1], c);
    }
  }

  lemma {:induction false} ReturnEventsAreReturns(fw: Matrix, fleet: seq<Truck>)
    requires IsSquare(fw) && RoutesValid(fw, fleet)
    ensures forall i :: 0 <= i < |ReturnEvents(fw, fleet)| ==> ReturnEvents(fw, fleet)[i].ReturnedHome?
    decreases |fleet|
  {
    if |fleet| > 0 {
      ReturnEventsAreReturns(fw, fleet[..|fleet| - 1]);
    }
  }

  /** Nothing the router logs after the delivery loop is a delivery. */
  lemma WrapUpDeliversNothing(fw: Matrix, g: Greedy, c: int)
    requires IsSquare(fw) && RoutesValid(fw, g.fleet)
    ensures DeliveredTo(WrapUpLog(fw, g), c) == 0
  {
    ReturnEventsAreReturns(fw, g.fleet);
    NoDeliveryLines(WrapUpLog(fw, g), c);
  }

  /**
   * The plan's fleet: one vehicle per capacity, in order, with ids 1, 2, ...; every route starts
   * at the depot; no load is negative or above its capacity; every travel cost is the length of
   * its route; and a vehicle without capacity never leaves the depot.
   */
  lemma PlanFleet(fw: Matrix, capacities: seq<int>, demands: seq<int>)
    requires IsSquare(fw) && |fw| == |demands| + 1
    ensures var f := Plan(fw, capacities, demands).fleet;
      |f| == |capacities| && RoutesValid(fw, f) && LoadsWithin(f) && CostsMatchRoutes(fw, f) &&
      forall i :: 0 <= i < |f| ==>
        f[i].id == i + 1 && f[i].capacity == capacities[i] &&
        (capacities[i] <= 0 && fw[0][0] == 0.0 ==> f[i] == Truck(i + 1, capacities[i], 0, [0], 0.0))
  {
    var g0 := Start(capacities, demands);
    InitialFleetFacts(fw, capacities);
    RunKeepsLoadsWithin(fw, g0);
    RunExtendsFleet(fw, g0);
    ReturnAllFacts(fw, Run(fw, g0).fleet);
  }

  /**
   * What the log reports per client is exactly what the delivery loop took off the client's
   * pending demand.
   */
  lemma PlanDeliveredExact(fw: Matrix, capacities: seq<int>, demands: seq<int>)
    requires IsSquare(fw) && |fw| == |demands| + 1
    ensures var log := Plan(fw, capacities, demands).log;
      var pending := Run(fw, Start(capacities, demands)).pending;
      forall c :: 1 <= c <= |demands| ==> DeliveredTo(log, c) == demands[c - 1] - pending[c - 1]
  {
    var g0 := Start(capacities, demands);
    InitialFleetFacts(fw, capacities);
    RunLogsDeliveries(fw, g0);
    forall c | 1 <= c <= |demands|
      ensures DeliveredTo(Plan(fw, capacities, demands).log, c) == demands[c - 1] - Run(fw, g0).pending[c - 1]
    {
      WrapUpDeliversNothing(fw, Run(fw, g0), c);
      DeliveredToConcat(Run(fw, g0).log, WrapUpLog(fw, Run(fw, g0)), c);
      DeliveredToSnoc([], Started, c);
      assert [] + [Started] == [Started];
    }
  }

  /**
   * What the log reports per client: nothing, or a positive amount that never exceeds the
   * client's demand.
   */
  lemma PlanDeliveries(fw: Matrix, capacities: seq<int>, demands: seq<int>)
    requires IsSquare(fw) && |fw| == |demands| + 1
    ensures var log := Plan(fw, capacities, demands).log;
      forall c :: 1 <= c <= |demands| ==>
        DeliveredTo(log, c) == 0 || 0 < DeliveredTo(log, c) <= demands[c - 1]
  {
    var g0 := Start(capacities, demands);
    InitialFleetFacts(fw, capacities);
    RunKeepsPendingWithin(fw, g0, demands);
    PlanDeliveredExact(fw, capacities, demands);
  }

  /** A sum of non-negative entries is non-negative, and it is zero only when every entry is. */
  lemma {:induction false} SumOfNonNegative(s: seq<int>)
    requires forall k :: 0 <= k < |s| ==> s[k] >= 0
    ensures Sum(s) >= 0
    ensures Sum(s) == 0 ==> forall k :: 0 <= k < |s| ==> s[k] == 0
    decreases |s|
  {
    if |s| > 0 {
      SumOfNonNegative(s[..|s| - 1]);
      assert forall k :: 0 <= k < |s| - 1 ==> s[..|s| - 1][k] == s[k];
    }
  }

  /**
   * When no demand is negative and the plan ends without a shortfall, every client has been
   * delivered its whole demand.
   */
  lemma PlanServesAll(fw: Matrix, capacities: seq<int>, demands: seq<int>)
    requires IsSquare(fw) && |fw| == |demands| + 1
    requires forall k :: 0 <= k < |demands| ==> demands[k] >= 0
    requires Sum(demands) - LoadSum(Plan(fw, capacities, demands).fleet) <= 0
    ensures var log := Plan(fw, capacities, demands).log;
      forall c :: 1 <= c <= |demands| ==> DeliveredTo(log, c) == demands[c - 1]
  {
    var g0 := Start(capacities, demands);
    InitialFleetFacts(fw, capacities);
    RunConserves(fw, g0);
    RunKeepsPendingWithin(fw, g0, demands);
    var g := Run(fw, g0);
    ReturnAllKeepsLoads(fw, g.fleet);
    SumOfNonNegative(g.pending);
    PlanDeliveredExact(fw, capacities, demands);
  }

  /**
   * The report starts with the start line and ends with the alert exactly when demand is left
   * over; the amount it names is the total demand minus everything loaded, and it only happens
   * once every vehicle is full, right after the fleet total. Otherwise the report ends with the
   * fleet total. Either way the fleet total is the sum of the travel costs.
   */
  lemma PlanShortfall(fw: Matrix, capacities: seq<int>, demands: seq<int>)
    requires IsSquare(fw) && |fw| == |demands| + 1
    ensures var o := Plan(fw, capacities, demands);
      var remaining := Sum(demands) - LoadSum(o.fleet);
      |o.log| >= 2 && o.log[0] == Started &&
      (remaining > 0 ==> o.log[|o.log| - 1] == Shortfall(remaining) && AllFull(o.fleet) &&
                         o.log[|o.log| - 2] == FleetTotal(TotalCost(o.fleet))) &&
      (remaining <= 0 ==> o.log[|o.log| - 1] == FleetTotal(TotalCost(o.fleet)))
  {
    var g0 := Start(capacities, demands);
    InitialFleetFacts(fw, capacities);
    RunConserves(fw, g0);
    RunExit(fw, g0);
    RunLogsDeliveries(fw, g0);
    var g := Run(fw, g0);
    ReturnAllKeepsLoads(fw, g.fleet);
    ReturnAllKeepsFull(fw, g.fleet);
  }

  lemma ReturnAllKeepsFull(fw: Matrix, fleet: seq<Truck>)
    requires IsSquare(fw) && RoutesValid(fw, fleet)
    ensures AllFull(fleet) ==> AllFull(ReturnAll(fw, fleet))
  {
  }

  /** When every client is away from the depot, every route ends at the depot once the plan is done. */
  lemma PlanRoutesEndAtDepot(fw: Matrix, capacities: seq<int>, demands: seq<int>)
    requires IsSquare(fw) && |fw| == |demands| + 1 && fw[0][0] == 0.0
    requires forall c :: 1 <= c < |fw| ==> fw[c][0] > 0.0
    ensures var f := Plan(fw, capacities, demands).fleet;
      forall i :: 0 <= i < |f| ==> |f[i].route| >= 1 && f[i].route[0] == 0 && Last(f[i].route) == 0
  {
  }
}
