// The routing controller of src/logic.py: scenario generation, demand edits,
// the distance matrices and the fleet router, as a class whose methods are
// proved to compute the functions of modules Distances and Router.

module Logic {
  import opened Models
  import opened Distances
  import opened Router

  /** The value view of one vehicle object. */
  function View(v: Vehicle): Truck
    reads v
  {
    Truck(v.id, v.capacity, v.load, v.route, v.travelCost)
  }

  /** The value view of a list of vehicle objects. */
  function Snapshot(vs: seq<Vehicle>): (r: seq<Truck>)
    reads vs
    ensures |r| == |vs| && forall i :: 0 <= i < |vs| ==> r[i] == View(vs[i])
  {
    seq(|vs|, i reads vs requires 0 <= i < |vs| => View(vs[i]))
  }

  /** The contents of a two-dimensional array, row by row. */
  function Rows(a: array2<real>): (r: Matrix)
    reads a
    ensures |r| == a.Length0 && forall i :: 0 <= i < a.Length0 ==> |r[i]| == a.Length1
    ensures forall i, j :: 0 <= i < a.Length0 && 0 <= j < a.Length1 ==> r[i][j] == a[i, j]
  {
    seq(a.Length0, i reads a requires 0 <= i < a.Length0 =>
      seq(a.Length1, j reads a requires 0 <= j < a.Length1 => a[i, j]))
  }

  /** The depot is at index 0 and client i at index i: a location's id is its index. */
  predicate ScenarioShape(locs: seq<Location>)
  {
    forall i :: 0 <= i < |locs| ==> locs[i].id == i && locs[i].isDepot == (i == 0)
  }

  /** The initial pending map's values: the demands of the non-depot locations, in list order. */
  function ClientDemands(locs: seq<Location>): seq<int>
    reads locs
  {
    if |locs| == 0 then []
    else ClientDemands(locs[..|locs| - 1]) +
         (if locs[|locs| - 1].isDepot then [] else [locs[|locs| - 1].demand])
  }

  /** In a generated scenario the pending map holds client i's demand under index i - 1. */
  lemma {:induction false} ClientDemandsOfScenario(locs: seq<Location>)
    requires |locs| > 0 && ScenarioShape(locs)
    ensures |ClientDemands(locs)| == |locs| - 1
    ensures forall k :: 0 <= k < |locs| - 1 ==> ClientDemands(locs)[k] == locs[k + 1].demand
    decreases |locs|
  {
    if |locs| > 1 {
      ClientDemandsOfScenario(locs[..|locs| - 1]);
    } else {
      assert locs[..0] == [];
    }
  }

  /** Vehicle i has id i + 1; in particular no vehicle object appears twice. */
  predicate FleetShape(vs: seq<Vehicle>)
  {
    forall i :: 0 <= i < |vs| ==> vs[i].id == i + 1
  }

  class RoutingController {
    var locations: seq<Location>
    var vehicles: seq<Vehicle>
    var distMatrix: Matrix
    var fwDistMatrix: Matrix
    /** The straight-line distance between two points, supplied from outside. */
    const metric: (int, int, int, int) -> real

    ghost predicate Valid()
      reads this
    {
      (forall x1, y1, x2, y2 :: metric(x1, y1, x2, y2) >= 0.0) &&
      (forall x1, y1, x2, y2 :: metric(x1, y1, x2, y2) == metric(x2, y2, x1, y1)) &&
      ScenarioShape(locations) &&
      IsSquare(distMatrix) && |distMatrix| == |locations| &&
      NonNegative(distMatrix) && ZeroDiagonal(distMatrix) && Symmetric(distMatrix)
    }

    constructor (metric: (int, int, int, int) -> real)
      requires forall x1, y1, x2, y2 :: metric(x1, y1, x2, y2) >= 0.0
      requires forall x1, y1, x2, y2 :: metric(x1, y1, x2, y2) == metric(x2, y2, x1, y1)
      ensures Valid() && this.metric == metric
      ensures locations == [] && vehicles == [] && distMatrix == [] && fwDistMatrix == []
    {
      this.metric := metric;
      locations := [];
      vehicles := [];
      distMatrix := [];
      fwDistMatrix := [];
    }

    /**
     * A new scenario: the depot (id 0, no demand) in the middle of the area, then client
     * i + 1 with demands[i] at the given coordinates; the direct distances are recomputed.
     */
    method GenerateScenarioFromDemands(demands: seq<int>, width: int, height: int, coords: seq<(int, int)>)
      returns (count: int)
      requires Valid() && |coords| == |demands|
      // What random.randint(50, width - 50) and random.randint(50, height - 50) can return.
      requires forall i :: 0 <= i < |coords| ==> 50 <= coords[i].0 <= width - 50 && 50 <= coords[i].1 <= height - 50
      modifies this
      ensures Valid()
      ensures count == |locations| == |demands| + 1
      ensures vehicles == old(vehicles) && fwDistMatrix == old(fwDistMatrix)
      ensures forall i :: 0 <= i < |locations| ==> fresh(locations[i])
      ensures locations[0].id == 0 && locations[0].isDepot && locations[0].demand == 0
      ensures locations[0].x == width / 2 && locations[0].y == height / 2
      ensures forall i :: 1 <= i < |locations| ==>
        locations[i].id == i && !locations[i].isDepot && locations[i].demand == demands[i - 1] &&
        locations[i].x == coords[i - 1].0 && locations[i].y == coords[i - 1].1
      ensures forall i, j :: 0 <= i < |locations| && 0 <= j < |locations| ==>
        distMatrix[i][j] == if i == j then 0.0
                            else metric(locations[i].x, locations[i].y, locations[j].x, locations[j].y)
    {
      locations := [];
      // Integer division by 2 rounds down, as Python's // does.
      var depot := new Location(0, width / 2, height / 2, 0, true);
      locations := locations + [depot];
      for i := 0 to |demands|
        invariant |locations| == i + 1 && locations[0] == depot
        invariant forall j :: 0 <= j < |locations| ==> fresh(locations[j])
        invariant forall j :: 1 <= j < |locations| ==>
          locations[j].id == j && !locations[j].isDepot && locations[j].demand == demands[j - 1] &&
          locations[j].x == coords[j - 1].0 && locations[j].y == coords[j - 1].1
        invariant vehicles == old(vehicles) && fwDistMatrix == old(fwDistMatrix)
        invariant depot.demand == 0
      {
        var client := new Location(i + 1, coords[i].0, coords[i].1, demands[i], false);
        locations := locations + [client];
      }
      CalculateDistances();
      count := |locations|;
    }

    /** Sets the demand of the client with that id; the depot and unknown ids are ignored. */
    method UpdateDemand(nodeId: int, newDemand: int)
      requires Valid()
      modifies locations
      ensures Valid()
      ensures forall i :: 0 <= i < |locations| ==>
        locations[i].demand == if locations[i].id == nodeId && !locations[i].isDepot then newDemand
                               else old(locations[i].demand)
    {
      for i := 0 to |locations|
        invariant forall j :: 0 <= j < |locations| ==>
          locations[j].demand == if j < i && locations[j].id == nodeId && !locations[j].isDepot then newDemand
                                 else old(locations[j].demand)
      {
        var loc := locations[i];
        if loc.id == nodeId && !loc.isDepot {
          loc.demand := newDemand;
          break;
        }
      }
    }

    /** The direct-distance matrix: square over the locations, zero on the diagonal, the metric elsewhere. */
    method CalculateDistances()
      requires forall x1, y1, x2, y2 :: metric(x1, y1, x2, y2) >= 0.0
      requires forall x1, y1, x2, y2 :: metric(x1, y1, x2, y2) == metric(x2, y2, x1, y1)
      modifies this`distMatrix
      ensures IsSquare(distMatrix) && |distMatrix| == |locations|
      ensures NonNegative(distMatrix) && ZeroDiagonal(distMatrix) && Symmetric(distMatrix)
      ensures forall i, j :: 0 <= i < |locations| && 0 <= j < |locations| ==>
        distMatrix[i][j] == if i == j then 0.0
                            else metric(locations[i].x, locations[i].y, locations[j].x, locations[j].y)
    {
      var n := |locations|;
      var d := new real[n, n];
      for i := 0 to n
        invariant forall a, b :: 0 <= a < i && 0 <= b < n ==>
          d[a, b] == if a == b then 0.0 else metric(locations[a].x, locations[a].y, locations[b].x, locations[b].y)
      {
        d[i, i] := 0.0;
        for j := 0 to n
          invariant d[i, i] == 0.0
          invariant forall b :: 0 <= b < j && b != i ==>
            d[i, b] == metric(locations[i].x, locations[i].y, locations[b].x, locations[b].y)
          invariant forall a, b :: 0 <= a < i && 0 <= b < n ==>
            d[a, b] == if a == b then 0.0 else metric(locations[a].x, locations[a].y, locations[b].x, locations[b].y)
        {
          if i != j {
            var l1 := locations[i];
            var l2 := locations[j];
            d[i, j] := metric(l1.x, l1.y, l2.x, l2.y);
          }
        }
      }
      distMatrix := Rows(d);
    }

    /** All-pairs shortest paths, relaxed in place on a copy of the direct-distance matrix. */
    method RunFloydWarshall()
      requires Valid()
      modifies this`fwDistMatrix
      ensures fwDistMatrix == FloydWarshall(distMatrix) && Symmetric(fwDistMatrix)
    {
      var n := |locations|;
      var dist := CopyRows(distMatrix);
      for k := 0 to n
        invariant forall a, b :: 0 <= a < n && 0 <= b < n ==> dist[a, b] == FloydWarshallUpTo(distMatrix, k)[a][b]
      {
        FloydWarshallNonNegative(distMatrix, k);
        RelaxThrough(dist, k, FloydWarshallUpTo(distMatrix, k));
      }
      fwDistMatrix := Rows(dist);
      RowsAre(dist, FloydWarshall(distMatrix));
      FloydWarshallSymmetric(distMatrix, n);
    }

    /** Whether no vehicle has spare capacity (vacuously so for an empty fleet). */
    method FleetIsFull() returns (allFull: bool)
      ensures allFull <==> AllFull(Snapshot(vehicles))
    {
      allFull := true;
      for i := 0 to |vehicles|
        invariant allFull && forall j :: 0 <= j < i ==> vehicles[j].load >= vehicles[j].capacity
      {
        var v := vehicles[i];
        if v.load < v.capacity {
          allFull := false;
          break;
        }
      }
    }

    /**
     * The scan over every vehicle with spare capacity and every client with pending demand,
     * keeping the first pair at the smallest shortest-path distance.
     */
    method FindBestMove(pending: seq<int>) returns (best: Option<Move>)
      requires WellFormed(fwDistMatrix, Snapshot(vehicles), pending)
      ensures best == BestMove(fwDistMatrix, Snapshot(vehicles), pending)
    {
      ghost var fleet := Snapshot(vehicles);
      best := None;
      for vi := 0 to |vehicles|
        invariant ScanVehicles(fwDistMatrix, fleet, pending, vi, best) == BestMove(fwDistMatrix, fleet, pending)
      {
        var veh := vehicles[vi];
        if veh.load < veh.capacity {
          var currentNode := veh.route[|veh.route| - 1];
          ghost var before := best;
          for ci := 0 to |pending|
            invariant ScanClients(fwDistMatrix, fleet, pending, vi, ci, best) ==
                      ScanClients(fwDistMatrix, fleet, pending, vi, 0, before)
          {
            var amount := pending[ci];
            if amount > 0 {
              var d := fwDistMatrix[currentNode][ci + 1];
              if best.None? || d < best.value.dist {
                best := Some(Move(vi, ci + 1, d));
              }
            }
          }
        }
      }
    }

    /** One fresh vehicle per capacity, in list order, with ids 1, 2, ..., each at the depot. */
    method InitializeFleet(capacities: seq<int>)
      modifies this`vehicles
      ensures Snapshot(vehicles) == InitialFleet(capacities) && FleetShape(vehicles)
      ensures forall i :: 0 <= i < |vehicles| ==> fresh(vehicles[i])
    {
      vehicles := [];
      for idx := 0 to |capacities|
        invariant Snapshot(vehicles) == InitialFleet(capacities[..idx]) && FleetShape(vehicles)
        invariant forall i :: 0 <= i < |vehicles| ==> fresh(vehicles[i])
      {
        var v := new Vehicle(idx + 1, capacities[idx]);
        v.route := [0];
        vehicles := vehicles + [v];
        assert capacities[..idx + 1] == capacities[..idx] + [capacities[idx]];
      }
      assert capacities[..|capacities|] == capacities;
    }

    /** The delivery loop: repeatedly carry out the best move until demand or capacity runs out. */
    method DeliverAll(pending0: seq<int>, log0: seq<Event>) returns (pending: seq<int>, log: seq<Event>)
      requires FleetShape(vehicles) && WellFormed(fwDistMatrix, Snapshot(vehicles), pending0)
      modifies vehicles
      ensures var g := Run(fwDistMatrix, Greedy(old(Snapshot(vehicles)), pending0, 0, log0));
        Snapshot(vehicles) == g.fleet && pending == g.pending && log == g.log
    {
      ghost var g0 := Greedy(Snapshot(vehicles), pending0, 0, log0);
      pending, log := pending0, log0;
      var stepCount := 0;
      while true
        invariant WellFormed(fwDistMatrix, Snapshot(vehicles), pending)
        invariant Run(fwDistMatrix, Greedy(Snapshot(vehicles), pending, stepCount, log)) == Run(fwDistMatrix, g0)
        decreases Sum(pending)
      {
        ghost var g := Greedy(Snapshot(vehicles), pending, stepCount, log);
        var totalPending := Sum(pending);
        if totalPending <= 0 {
          break;
        }
        var allFull := FleetIsFull();
        if allFull {
          log := log + [FleetFull];
          break;
        }
        var best := FindBestMove(pending);
        if best.None? {
          break;
        }
        var m := best.value;
        pending, log := CarryOut(m, pending, stepCount, log);
        stepCount := stepCount + 1;
        RunTakesBestMove(fwDistMatrix, g, m);
      }
    }

    /** One delivery step for the chosen move, on the vehicle object, the pending map and the log. */
    method CarryOut(m: Move, pending: seq<int>, stepCount: nat, log: seq<Event>) returns (pending': seq<int>, log': seq<Event>)
      requires FleetShape(vehicles) && WellFormed(fwDistMatrix, Snapshot(vehicles), pending)
      requires IsMove(fwDistMatrix, Snapshot(vehicles), pending, m)
      modifies vehicles[m.vehicle]
      ensures Greedy(Snapshot(vehicles), pending', stepCount + 1, log') ==
              Deliver(fwDistMatrix, Greedy(old(Snapshot(vehicles)), pending, stepCount, log), m)
    {
      ghost var g := Greedy(Snapshot(vehicles), pending, stepCount, log);
      var veh := vehicles[m.vehicle];
      var space := veh.capacity - veh.load;
      var needed := pending[m.client - 1];
      var deliver := Min(space, needed);
      assert deliver == Amount(g, m);
      Visit(m.vehicle, m.client, deliver, m.dist);
      pending' := pending[m.client - 1 := needed - deliver];
      log' := log + [Delivered(stepCount, veh.id, m.client, deliver)];
      DeliverParts(fwDistMatrix, g, m);
    }

    /** Vehicle v drives to the client, unloads `deliver` units and adds the leg to its cost. */
    method Visit(v: nat, client: int, deliver: int, dist: real)
      requires v < |vehicles| && FleetShape(vehicles)
      modifies vehicles[v]
      ensures Snapshot(vehicles) == old(Snapshot(vehicles))[v := old(View(vehicles[v])).(
        route := old(vehicles[v].route) + [client],
        load := old(vehicles[v].load) + deliver,
        travelCost := old(vehicles[v].travelCost) + dist)]
    {
      var veh := vehicles[v];
      veh.route := veh.route + [client];
      veh.load := veh.load + deliver;
      veh.travelCost := veh.travelCost + dist;
    }

    /** Every vehicle away from the depot goes back; the fleet total is summed on the way. */
    method ReturnVehiclesHome(log0: seq<Event>) returns (log: seq<Event>, totalFleetDist: real)
      requires FleetShape(vehicles) && IsSquare(fwDistMatrix) && RoutesValid(fwDistMatrix, Snapshot(vehicles))
      modifies vehicles
      ensures Snapshot(vehicles) == ReturnAll(fwDistMatrix, old(Snapshot(vehicles)))
      ensures log == log0 + ReturnEvents(fwDistMatrix, old(Snapshot(vehicles)))
      ensures totalFleetDist == TotalCost(Snapshot(vehicles))
    {
      log, totalFleetDist := ReturnFleet(vehicles, fwDistMatrix, log0);
    }

    /**
     * The router. An empty scenario is answered with a message and nothing else; otherwise the
     * shortest paths are recomputed and the vehicles and the report are those of Plan.
     */
    method SolveMultivehicleVrp(capacities: seq<int>) returns (result: seq<Vehicle>, log: seq<Event>)
      requires Valid()
      modifies this
      ensures Valid() && locations == old(locations) && distMatrix == old(distMatrix)
      ensures |locations| == 0 ==>
        result == [] && log == [ScenarioEmpty] && vehicles == old(vehicles) && fwDistMatrix == old(fwDistMatrix)
      ensures |locations| > 0 ==>
        fwDistMatrix == FloydWarshall(distMatrix) && Symmetric(fwDistMatrix) &&
        |ClientDemands(locations)| + 1 == |locations| &&
        result == vehicles && (forall i :: 0 <= i < |vehicles| ==> fresh(vehicles[i]))
      ensures |locations| > 0 ==>
        var o := Plan(fwDistMatrix, capacities, ClientDemands(locations));
        Snapshot(vehicles) == o.fleet && log == o.log
    {
      if |locations| == 0 {
        return [], [ScenarioEmpty];
      }
      RunFloydWarshall();
      InitializeFleet(capacities);
      ClientDemandsOfScenario(locations);
      log := Dispatch(capacities, ClientDemands(locations));
      result := vehicles;
    }

    /**
     * The part of the router after the shortest paths and the fleet are in place: the delivery
     * loop, the return legs, the fleet total and the shortfall alert.
     */
    method Dispatch(capacities: seq<int>, demands: seq<int>) returns (log: seq<Event>)
      requires FleetShape(vehicles) && Snapshot(vehicles) == InitialFleet(capacities)
      requires IsSquare(fwDistMatrix) && |fwDistMatrix| == |demands| + 1
      modifies vehicles
      ensures var o := Plan(fwDistMatrix, capacities, demands); Snapshot(vehicles) == o.fleet && log == o.log
    {
      var pending := demands;
      log := [Started];
      pending, log := DeliverAll(pending, log);
      ghost var g := Run(fwDistMatrix, Start(capacities, demands));
      log := log + [DeliveriesOver];
      var total;
      log, total := ReturnVehiclesHome(log);
      log := log + [FleetTotal(total)];
      var remaining := Sum(pending);
      if remaining > 0 {
        log := log + [Shortfall(remaining)];
      }
      WrapUpLogParts(fwDistMatrix, g);
    }
  }

  /** The wrap-up log, in the order in which it is appended. */
  lemma WrapUpLogParts(fw: Matrix, g: Greedy)
    requires IsSquare(fw) && RoutesValid(fw, g.fleet)
    ensures g.log + WrapUpLog(fw, g) ==
      g.log + [DeliveriesOver] + ReturnEvents(fw, g.fleet) + [FleetTotal(TotalCost(ReturnAll(fw, g.fleet)))] +
      (if Sum(g.pending) > 0 then [Shortfall(Sum(g.pending))] else [])
  {
  }

  /** The loop of ReturnVehiclesHome over the vehicle objects, vehicle by vehicle. */
  method ReturnFleet(vs: seq<Vehicle>, fw: Matrix, log0: seq<Event>) returns (log: seq<Event>, total: real)
    requires FleetShape(vs) && IsSquare(fw) && RoutesValid(fw, Snapshot(vs))
    modifies vs
    ensures Snapshot(vs) == ReturnAll(fw, old(Snapshot(vs)))
    ensures log == log0 + ReturnEvents(fw, old(Snapshot(vs)))
    ensures total == TotalCost(Snapshot(vs))
  {
    ghost var before := Snapshot(vs);
    ghost var after := ReturnAll(fw, before);
    MixEnds(before, after);
    log := log0;
    total := 0.0;
    for i := 0 to |vs|
      invariant Snapshot(vs) == after[..i] + before[i..]
      invariant log == log0 + ReturnEvents(fw, before[..i])
      invariant total == TotalCost(after[..i])
    {
      log, total := ReturnStep(vs, fw, i, log0, log, total, before, after);
    }
    TotalCostWhole(after, total);
  }

  /** The running total over every vehicle is the fleet total. */
  lemma TotalCostWhole(fleet: seq<Truck>, total: real)
    requires total == TotalCost(fleet[..|fleet|])
    ensures total == TotalCost(fleet)
  {
    assert fleet[..|fleet|] == fleet;
  }

  /** The blend of returned and not yet returned vehicles, before the first and after the last. */
  lemma MixEnds(before: seq<Truck>, after: seq<Truck>)
    requires |before| == |after|
    ensures after[..0] + before[0..] == before && before[..0] == [] && after[..0] == []
    ensures after[..|after|] + before[|before|..] == after && before[..|before|] == before
  {
  }

  /** One pass of ReturnFleet's loop: vehicle i goes home, its leg is logged and its cost added. */
  method ReturnStep(vs: seq<Vehicle>, fw: Matrix, i: nat, ghost log0: seq<Event>, log: seq<Event>, total: real,
                    ghost before: seq<Truck>, ghost after: seq<Truck>)
    returns (log': seq<Event>, total': real)
    requires FleetShape(vs) && IsSquare(fw) && RoutesValid(fw, before) && after == ReturnAll(fw, before)
    requires i < |vs| == |before|
    requires Snapshot(vs) == after[..i] + before[i..]
    requires log == log0 + ReturnEvents(fw, before[..i])
    requires total == TotalCost(after[..i])
    modifies vs[i]
    ensures Snapshot(vs) == after[..i + 1] + before[i + 1..]
    ensures log' == log0 + ReturnEvents(fw, before[..i + 1])
    ensures total' == TotalCost(after[..i + 1])
  {
    ReturnStepFacts(fw, before, after, i);
    log' := ReturnOne(vs, i, fw, log);
    total' := total + vs[i].travelCost;
    ReturnEventsPrefix(fw, before, i);
    TotalCostPrefix(after, i);
  }

  /** Returning vehicle i home turns the first i returned vehicles into the first i + 1. */
  lemma ReturnStepFacts(fw: Matrix, before: seq<Truck>, after: seq<Truck>, i: nat)
    requires IsSquare(fw) && RoutesValid(fw, before) && after == ReturnAll(fw, before) && i < |before|
    ensures (after[..i] + before[i..])[i] == before[i]
    ensures (after[..i] + before[i..])[i := ReturnHome(fw, before[i])] == after[..i + 1] + before[i + 1..]
  {
    var mixed := after[..i] + before[i..];
    var next := after[..i + 1] + before[i + 1..];
    assert |mixed[i := ReturnHome(fw, before[i])]| == |next|;
    forall j | 0 <= j < |next|
      ensures mixed[i := ReturnHome(fw, before[i])][j] == next[j]
    {
    }
  }

  /** Vehicle i returns to the depot when its last stop is at a positive distance from it. */
  method ReturnOne(vs: seq<Vehicle>, i: nat, fw: Matrix, log: seq<Event>) returns (log': seq<Event>)
    requires i < |vs| && FleetShape(vs) && IsSquare(fw) && ValidRoute(vs[i].route, |fw|)
    modifies vs[i]
    ensures Snapshot(vs) == old(Snapshot(vs))[i := ReturnHome(fw, old(View(vs[i])))]
    ensures log' == log + ReturnEvent(fw, old(View(vs[i])))
  {
    var veh := vs[i];
    var lastNode := veh.route[|veh.route| - 1];
    var distHome := fw[lastNode][0];
    log' := log;
    if distHome > 0.0 {
      veh.route := veh.route + [0];
      veh.travelCost := veh.travelCost + distHome;
      log' := log' + [ReturnedHome(veh.id, distHome, veh.travelCost)];
    }
  }

  /**
   * One pass of the outer loop, in place: every pair relaxed through k. Row k and column k
   * cannot change while the entries are non-negative, so the in-place pass equals Relax.
   */
  method RelaxThrough(dist: array2<real>, k: nat, ghost d: Matrix)
    requires IsSquare(d) && k < |d| && NonNegative(d)
    requires dist.Length0 == |d| && dist.Length1 == |d|
    requires forall a, b :: 0 <= a < |d| && 0 <= b < |d| ==> dist[a, b] == d[a][b]
    modifies dist
    ensures forall a, b :: 0 <= a < |d| && 0 <= b < |d| ==> dist[a, b] == Relax(d, k)[a][b]
  {
    var n := dist.Length0;
    for i := 0 to n
      invariant forall a, b :: 0 <= a < n && 0 <= b < n ==>
        dist[a, b] == if a < i then RelaxAt(d, k, a, b) else d[a][b]
    {
      for j := 0 to n
        invariant forall a, b :: 0 <= a < n && 0 <= b < n ==>
          dist[a, b] == if a < i || (a == i && b < j) then RelaxAt(d, k, a, b) else d[a][b]
      {
        if dist[i, j] > dist[i, k] + dist[k, j] {
          dist[i, j] := dist[i, k] + dist[k, j];
        }
      }
    }
  }

  /** `[row[:] for row in m]`: a fresh array holding the entries of a square matrix. */
  method CopyRows(m: Matrix) returns (a: array2<real>)
    requires IsSquare(m)
    ensures fresh(a) && a.Length0 == |m| && a.Length1 == |m|
    ensures forall i, j :: 0 <= i < |m| && 0 <= j < |m| ==> a[i, j] == m[i][j]
  {
    var n := |m|;
    a := new real[n, n];
    for i := 0 to n
      invariant forall r, c :: 0 <= r < i && 0 <= c < n ==> a[r, c] == m[r][c]
    {
      for j := 0 to n
        invariant forall c :: 0 <= c < j ==> a[i, c] == m[i][c]
        invariant forall r, c :: 0 <= r < i && 0 <= c < n ==> a[r, c] == m[r][c]
      {
        a[i, j] := m[i][j];
      }
    }
  }

  lemma RowsAre(a: array2<real>, m: Matrix)
    requires IsSquare(m) && a.Length0 == |m| && a.Length1 == |m|
    requires forall i, j :: 0 <= i < |m| && 0 <= j < |m| ==> a[i, j] == m[i][j]
    ensures Rows(a) == m
  {
    var r := Rows(a);
    forall i | 0 <= i < |m|
      ensures r[i] == m[i]
    {
    }
  }
}
