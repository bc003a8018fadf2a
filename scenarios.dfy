// A worked scenario for the router of module Router, computed end to end.

module Scenarios {
  import opened Distances
  import opened Router

  /** One client, 5 away from the depot. */
  const Line: Matrix := [[0.0, 5.0], [5.0, 0.0]]

  /** Both vehicles wait at the depot; the tie between them goes to the first. */
  lemma FirstDelivery()
    ensures BestMove(Line, Start([40, 40], [100]).fleet, [100]) == Some(Move(0, 1, 5.0))
    ensures Deliver(Line, Start([40, 40], [100]), Move(0, 1, 5.0)) ==
      Greedy([Truck(1, 40, 40, [0, 1], 5.0), Truck(2, 40, 0, [0], 0.0)], [60], 1,
             [Started, Delivered(0, 1, 1, 40)])
  {
    var g0 := Start([40, 40], [100]);
    var m0 := Move(0, 1, 5.0);
    assert g0.fleet == [Truck(1, 40, 0, [0], 0.0), Truck(2, 40, 0, [0], 0.0)];
    assert BestMove(Line, g0.fleet, g0.pending) == Some(m0);
    DeliverParts(Line, g0, m0);
    assert Amount(g0, m0) == 40;
    assert [0] + [1] == [0, 1];
  }

  /** The first vehicle is full; the second one serves the same client. */
  lemma SecondDelivery()
    ensures var g1 := Greedy([Truck(1, 40, 40, [0, 1], 5.0), Truck(2, 40, 0, [0], 0.0)], [60], 1,
                             [Started, Delivered(0, 1, 1, 40)]);
      BestMove(Line, g1.fleet, g1.pending) == Some(Move(1, 1, 5.0)) &&
      Deliver(Line, g1, Move(1, 1, 5.0)) ==
        Greedy([Truck(1, 40, 40, [0, 1], 5.0), Truck(2, 40, 40, [0, 1], 5.0)], [20], 2,
               [Started, Delivered(0, 1, 1, 40), Delivered(1, 2, 1, 40)])
  {
    var g1 := Greedy([Truck(1, 40, 40, [0, 1], 5.0), Truck(2, 40, 0, [0], 0.0)], [60], 1,
                     [Started, Delivered(0, 1, 1, 40)]);
    var m1 := Move(1, 1, 5.0);
    assert ScanClients(Line, g1.fleet, g1.pending, 1, 0, None) == Some(m1);
    assert BestMove(Line, g1.fleet, g1.pending) == Some(m1);
    DeliverParts(Line, g1, m1);
    assert Amount(g1, m1) == 40;
    assert [0] + [1] == [0, 1];
  }

  /** The delivery loop: two deliveries, then the fleet is full with 20 units still pending. */
  lemma DeliveryLoop()
    ensures Run(Line, Start([40, 40], [100])) == Loaded
  {
    var g0 := Start([40, 40], [100]);
    FirstDelivery();
    SecondDelivery();
    var g1 := Deliver(Line, g0, Move(0, 1, 5.0));
    var g2 := Deliver(Line, g1, Move(1, 1, 5.0));
    assert AllFull(g2.fleet);
    assert Run(Line, g1) == Run(Line, g2);
  }

  /** The state the delivery loop ends in. */
  const Loaded: Greedy :=
    Greedy([Truck(1, 40, 40, [0, 1], 5.0), Truck(2, 40, 40, [0, 1], 5.0)], [20], 2,
           [Started, Delivered(0, 1, 1, 40), Delivered(1, 2, 1, 40), FleetFull])

  /** Both vehicles end at the client and drive the 5 back; 20 units are left over. */
  lemma WrapUp()
    ensures ReturnAll(Line, Loaded.fleet) == [Truck(1, 40, 40, [0, 1, 0], 10.0), Truck(2, 40, 40, [0, 1, 0], 10.0)]
    ensures WrapUpLog(Line, Loaded) ==
      [DeliveriesOver, ReturnedHome(1, 5.0, 10.0), ReturnedHome(2, 5.0, 10.0), FleetTotal(20.0), Shortfall(20)]
  {
    var f := Loaded.fleet;
    assert [0, 1] + [0] == [0, 1, 0];
    assert ReturnHome(Line, f[0]) == Truck(1, 40, 40, [0, 1, 0], 10.0);
    assert ReturnHome(Line, f[1]) == Truck(2, 40, 40, [0, 1, 0], 10.0);
    var back := ReturnAll(Line, f);
    assert back == [Truck(1, 40, 40, [0, 1, 0], 10.0), Truck(2, 40, 40, [0, 1, 0], 10.0)];
    assert f[..1] == [f[0]] && back[..1] == [back[0]];
    assert ReturnEvents(Line, f[..1]) == [ReturnedHome(1, 5.0, 10.0)];
    assert ReturnEvents(Line, f) == [ReturnedHome(1, 5.0, 10.0), ReturnedHome(2, 5.0, 10.0)];
    assert TotalCost(back[..1]) == 10.0;
    assert TotalCost(back) == 20.0;
    assert Sum(Loaded.pending) == 20;
  }

  /**
   * Two vehicles of 40 for a client wanting 100: both unload 40, both drive home, and the
   * report ends with the 20 units not delivered.
   */
  lemma ShortfallScenario()
    ensures Plan(Line, [40, 40], [100]).fleet ==
      [Truck(1, 40, 40, [0, 1, 0], 10.0), Truck(2, 40, 40, [0, 1, 0], 10.0)]
    ensures Plan(Line, [40, 40], [100]).log ==
      [Started, Delivered(0, 1, 1, 40), Delivered(1, 2, 1, 40), FleetFull, DeliveriesOver,
       ReturnedHome(1, 5.0, 10.0), ReturnedHome(2, 5.0, 10.0), FleetTotal(20.0), Shortfall(20)]
  {
    DeliveryLoop();
    WrapUp();
  }

  /** Two clients, 5 apart from each other and from the depot. */
  const Tri: Matrix := [[0.0, 5.0, 5.0], [5.0, 0.0, 5.0], [5.0, 5.0, 0.0]]

  /**
   * A negative demand cancels a positive one: the pending sum is 0 before the first step, so
   * the loop stops at once, client 2 still waits for 5 units, and no alert is raised.
   */
  lemma NegativeDemandStopsEarly()
    ensures Run(Tri, Start([10], [-5, 5])).pending == [-5, 5]
    ensures Plan(Tri, [10], [-5, 5]).fleet == [Truck(1, 10, 0, [0], 0.0)]
    ensures Plan(Tri, [10], [-5, 5]).log == [Started, DeliveriesOver, FleetTotal(0.0)]
  {
    var g := Start([10], [-5, 5]);
    assert g.fleet == [Truck(1, 10, 0, [0], 0.0)];
    assert Sum(g.pending) == 0;
    assert Run(Tri, g) == g;
    assert ReturnAll(Tri, g.fleet) == g.fleet;
    assert ReturnEvents(Tri, g.fleet) == [];
    assert TotalCost(g.fleet) == 0.0;
  }
}
