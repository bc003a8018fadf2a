// The two mutable records of the routing system: clients/depot and trucks.

module Models {

  /** A client or the depot. Only `demand` is ever changed after creation. */
  class Location {
    const id: int
    const x: int
    const y: int
    var demand: int
    const isDepot: bool

    constructor (id: int, x: int, y: int, demand: int, isDepot: bool)
      ensures this.id == id && this.x == x && this.y == y
      ensures this.demand == demand && this.isDepot == isDepot
    {
      this.id := id;
      this.x := x;
      this.y := y;
      this.demand := demand;
      this.isDepot := isDepot;
    }
  }

  /** A truck of the fleet: its load, its route and the distance it has covered grow during a solve. */
  class Vehicle {
    const id: int
    const capacity: int
    var load: int
    var route: seq<int>
    var travelCost: real

    constructor (id: int, capacity: int)
      ensures this.id == id && this.capacity == capacity
      ensures load == 0 && route == [] && travelCost == 0.0
    {
      this.id := id;
      this.capacity := capacity;
      load := 0;
      route := [];
      travelCost := 0.0;
    }
  }
}
