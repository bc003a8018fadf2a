# Fleet routing engine, modelled in Dafny

This project models the routing engine of a small vehicle-routing application. The engine is
the `RoutingController` of `src/logic.py`, together with the two records it mutates from
`src/models.py`.

The controller does four things:

- It builds a scenario: the depot at index 0 and client `i + 1` carrying the i-th demand.
- It lets one client's demand be edited in place.
- It computes the direct-distance matrix and all-pairs shortest paths, the latter with
  Floyd–Warshall.
- It runs a parallel greedy router:
  - one truck per capacity;
  - at each step, the globally nearest pair of a truck with spare room and a client with
    pending demand is served, the first pair in scan order winning ties;
  - the truck delivers as much as fits;
  - when the loop stops, every truck drives home if the way back is positive;
  - the fleet distance is summed, and an alert names any demand left over.

The model has four layers.

- `Models` (`models.dfy`): `Location` and `Vehicle` as classes with the source's fields.
  Fields the source never reassigns are `const`.
- `Distances` (`distances.dfy`): values and lemmas for the Floyd–Warshall side.
  - `Relax` is one textbook phase through intermediate `k`, and `FloydWarshall(d)` is phases
    0 .. n-1.
  - The lemmas prove that the result is below the direct distances, keeps a zero diagonal and
    keeps a symmetric matrix symmetric.
  - They also prove the Floyd–Warshall postcondition: the triangle inequality through every
    intermediate.
  - A matrix that already satisfies the triangle inequality is left unchanged.
- `Router` (`router.dfy`) and `RouterProperties` (`router_properties.dfy`): the greedy router
  as functions over value snapshots (`Truck`) of the vehicles.
  - `BestMove` is the scan, `Deliver` one step, `Run` the `while True` loop, `ReturnAll` the
    return legs, and `Plan` the whole solve.
  - The report is a sequence of `Event`s rather than text.
  - The lemmas state what the loop keeps and what the plan delivers.
- `Logic` (`logic.dfy`): the `RoutingController` class.
  - Its methods work in place, as the source does: on `Location` and `Vehicle` objects, on a
    two-dimensional array for the in-place Floyd–Warshall triple loop, and with the same loops
    and early exits.
  - Each method is proved to compute the functions above. For example, `SolveMultivehicleVrp`
    leaves in its vehicle objects exactly `Plan(...).fleet` and returns `Plan(...).log`.
- `Scenarios` (`scenarios.dfy`): two worked runs of `Plan`: a fleet shortfall and the negative-demand early stop.

Some modelling choices follow from how the source works:

- The pending map `{loc.id: loc.demand ...}` becomes a sequence whose entry `k` belongs to
  client id `k + 1`. Python dictionaries iterate in insertion order, and the map is built
  from the location list, so the router scans clients in ascending id order.
- The router uses ids directly as matrix indices, so the model keeps `locations[i].id == i`
  as part of the controller's invariant `Valid()`. `GenerateScenarioFromDemands` establishes
  it and `UpdateDemand` keeps it.
- The distance function (`math.sqrt` of the squared coordinate differences) is a
  caller-supplied function `metric`, fixed when the controller is built. It is assumed
  non-negative and symmetric, as the Euclidean distance is.
  Distances are `real`.
- The random coordinates of the clients are a parameter `coords` of
  `GenerateScenarioFromDemands`. It is constrained to the range `random.randint(50, width - 50)`
  and `random.randint(50, height - 50)` can return.
- Floyd–Warshall in place equals the textbook phase-by-phase definition as long as no entry is
  negative. In phase `k`, row `k` and column `k` cannot change, since `d[i][k] + d[k][k]` is
  never below `d[i][k]`. `RelaxThrough` relies on this.

The source has one behaviour worth knowing about. The loop stops as soon as the sum of
pending demand is at most 0. So a negative demand can let the loop stop while another client
still waits, and the final alert is only raised when the remaining sum is positive. The model
keeps this behaviour. Its invariants are stated for arbitrary integer demands: a pending
entry is either untouched or lowered and non-negative. `Scenarios.NegativeDemandStopsEarly`
works one such run through: demands -5 and 5 end the loop before any delivery, without an alert.

## Model

| member | source | states |
|---|---|---|
| Models.Location.constructor | src/models.py:3-8 | every field holds the given id, coordinates, demand and depot flag |
| Models.Vehicle.constructor | src/models.py:12-17 | the new vehicle has the given id and capacity, no load, an empty route and no distance driven |
| Logic.RoutingController.constructor | src/logic.py:6-10 | a new controller, built over a non-negative symmetric metric, has no locations, no vehicles and empty matrices, and satisfies the controller invariant |
| Logic.RoutingController.GenerateScenarioFromDemands | src/logic.py:15-29 | the result and the location count are `len(demands) + 1`; location 0 is the depot with id 0, demand 0, at `(width // 2, height // 2)`; location i ≥ 1 has id i, demand `demands[i-1]`, is no depot and stands at the i-th coordinates; all locations are new objects; the distance matrix is recomputed, vehicles and shortest paths are untouched, and the controller invariant holds |
| Logic.RoutingController.UpdateDemand | src/logic.py:35-39 | exactly the non-depot location with that id gets the new demand; every other demand is unchanged (no-op for the depot or an unknown id); the controller invariant is kept |
| Logic.RoutingController.CalculateDistances | src/logic.py:44-55 | the matrix is n×n over the locations with a zero diagonal; entry (i, j) for i ≠ j is the metric between locations i and j; all entries are non-negative and the matrix is symmetric |
| Logic.RoutingController.RunFloydWarshall | src/logic.py:60-69 | the shortest-path matrix becomes `FloydWarshall` of the direct matrix and is symmetric; only that field changes, so the direct matrix is untouched |
| Logic.CopyRows | src/logic.py:63 | a fresh n×n array holding the matrix's entries |
| Logic.RelaxThrough | src/logic.py:65-68 | the in-place pass over all (i, j) for one k leaves exactly the textbook phase `Relax(d, k)` when entries are non-negative |
| Distances.RelaxKeepsPivot | src/logic.py:65-68 | with non-negative entries, phase k does not change row k or column k |
| Distances.Relax | src/logic.py:65-68 | one phase through k: every entry becomes the smaller of itself and the detour through k (`RelaxAt`); the matrix stays n×n |
| Distances.FloydWarshallUpTo | src/logic.py:64-68 | the matrix after the outer loop's first k phases; stays n×n; characterised by the `FloydWarshall…` lemmas below |
| Distances.FloydWarshall | src/logic.py:64-69 | all n phases of the outer loop; the lemmas below prove it is non-negative, below the direct distances, zero on the diagonal, symmetric, and satisfies the triangle inequality |
| Distances.FloydWarshallNonNegative | src/logic.py:64-68 | every phase keeps all entries non-negative |
| Distances.FloydWarshallBelowDirect | src/logic.py:64-68 | after any number of phases every entry is at most the direct distance |
| Distances.FloydWarshallZeroDiagonal | src/logic.py:64-68 | a zero diagonal survives every phase when no entry is negative |
| Distances.FloydWarshallTriangleUpTo | src/logic.py:64-68 | after phases 0 .. k-1, `d[i][j] <= d[i][m] + d[m][j]` for every intermediate m below k |
| Distances.RelaxStepTriangle | src/logic.py:67-68 | one phase through k keeps the triangle bound through every earlier intermediate and adds it through k |
| Distances.FloydWarshallTriangle | src/logic.py:64-69 | the final matrix satisfies the triangle inequality through every intermediate |
| Distances.FloydWarshallKeepsMetric | src/logic.py:64-69 | a matrix that already satisfies the triangle inequality is returned unchanged |
| Distances.FloydWarshallSymmetric | src/logic.py:64-68 | a symmetric direct-distance matrix stays symmetric after every phase |
| Logic.RoutingController.SolveMultivehicleVrp | src/logic.py:75-183 | empty scenario: returns no vehicles and only the "scenario empty" event, and changes nothing else; otherwise the shortest paths are recomputed (and symmetric), the returned vehicles are the controller's new vehicle objects, their state is `Plan(...).fleet` and the log is `Plan(...).log`; locations and direct distances are untouched |
| Logic.RoutingController.InitializeFleet | src/logic.py:86-90 | one fresh vehicle per capacity, in order, with id `idx + 1`, route `[0]`, no load and no distance |
| Router.InitialFleet | src/logic.py:86-90 | vehicle i gets id i + 1 and the i-th capacity, no load, route `[0]` and cost 0 (`InitialFleetFacts`) |
| Router.Start | src/logic.py:86-96 | the router state before the loop: the initial fleet, the pending demands, step 0 and a log holding only the start event |
| Logic.ClientDemandsOfScenario | src/logic.py:93 | in a generated scenario the pending map holds one entry per client, entry k being client k + 1's demand |
| Logic.ClientDemands | src/logic.py:93 | the demands of the non-depot locations, in list order (`ClientDemandsOfScenario` gives its value on a generated scenario) |
| Logic.RoutingController.Dispatch | src/logic.py:95-181 | from a fresh fleet, the vehicles end as `Plan(...).fleet` and the log is `Plan(...).log` |
| Logic.RoutingController.DeliverAll | src/logic.py:98-158 | the vehicles, the pending demands and the log after the loop are those of `Run` from the state before it |
| Logic.RoutingController.FleetIsFull | src/logic.py:107-111 | true exactly when no vehicle has load below its capacity |
| Logic.RoutingController.FindBestMove | src/logic.py:117-137 | the scan's result equals `BestMove` of the current vehicles and pending demands |
| Logic.RoutingController.CarryOut | src/logic.py:142-155 | vehicles, pending map, step count and log after one delivery are those of `Deliver` |
| Logic.RoutingController.Visit | src/logic.py:147-149 | only the chosen vehicle changes: client appended to its route, load and cost increased by the amount and the leg |
| Logic.RoutingController.ReturnVehiclesHome | src/logic.py:161-173 | the vehicles become `ReturnAll` of their state before; the log gains exactly the return events, in vehicle order; the total is the sum of the travel costs after the return legs |
| Logic.ReturnFleet | src/logic.py:164-173 | the loop over the vehicle objects: the same statement as `ReturnVehiclesHome`, for any fleet whose i-th vehicle has id i + 1 (so no vehicle object appears twice) |
| Logic.ReturnStep | src/logic.py:164-173 | one pass of that loop extends the returned prefix, the logged return events and the running total by vehicle i |
| Logic.ReturnOne | src/logic.py:165-171 | only vehicle i changes, to `ReturnHome` of its old state, and the log gains its return event if there is one |
| Router.ScanClients | src/logic.py:128-137 | the scan over one vehicle's clients keeps the best move so far or replaces it by a real candidate move |
| Router.ScanVehicles | src/logic.py:121-137 | the scan over the vehicles from v on keeps the best move so far or replaces it by a real candidate move |
| Router.BestMove | src/logic.py:117-137 | any move found is a vehicle with spare capacity, a client with pending demand, and that pair's shortest-path distance |
| Router.ScanClientsInv | src/logic.py:128-137 | scanning one vehicle's clients turns the first-minimum invariant over the pairs before (v, k) into the one over the pairs before (v + 1, 0) |
| Router.ScanVehiclesInv | src/logic.py:121-137 | scanning the remaining vehicles establishes the first-minimum invariant over all pairs |
| Router.BestMoveIsFirstMinimum | src/logic.py:117-140 | no move is found exactly when no vehicle with spare capacity meets a client with pending demand; otherwise the move is at the minimum distance over all such pairs, and every pair before it in scan order (vehicle order, then client order) is strictly farther |
| Router.Deliver | src/logic.py:142-155 | one step keeps routes valid and sizes equal, and strictly lowers the total pending demand, so the loop terminates |
| RouterProperties.DeliverStep | src/logic.py:142-155 | the amount delivered is positive and is what leaves the client's pending demand; the vehicle stays within capacity and the pending demand stays non-negative; the vehicle fills up or the client is served; the route gains the client and the cost grows by the leg; no other vehicle or client changes |
| Router.Run | src/logic.py:100-158 | the loop keeps routes valid and the sizes of the fleet and the pending map |
| RouterProperties.RunExit | src/logic.py:100-114 | the loop ends only when total pending is at most 0 or every vehicle is full |
| RouterProperties.RunKeepsLoadsWithin | src/logic.py:100-158 | no load becomes negative at any point of the loop, and each load stays within its capacity, or 0 for a vehicle without capacity |
| RouterProperties.RunKeepsPendingWithin | src/logic.py:100-158 | each client's pending demand is untouched or lowered and non-negative |
| RouterProperties.RunConserves | src/logic.py:144-152 | loaded units plus pending units is the same before and after the loop |
| RouterProperties.RunLogsDeliveries | src/logic.py:152-154 | the log only grows, and the amounts it records per client are exactly what left that client's pending demand |
| RouterProperties.RunExtendsFleet | src/logic.py:121-149 | vehicles keep id and capacity, routes only grow, a full vehicle is never touched, and every cost is the length of its route |
| RouterProperties.InitialFleetFacts | src/logic.py:86-90 | the new fleet has one vehicle per capacity, vehicle i with id i + 1 and the i-th capacity; it carries nothing, every route is `[0]` with cost 0, so routes are valid and costs equal route lengths |
| RouterProperties.ReturnAllKeepsLoads | src/logic.py:164-173 | the return legs do not change any load |
| RouterProperties.ReturnAllFacts | src/logic.py:164-173 | the return legs keep ids, capacities and loads; routes stay valid and costs still follow routes; a vehicle whose way back is not positive is unchanged |
| RouterProperties.ReturnAllKeepsFull | src/logic.py:164-173 | a fleet that is full stays full after the return legs |
| Router.ReturnHome | src/logic.py:165-171 | a vehicle whose way back is positive gains the depot on its route and that distance on its cost; otherwise it is unchanged (`ReturnAllFacts`) |
| Router.ReturnEvent | src/logic.py:165-171 | the return line for that vehicle (its id, the way back and the new cost) when the way back is positive, nothing otherwise |
| Router.ReturnAll | src/logic.py:164-173 | every vehicle of the fleet, in order, after its return leg; same fleet size |
| Router.ReturnEvents | src/logic.py:164-173 | the return lines of the fleet in vehicle order (`ReturnEventsAreReturns`) |
| Router.TotalCost | src/logic.py:162-173 | the sum of the vehicles' travel costs, accumulated in vehicle order |
| Router.WrapUpLog | src/logic.py:160-181 | the end marker, the return lines, the fleet total of the returned fleet and, when the remaining demand is positive, the alert naming it (`PlanShortfall`, `WrapUpDeliversNothing`) |
| RouterProperties.WrapUpDeliversNothing | src/logic.py:160-181 | nothing logged after the loop records a delivery |
| Router.Plan | src/logic.py:75-183 | the whole solve of a non-empty scenario: the loop from `Start`, the return legs, and the log; characterised by `PlanFleet`, `PlanDeliveries`, `PlanDeliveredExact`, `PlanServesAll` and `PlanShortfall` |
| RouterProperties.PlanFleet | src/logic.py:75-183 | one vehicle per capacity, id i + 1; every route starts at the depot, every load is non-negative and within capacity, or 0 for a vehicle without capacity, every cost is the length of its route; a vehicle without capacity never leaves the depot |
| RouterProperties.PlanDeliveries | src/logic.py:75-183 | the total delivered to a client is 0, or positive and at most its demand |
| RouterProperties.PlanDeliveredExact | src/logic.py:100-158 | the amount the log records for each client is exactly its demand minus what the loop leaves pending |
| RouterProperties.SumOfNonNegative | src/logic.py:177-179 | a sum of non-negative demands is non-negative, and is 0 only when every demand is 0 |
| RouterProperties.PlanServesAll | src/logic.py:175-181 | with non-negative demands and no shortfall (total demand at most total load), every client receives its whole demand |
| RouterProperties.PlanShortfall | src/logic.py:95-181 | the log starts with the start event; it ends with an alert naming `total demand − total load` exactly when that is positive, and then every vehicle is full and the fleet total comes just before it; otherwise it ends with the fleet total; on both exits the fleet total is the sum of the travel costs |
| RouterProperties.PlanRoutesEndAtDepot | src/logic.py:164-171 | when every client is at a positive distance from the depot, every final route starts and ends at the depot |
| Scenarios.FirstDelivery | src/logic.py:117-155 | with two empty vehicles at the depot the tie goes to the first, which unloads 40 of 100 |
| Scenarios.SecondDelivery | src/logic.py:121-155 | the full first vehicle is skipped and the second serves the client |
| Scenarios.DeliveryLoop | src/logic.py:100-158 | two deliveries, then "fleet full" with 20 units still pending |
| Scenarios.WrapUp | src/logic.py:160-181 | both vehicles drive the 5 back, the fleet total is 20 and the alert names 20 units |
| Scenarios.ShortfallScenario | src/logic.py:75-183 | the whole plan for this scenario: both vehicles end at `[0, 1, 0]` with cost 10, and the full event log |
| Scenarios.NegativeDemandStopsEarly | src/logic.py:100-104 | demands -5 and 5 sum to 0, so the loop stops before any delivery: client 2 still waits for 5 units, the fleet stays at the depot and the log is the start event, the end marker and a zero fleet total, with no alert |

## Left out

- `src/interface.py` and `main.py` are not part of this model. They hold the Tkinter window, the parsing of comma-separated integers, drawing and the click-to-edit dialog.
- Random coordinates: `random.randint` is replaced by the parameter `coords` of `GenerateScenarioFromDemands`. The `ValueError` that `randint` raises when `width` or `height` is below 100 and there is at least one client is not modelled. No `coords` meets the precondition then. In the source this leaves the controller inconsistent: `locations` has already been reset to the depot alone, while `dist_matrix` is the old one, since the distances were never recomputed. The window catches the error (src/interface.py:87), and its size fallback (src/interface.py:69) checks only the width, so a short window can trigger it. On a fresh controller a later solve then fails: `run_floyd_warshall` reads `dist[0]` of an empty matrix (src/logic.py:63-67), and that `IndexError` is not caught (src/interface.py:105). The invariant `Valid()` excludes this state.
- `math.sqrt` and floating point: the Euclidean distance is the caller-supplied non-negative function `metric`. Distances and costs are exact `real`s, so rounding is not modelled.
- `float('inf')`: the scan's "nothing found yet" is `Option.None`. The prefill of `dist_matrix` with infinity is not modelled, because every entry is overwritten in the same call; the diagonal's integer `0` is `0.0`.
- Log text: the report is a sequence of `Event`s. The formatting (`:.1f`, `:.2f`) and the final `"\n".join` are not modelled.
- The pending dictionary is a sequence indexed by client position. This relies on `locations[i].id == i`, which the controller's methods establish. A location list assigned from outside the controller is not modelled.
- `Logic.RoutingController.SolveMultivehicleVrp`: requires the controller invariant `Valid()`, meaning a scenario built by `GenerateScenarioFromDemands`, non-negative distances and `locations[i].id == i`. The source needs this implicitly, since it indexes the matrices by id.
- `Logic.RoutingController.RunFloydWarshall`: requires the same invariant. With negative entries, which `math.sqrt` never produces, the in-place pass could differ from the phase-by-phase definition.
- The solver is split into helper methods (`Dispatch`, `DeliverAll`, `CarryOut`, `Visit`, `ReturnVehiclesHome`, `ReturnFleet`, `ReturnStep`, `ReturnOne`). Together they run the same statements as the single Python method, in the same order.
- `RouterProperties.PlanRoutesEndAtDepot`: only claims that routes end at the depot when every client is at a positive distance from it. A vehicle standing on a client drawn at the depot's own coordinates is not sent "home", and its route does not end in 0; the source behaves the same way.
- Vehicle `travel_cost` starts as the integer `0` in Python and becomes a float after the first leg; the model uses `0.0` throughout.
