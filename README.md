# Traffic intersection controller — a Dafny model

This is a model of the simulation kernel of a four-way traffic intersection. The same kernel exists in three variants:

- `new.py` and `src/new.py`, which are identical;
- `src/app.py`, which differs only in its geometry constants and in the initial flash counter of a new vehicle.

One model covers all three variants. `Geometry.Config` carries the differing constants, `Geometry.AppConfig` is `src/app.py`, and `Geometry.NewConfig` is the other two files.

## What is modelled

- **Roads and queues** (`roads.dfy`):
  - The four roads, in the insertion order North, South, East, West of the queue dictionary. Every scan in the program visits the roads in that order.
  - The per-road table, with `Get`, `Set` and the total number of vehicles.
- **Geometry** (`geometry.dfy`):
  - The speeds: 2, or 4 for emergency vehicles.
  - Each road's direction of travel and entry point.
  - The strict centre-line test that removes a vehicle.
  - All divisors are positive, so Dafny's `/` agrees with Python's `//` here.
- **Motion** (`motion.dfy`):
  - `Vehicle` is a class. `x`, `y` and `flashTimer` are mutable; `road` and `isEmergency` are fixed when the vehicle is made.
  - `Vehicle.Move` is the move rule. It is proved against the value-level function `Moved`.
- **Per-tick update with removal** (`removal.dfy`, `lists.dfy`):
  - The source iterates over a copy of each queue. It moves each vehicle and removes it from the live list with `list.remove` once it is past the centre line.
  - `Removal.MoveAndRemove` does exactly that on a `seq<Vehicle>`.
  - It is proved to produce the queue that `Removal.Survivors` describes on values: every vehicle moved once, in queue order, keeping only those not past the line.
- **Green-road selection** (`lights.dfy`):
  - The selection is the first-match scan for an emergency vehicle, then Python's stable `sorted(..., reverse=True)` by queue length, modelled as an insertion sort.
  - It is proved equal to a declarative rule, `Lights.Entitled`. With an emergency vehicle queued anywhere, the first road in dictionary order holding one wins. Otherwise the longest queue wins, with ties going to the earlier road.
- **The controller** (`controller.dfy`):
  - `Intersection` is a class holding the four queues of `Vehicle` objects, the green road, the time of the last switch and the time of the last automatic spawn.
  - Its methods model the source's functions and the steps of the frame loop: spawn, vehicle update, timed phase switch, capped automatic spawn, and uncapped arrow-key emergency spawns.
  - Each method is proved against a function on the value view `World`, and `Tick` is proved against `Step`.

The order of the steps in one frame follows the code: vehicle update, then phase switch, then automatic spawn, then events. The model follows the code, so the green road chosen in a frame governs movement only from the next frame on.

## Model

| member | source | states |
|---|---|---|
| Roads.Rank | src/app.py:45-52 | the roads' positions in the dictionary's insertion order, each road at its own position |
| Roads.TotalIsSumOfLengths | src/app.py:186-188 | the vehicle total is the sum of the four queue lengths |
| Roads.Total | src/app.py:186-188 | `total_vehicle_count`: the queue lengths added up over the roads in dictionary order; its closed form is `Roads.TotalIsSumOfLengths` |
| Geometry.Heading | src/app.py:77-84 | each road moves along one axis only, by a unit step: North and South vertically, East and West horizontally |
| Geometry.Entry | src/app.py:97-104 | the entry point of `spawn_vehicle` for each road; for a window of non-negative size it is not past the centre line |
| Geometry.Crossed | src/app.py:168-171 | the strict removal test against half the height or width, in the road's direction of travel; its meaning along a road is `Geometry.CrossingAlongHeading` |
| Geometry.Speed | src/app.py:73 | an ordinary vehicle's speed is 2 and an emergency vehicle's twice that, 4 |
| Geometry.CrossingAlongHeading | src/app.py:168-171 | a vehicle `d` units along its heading from its entry point is past the centre line exactly when `d` exceeds the road's clear distance, which is non-negative |
| Motion.Moved | src/app.py:71-88 | road and emergency flag unchanged; the position advances by the speed along the road's heading when the road is green or the vehicle is an emergency one, and stays put otherwise; the flash counter rises by one for emergency vehicles only |
| Motion.MovedTimesDisplacement | new.py:61-78 | over `k` moves, a vehicle that may move advances `k` times its speed along its heading, a blocked ordinary vehicle does not move, and the flash counter counts an emergency vehicle's moves |
| Motion.CrossesAfter | src/new.py:85-96 | a vehicle spawned at its entry point and allowed to move is past the centre line after exactly those numbers of ticks whose travel exceeds the clear distance |
| Motion.Vehicle.constructor | src/app.py:60-66 | a new vehicle has the given position, road and emergency flag, and the variant's initial flash counter |
| Motion.Vehicle.Move | new.py:61-78 | the vehicle's new state is `Moved` of its old state |
| Motion.MoveAt | src/app.py:163-164 | moving one vehicle of a queue changes the queue's values at its position only |
| Lists.RemoveFirst | src/app.py:172 | `list.remove`: the list without the first element equal to the argument; its facts are `Lists.RemoveFirstRemovesOne` and `Lists.RemoveFirstAfter` |
| Lists.RemoveFirstRemovesOne | src/app.py:172 | the removal takes out one occurrence of the element when there is one; the case with none, where Python raises `ValueError`, is returned unchanged |
| Lists.RemoveFirstAfter | src/app.py:172 | removing an element that does not occur earlier removes it at its own position |
| Lists.KeepStep | src/app.py:163-172 | removing the current vehicle of the copy from the live list, when it has crossed, keeps the live list equal to the vehicles kept so far followed by those still to come |
| Lists.DistinctSnoc | src/app.py:106 | appending a newly made vehicle keeps a queue free of repetitions |
| Removal.Crossings | new.py:145-149 | the number of vehicles that cross is at most the queue length |
| Removal.Survivors | src/app.py:162-172 | the updated queue is shorter by exactly the number that crossed, and no vehicle left in it is past the centre line |
| Removal.SurvivorsMembers | new.py:139-149 | every moved vehicle not past the line survives, and every survivor is a moved vehicle of the queue |
| Removal.SurvivorsAppend | src/new.py:139-149 | the update works vehicle by vehicle, so survivors keep their relative order |
| Removal.TickQueues | src/app.py:162 | every road's queue is updated with its own road's centre-line test |
| Removal.TickedBeforeAll | src/app.py:162-164 | updating the roads one after another in dictionary order is the whole tick |
| Removal.TickQueuesTotal | new.py:139-149 | the total falls by exactly the number of vehicles that crossed, and never rises |
| Removal.MoveAndRemoveAt | src/app.py:164-172 | one pass of the loop: the vehicle moves, and the live list loses it exactly when it has crossed |
| Removal.MoveAndRemove | src/app.py:163-172 | iterating over a copy, the live list ends as the value-level update of the queue, holds no repetitions, and holds only vehicles of the queue |
| Lights.FirstEmergencyFrom | src/app.py:149-151 | the result, if any, holds an emergency vehicle and no earlier road does; with none, no road from the start position holds one |
| Lights.InsertByLoad | src/app.py:156 | one insertion step of the stable descending sort, one road longer than its input; its order is `Lights.InsertByLoadSorted` |
| Lights.SortByLoad | src/app.py:154-156 | `sorted(..., key=count, reverse=True)` over the roads, as long as its input; its order and contents are `Lights.SortByLoadSorted` |
| Lights.SelectGreen | src/app.py:146-157 | `update_traffic_lights`: the result holds an emergency vehicle unless no road does, and no earlier road holds one; the full rule is `Lights.SelectGreenIsEntitled` |
| Lights.InsertByLoadSorted | new.py:133 | inserting a road that comes earlier than all others keeps the list sorted by descending length, ties in dictionary order, with the same roads |
| Lights.SortByLoadSorted | src/app.py:154-156 | the stable descending sort holds exactly the roads given, ordered by descending queue length, ties in dictionary order |
| Lights.SortHeadPrecedesAll | src/app.py:153-157 | the head of the sort has a longer queue than every other road, or an equal one and an earlier place |
| Lights.EntitledUnique | src/app.py:146-157 | at most one road is entitled to the green light |
| Lights.SelectGreenIsEntitled | new.py:123-134 | the selected road is the entitled road, and no other road is: the first road holding an emergency vehicle, or else the longest queue with the earliest road on ties |
| Lights.EmergencyOutranksQueueLength | src/new.py:126-128 | an emergency vehicle on East wins over any number of ordinary vehicles elsewhere when North and South have none |
| Lights.SelectGreenWhenEmpty | src/new.py:131-134 | with every queue empty, North is selected |
| Controller.ArrowRoad | src/app.py:221-228 | Up summons on North, Down on South, Left on West, Right on East, any other key on none |
| Controller.PressKeys | src/app.py:217-228 | the events of one frame handled in order, each arrow key spawning an emergency vehicle on its road; its effect is `Controller.PressKeysTotal` and `Controller.PressKeysAppends` |
| Controller.SwitchPhase | src/app.py:206-208 | the timed switch: when due, the selected road and the switch time reset to `now`, otherwise no change; its properties are `Controller.SwitchPhaseEntitled` |
| Controller.Step | src/app.py:198-228 | one frame in the code's order: vehicle update, phase switch, automatic spawn, events; its bound on the total is `Controller.StepTotal` |
| Controller.Spawned | src/app.py:95-106 | the new vehicle is appended at the tail of its road's queue only, and the total rises by one |
| Controller.PressKeysTotal | src/app.py:217-228 | each arrow-key press adds one vehicle whatever the total, so keyboard spawns are not capped |
| Controller.PressKeysAppends | new.py:195-206 | a road's queue after the events is its old queue followed by one entry-point emergency vehicle per press of that road's key |
| Controller.SwitchPhaseEntitled | src/app.py:206-208 | once the duration has elapsed, the green road becomes the entitled one and the switch time resets; before that nothing changes, whatever emergency vehicles are queued |
| Controller.SpawnGate | src/app.py:211-214 | the automatic spawn adds exactly one vehicle when the interval has elapsed and the total is strictly below the maximum, and none otherwise |
| Controller.StepTotal | src/new.py:180-206 | over one frame the total stays within the maximum plus the arrow-key presses, when it started within the maximum |
| Controller.Intersection.TotalVehicleCount | new.py:164-166 | the count is the sum of the four queue lengths |
| Controller.Intersection.constructor | src/app.py:194-196 | empty queues, the given initial green road, and both timers at the start time |
| Controller.Intersection.SetQueue | src/app.py:106 | the in-place replacement of one road's queue: the table changes at that road only, the value view follows, and the queue invariant is kept |
| Controller.Intersection.Spawn | new.py:85-96 | the queues' values become `Spawned` of the old ones, and the queue invariant holds |
| Controller.Intersection.MoveRoad | new.py:140-149 | road `r`'s vehicles are moved, the returned live list is the value-level update of that queue, and other roads' vehicles are untouched |
| Controller.Intersection.UpdateRoad | src/app.py:162-172 | road `r`'s queue is updated and holds only vehicles it held before; the other queues are unchanged |
| Controller.Intersection.UpdateVehicles | new.py:137-149 | the queues' values become `TickQueues` of the old ones |
| Controller.Intersection.SwitchIfDue | new.py:184-186 | the state becomes `SwitchPhase` of the old state |
| Controller.Intersection.AutoSpawn | new.py:189-192 | the state becomes `SpawnGate` of the old state |
| Controller.Intersection.HandleEvents | src/app.py:217-228 | the queues become `PressKeys` of the old queues, and the result reports whether the window was closed |
| Controller.Intersection.Tick | src/app.py:198-228 | one frame takes the state to `Step` of the old state, and the loop keeps running until a quit event |

## Left out

- Drawing is not modelled: the window, images, background, roads, traffic lights, the count display, frame flipping and frame pacing are all pygame calls with no effect on the simulation state.
- The emergency image flip (`flash_timer % 20 < 10`) is left out, because it only chooses a picture. The integer flash counter is modelled.
- The clock is a parameter. Each frame takes one integer reading `now`, in milliseconds: a green duration of 3 s is 3000 and the 0.5 s spawn interval is 500. The source reads the clock separately for each test and each reset, a few microseconds apart; the model uses the same reading for both.
- `random.choice` of the initial and spawned road and `random.random() < 0.1` for the emergency flag are parameters of the constructor and of `Tick`. Any choice is allowed, so the probability is not modelled.
- The event source (`pygame.event.get`) is I/O. A frame's events are a parameter sequence, and keys other than the four arrows are one `OtherKey`.
- The exit after a quit event (`pygame.quit`) is left out. `Tick` reports whether the loop goes on.
- Controller.Intersection.UpdateRoad: its contract speaks of the live queues only. The removed vehicles are also moved before removal, as in the source, but nothing is stated about them afterwards, since the program never reads them again.
- Controller.Intersection.Spawn: it requires the queue invariant (every queued vehicle on its own road's queue, once), which every method keeps and the constructor establishes. The source has no such check, but it holds for every state the program reaches.
- Lists.RemoveFirstRemovesOne: the case where the element is absent returns the list unchanged, standing in for Python's `ValueError`; `Removal.MoveAndRemove` never reaches it, since the vehicle removed is the one at the current position of the copy and a queue holds each vehicle once (`Lists.KeepStep`).
- Lists.RemoveFirst: with the element absent it returns the list unchanged where Python raises `ValueError`; the per-tick update never makes that call.
