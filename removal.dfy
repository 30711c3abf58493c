/** The per-tick update of the queues as values: every queued vehicle moves
    once, and those now past their road's centre line leave their queue. */
module Removal {
  import opened Roads
  import opened Geometry
  import opened Motion
  import opened Lists

  /** Number of the vehicles of `cars` (queued on road `r`) that are past the
      centre line once moved. */
  function Crossings(cfg: Config, r: Road, cars: seq<Car>, green: Road): (n: nat)
    ensures n <= |cars|
  {
    if cars == [] then 0
    else
      var d := Moved(cars[0], green);
      (if Crossed(cfg, r, d.x, d.y) then 1 else 0) + Crossings(cfg, r, cars[1..], green)
  }

  /** The queue of road `r` after one tick: each vehicle moved once, in queue
      order, and only those not past the centre line kept. */
  function Survivors(cfg: Config, r: Road, cars: seq<Car>, green: Road): (s: seq<Car>)
    ensures |s| == |cars| - Crossings(cfg, r, cars, green)
    ensures forall i :: 0 <= i < |s| ==> !Crossed(cfg, r, s[i].x, s[i].y)
  {
    if cars == [] then []
    else
      var d := Moved(cars[0], green);
      var rest := Survivors(cfg, r, cars[1..], green);
      if Crossed(cfg, r, d.x, d.y) then rest else [d] + rest
  }

  /** The survivors are exactly the moved vehicles that are not past the
      centre line: none is lost and none is made up. */
  lemma {:induction false} SurvivorsMembers(cfg: Config, r: Road, cars: seq<Car>, green: Road)
    ensures forall c :: c in cars && !Crossed(cfg, r, Moved(c, green).x, Moved(c, green).y) ==>
                          Moved(c, green) in Survivors(cfg, r, cars, green)
    ensures forall d :: d in Survivors(cfg, r, cars, green) ==> exists c :: c in cars && d == Moved(c, green)
  {
    if cars != [] {
      SurvivorsMembers(cfg, r, cars[1..], green);
      assert forall c :: c in cars ==> c == cars[0] || c in cars[1..];
    }
  }

  /** The update works vehicle by vehicle: updating a queue is updating its
      front part and its back part and joining the results, so survivors keep
      their relative order. */
  lemma {:induction false} SurvivorsAppend(cfg: Config, r: Road, a: seq<Car>, b: seq<Car>, green: Road)
    ensures Survivors(cfg, r, a + b, green) == Survivors(cfg, r, a, green) + Survivors(cfg, r, b, green)
  {
    if a == [] {
      assert a + b == b;
    } else {
      assert (a + b)[0] == a[0];
      assert (a + b)[1..] == a[1..] + b;
      SurvivorsAppend(cfg, r, a[1..], b, green);
    }
  }

  /** The whole table after one tick with `green` as the green road. */
  function TickQueues(cfg: Config, q: Queues<seq<Car>>, green: Road): (t: Queues<seq<Car>>)
    ensures forall r :: t.Get(r) == Survivors(cfg, r, q.Get(r), green)
  {
    Queues(Survivors(cfg, North, q.north, green), Survivors(cfg, South, q.south, green),
           Survivors(cfg, East, q.east, green), Survivors(cfg, West, q.west, green))
  }

  /** The table part way through a tick: the first `k` roads of RoadOrder
      updated one after another, the others as they were. */
  function TickedBefore(cfg: Config, q: Queues<seq<Car>>, green: Road, k: nat): Queues<seq<Car>>
    requires k <= |RoadOrder|
  {
    if k == 0 then q
    else
      var p := TickedBefore(cfg, q, green, k - 1);
      var r := RoadOrder[k - 1];
      p.Set(r, Survivors(cfg, r, p.Get(r), green))
  }

  /** Updating the roads one after another in dictionary order is the tick:
      each road is updated once, from its queue as it was. */
  lemma TickedBeforeAll(cfg: Config, q: Queues<seq<Car>>, green: Road)
    ensures TickedBefore(cfg, q, green, |RoadOrder|) == TickQueues(cfg, q, green)
  {
    assert RoadOrder[0] == North && RoadOrder[1] == South && RoadOrder[2] == East && RoadOrder[3] == West;
    assert TickedBefore(cfg, q, green, 0) == q;
    var t1 := TickedBefore(cfg, q, green, 1);
    var t2 := TickedBefore(cfg, q, green, 2);
    var t3 := TickedBefore(cfg, q, green, 3);
    var t4 := TickedBefore(cfg, q, green, 4);
    assert t1 == q.Set(North, Survivors(cfg, North, q.north, green));
    assert t2 == t1.Set(South, Survivors(cfg, South, q.south, green));
    assert t3 == t2.Set(East, Survivors(cfg, East, q.east, green));
    assert t4 == t3.Set(West, Survivors(cfg, West, q.west, green));
  }

  /** The total number of vehicles falls by exactly the number that crossed
      the centre line this tick. */
  lemma TickQueuesTotal(cfg: Config, q: Queues<seq<Car>>, green: Road)
    ensures Total(TickQueues(cfg, q, green)) ==
            Total(q) - Crossings(cfg, North, q.north, green) - Crossings(cfg, South, q.south, green)
                     - Crossings(cfg, East, q.east, green) - Crossings(cfg, West, q.west, green)
    ensures Total(TickQueues(cfg, q, green)) <= Total(q)
  {
    var t := TickQueues(cfg, q, green);
    TotalIsSumOfLengths(q);
    TotalIsSumOfLengths(t);
    assert t.north == t.Get(North) && t.south == t.Get(South) && t.east == t.Get(East) && t.west == t.Get(West);
  }

  /** The survivors are the moved vehicles, each kept unless flagged as past
      the centre line. */
  lemma {:induction false} SurvivorsAsKeep(cfg: Config, r: Road, cars: seq<Car>, moved: seq<Car>, gone: seq<bool>, green: Road)
    requires |moved| == |cars| && |gone| == |cars|
    requires forall j :: 0 <= j < |cars| ==> moved[j] == Moved(cars[j], green)
    requires forall j :: 0 <= j < |cars| ==> gone[j] == Crossed(cfg, r, moved[j].x, moved[j].y)
    ensures Survivors(cfg, r, cars, green) == Keep(moved, gone)
  {
    if cars != [] {
      SurvivorsAsKeep(cfg, r, cars[1..], moved[1..], gone[1..], green);
    }
  }

  /** The values of the kept vehicles are the kept values. */
  lemma {:induction false} CarsKeep(vs: seq<Vehicle>, gone: seq<bool>)
    requires |gone| == |vs|
    ensures Cars(Keep(vs, gone)) == Keep(Cars(vs), gone)
  {
    if vs != [] {
      CarsKeep(vs[1..], gone[1..]);
      CarsAppend(if gone[0] then [] else [vs[0]], Keep(vs[1..], gone[1..]));
      assert Cars(vs)[1..] == Cars(vs[1..]);
    }
  }

  /** Where the loop of MoveAndRemove ends: every vehicle moved, and the
      live queue holding the unflagged ones. */
  lemma KeptSurvivors(cfg: Config, r: Road, vehicles: seq<Vehicle>, live: seq<Vehicle>,
                      before: seq<Car>, moved: seq<Car>, gone: seq<bool>, g: Road)
    requires |before| == |vehicles| && |moved| == |before| && |gone| == |moved|
    requires forall j :: 0 <= j < |before| ==> moved[j] == Moved(before[j], g)
    requires forall j :: 0 <= j < |moved| ==> gone[j] == Crossed(cfg, r, moved[j].x, moved[j].y)
    requires live == Keep(vehicles[..|vehicles|], gone[..|gone|]) + vehicles[|vehicles|..]
    requires Cars(vehicles) == moved[..|vehicles|] + before[|vehicles|..]
    requires Distinct(vehicles)
    ensures Distinct(live) && forall v :: v in live ==> v in vehicles
    ensures Cars(live) == Survivors(cfg, r, before, g)
  {
    assert vehicles[..|vehicles|] == vehicles && vehicles[|vehicles|..] == [] && gone[..|gone|] == gone;
    assert Cars(vehicles) == moved by {
      assert moved[..|vehicles|] == moved && before[|vehicles|..] == [];
    }
    CarsKeep(vehicles, gone);
    SurvivorsAsKeep(cfg, r, before, moved, gone, g);
    KeepPart(vehicles, gone);
    DistinctWithin(live, vehicles);
  }

  /** One pass of the loop of MoveAndRemove: the vehicle at `i` moves and,
      when past the centre line, leaves the live queue. */
  method MoveAndRemoveAt(cfg: Config, r: Road, vehicles: seq<Vehicle>, g: Road, live0: seq<Vehicle>, i: nat,
                         ghost before: seq<Car>, ghost moved: seq<Car>, ghost gone: seq<bool>)
    returns (live: seq<Vehicle>)
    requires Distinct(vehicles) && i < |vehicles| == |before| == |moved| == |gone|
    requires moved[i] == Moved(before[i], g) && gone[i] == Crossed(cfg, r, moved[i].x, moved[i].y)
    requires live0 == Keep(vehicles[..i], gone[..i]) + vehicles[i..]
    requires Cars(vehicles) == moved[..i] + before[i..]
    modifies vehicles[i]
    ensures live == Keep(vehicles[..i + 1], gone[..i + 1]) + vehicles[i + 1..]
    ensures Cars(vehicles) == moved[..i + 1] + before[i + 1..]
  {
    var v := vehicles[i];
    KeepStep(vehicles, gone, live0, i);
    DistinctSplit(vehicles, i);
    Splice(moved, before, i);
    MoveAt(vehicles, i, g);
    assert v.Value() == moved[i];
    live := live0;
    if Crossed(cfg, r, v.x, v.y) {
      live := RemoveFirst(live, v);
    }
  }

  /** The update of one queue as the frame loop does it: iterating over a
      copy of the queue, each vehicle moves once and, when past the centre
      line, is removed from the live queue. The queue that is left is the
      value-level update of the queue's vehicles, and holds only vehicles
      of the queue. */
  method MoveAndRemove(cfg: Config, r: Road, vehicles: seq<Vehicle>, g: Road) returns (live: seq<Vehicle>)
    requires Distinct(vehicles)
    modifies vehicles
    ensures Distinct(live) && forall v :: v in live ==> v in vehicles
    ensures Cars(live) == Survivors(cfg, r, old(Cars(vehicles)), g)
  {
    live := vehicles;
    ghost var before := Cars(vehicles);
    ghost var moved := seq(|before|, j requires 0 <= j < |before| => Moved(before[j], g));
    ghost var gone := seq(|moved|, j requires 0 <= j < |moved| => Crossed(cfg, r, moved[j].x, moved[j].y));
    for i := 0 to |vehicles|
      invariant live == Keep(vehicles[..i], gone[..i]) + vehicles[i..]
      invariant Cars(vehicles) == moved[..i] + before[i..]
    {
      live := MoveAndRemoveAt(cfg, r, vehicles, g, live, i, before, moved, gone);
    }
    KeptSurvivors(cfg, r, vehicles, live, before, moved, gone, g);
  }
}
