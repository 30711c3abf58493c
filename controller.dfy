/** The intersection controller: the per-road queues of vehicles, the green
    road and its timer, the automatic spawner and its cap, and the keyboard
    spawns of emergency vehicles, driven one frame at a time. */
module Controller {
  import opened Roads
  import opened Geometry
  import opened Motion
  import opened Lists
  import opened Removal
  import opened Lights

  datatype Key = Up | Down | Left | Right | OtherKey

  /** The events the frame loop reads: closing the window, a key press, or
      anything else. */
  datatype Event = Quit | KeyDown(key: Key) | OtherEvent

  /** The road on which an arrow key summons an emergency vehicle. */
  function ArrowRoad(k: Key): Option<Road> {
    match k
    case Up => Some(North)
    case Down => Some(South)
    case Left => Some(West)
    case Right => Some(East)
    case OtherKey => None
  }

  /** A new vehicle of road `r`, as the spawner makes it. */
  function EntryCar(cfg: Config, r: Road, isEmergency: bool): Car {
    Car(Entry(cfg, r).0, Entry(cfg, r).1, r, isEmergency, cfg.initialFlash)
  }

  /** The table after a vehicle is appended at the tail of road `r`'s queue. */
  function Spawned(cfg: Config, q: Queues<seq<Car>>, r: Road, isEmergency: bool): (t: Queues<seq<Car>>)
    ensures t.Get(r) == q.Get(r) + [EntryCar(cfg, r, isEmergency)]
    ensures forall s :: s != r ==> t.Get(s) == q.Get(s)
    ensures Total(t) == Total(q) + 1
  {
    TotalAfterSet(q, r, q.Get(r) + [EntryCar(cfg, r, isEmergency)]);
    q.Set(r, q.Get(r) + [EntryCar(cfg, r, isEmergency)])
  }

  /** What one event of the frame loop does to the queues. */
  function KeyEffect(cfg: Config, q: Queues<seq<Car>>, e: Event): Queues<seq<Car>> {
    match e
    case KeyDown(k) =>
      (match ArrowRoad(k)
       case Some(r) => Spawned(cfg, q, r, true)
       case None => q)
    case _ => q
  }

  /** The queues after the events of one frame, handled in order. */
  function PressKeys(cfg: Config, q: Queues<seq<Car>>, events: seq<Event>): Queues<seq<Car>>
    decreases |events|
  {
    if events == [] then q
    else KeyEffect(cfg, PressKeys(cfg, q, events[..|events| - 1]), events[|events| - 1])
  }

  /** Number of arrow-key presses among the events. */
  function ArrowPresses(events: seq<Event>): nat
    decreases |events|
  {
    if events == [] then 0
    else
      var e := events[|events| - 1];
      ArrowPresses(events[..|events| - 1]) + (if e.KeyDown? && ArrowRoad(e.key).Some? then 1 else 0)
  }

  /** Every arrow-key press adds one vehicle, whatever the number of vehicles
      already queued: keyboard spawns are not capped. */
  lemma {:induction false} PressKeysTotal(cfg: Config, q: Queues<seq<Car>>, events: seq<Event>)
    ensures Total(PressKeys(cfg, q, events)) == Total(q) + ArrowPresses(events)
  {
    if events != [] {
      PressKeysTotal(cfg, q, events[..|events| - 1]);
    }
  }

  /** Number of presses among the events of the arrow key for road `r`. */
  function PressesOn(events: seq<Event>, r: Road): nat
    decreases |events|
  {
    if events == [] then 0
    else
      var e := events[|events| - 1];
      PressesOn(events[..|events| - 1], r) + (if e.KeyDown? && ArrowRoad(e.key) == Some(r) then 1 else 0)
  }

  /** The vehicles the arrow keys add to road `r` are emergency vehicles at
      its entry point, one per press of its key, queued behind those already
      there, which stay as they were. */
  lemma {:induction false} PressKeysAppends(cfg: Config, q: Queues<seq<Car>>, events: seq<Event>, r: Road)
    ensures PressKeys(cfg, q, events).Get(r) == q.Get(r) + Copies(EntryCar(cfg, r, true), PressesOn(events, r))
  {
    if events != [] {
      var front := events[..|events| - 1];
      PressKeysAppends(cfg, q, front, r);
      var e := events[|events| - 1];
      if e.KeyDown? && ArrowRoad(e.key) == Some(r) {
        var c := EntryCar(cfg, r, true);
        var k := PressesOn(front, r);
        assert q.Get(r) + Copies(c, k) + [c] == q.Get(r) + Copies(c, k + 1);
      }
    }
  }

  /** The state of the simulation as a value: the queues, the green road, the
      time of the last phase switch and the time of the last automatic spawn. */
  datatype World = World(lanes: Queues<seq<Car>>, green: Road, lastSwitch: int, spawnTimer: int)

  /** Moving every vehicle once under the current green road and removing
      those past the centre line. */
  function Advance(cfg: Config, w: World): World {
    w.(lanes := TickQueues(cfg, w.lanes, w.green))
  }

  /** The timed phase switch: once the green phase has lasted its duration the
      green road becomes the one the selection rule picks, and the switch
      time is reset; before that nothing changes. */
  function SwitchPhase(cfg: Config, w: World, now: int): World {
    if now - w.lastSwitch >= cfg.greenDuration then
      w.(lastSwitch := now, green := SelectGreen(w.lanes))
    else w
  }

  /** The switch leaves the queues and the spawn timer alone; when due, the
      new green road is the entitled one, emergency vehicles first; before
      that nothing changes, emergency vehicles included. */
  lemma SwitchPhaseEntitled(cfg: Config, w: World, now: int)
    ensures SwitchPhase(cfg, w, now).lanes == w.lanes && SwitchPhase(cfg, w, now).spawnTimer == w.spawnTimer
    ensures now - w.lastSwitch >= cfg.greenDuration ==>
              Entitled(w.lanes, SwitchPhase(cfg, w, now).green) && SwitchPhase(cfg, w, now).lastSwitch == now
    ensures now - w.lastSwitch < cfg.greenDuration ==> SwitchPhase(cfg, w, now) == w
  {
    SelectGreenIsEntitled(w.lanes, SelectGreen(w.lanes));
  }

  /** The automatic spawn: when the spawn interval has elapsed and fewer than
      the maximum number of vehicles are queued, one vehicle is added. */
  function SpawnGate(cfg: Config, w: World, now: int, r: Road, isEmergency: bool): (t: World)
    ensures t.green == w.green && t.lastSwitch == w.lastSwitch
    ensures Total(t.lanes) == if now - w.spawnTimer >= cfg.spawnInterval && Total(w.lanes) < cfg.maxVehicles
                              then Total(w.lanes) + 1 else Total(w.lanes)
    ensures Total(t.lanes) <= cfg.maxVehicles || Total(t.lanes) == Total(w.lanes)
  {
    if now - w.spawnTimer >= cfg.spawnInterval && Total(w.lanes) < cfg.maxVehicles then
      w.(lanes := Spawned(cfg, w.lanes, r, isEmergency), spawnTimer := now)
    else w
  }

  /** One frame of the main loop: vehicle update, phase switch, automatic
      spawn, then the keyboard events. */
  function Step(cfg: Config, w: World, now: int, r: Road, isEmergency: bool, events: seq<Event>): World {
    var t := SpawnGate(cfg, SwitchPhase(cfg, Advance(cfg, w), now), now, r, isEmergency);
    t.(lanes := PressKeys(cfg, t.lanes, events))
  }

  /** The cap on automatic spawns keeps the number of vehicles at or below the
      maximum across a frame without arrow-key presses; arrow-key presses
      can take it beyond, one vehicle per press. */
  lemma StepTotal(cfg: Config, w: World, now: int, r: Road, isEmergency: bool, events: seq<Event>)
    ensures Total(w.lanes) <= cfg.maxVehicles ==>
              Total(Step(cfg, w, now, r, isEmergency, events).lanes) <= cfg.maxVehicles + ArrowPresses(events)
    ensures Total(Step(cfg, w, now, r, isEmergency, events).lanes) <= Total(w.lanes) + 1 + ArrowPresses(events)
    ensures Total(Step(cfg, w, now, r, isEmergency, events).lanes) >= ArrowPresses(events)
  {
    var a := Advance(cfg, w);
    TickQueuesTotal(cfg, w.lanes, w.green);
    SwitchPhaseEntitled(cfg, a, now);
    var t := SpawnGate(cfg, SwitchPhase(cfg, a, now), now, r, isEmergency);
    PressKeysTotal(cfg, t.lanes, events);
  }

  /** A queue of road `r`: every vehicle in it belongs to road `r`, and none
      is in it twice. */
  predicate Lane(q: seq<Vehicle>, r: Road) {
    (forall v :: v in q ==> v.road == r) && Distinct(q)
  }

  /** Queues of two different roads share no vehicle. */
  lemma LanesDisjoint(a: seq<Vehicle>, r: Road, b: seq<Vehicle>, s: Road)
    requires Lane(a, r) && Lane(b, s) && r != s
    ensures forall v :: v in a ==> v !in b
  {
  }

  class Intersection {
    const cfg: Config
    var queues: Queues<seq<Vehicle>>
    var green: Road
    var lastSwitch: int
    var spawnTimer: int

    /** Each vehicle is on the queue of its own road, once. */
    ghost predicate Valid()
      reads this`queues
    {
      forall r :: Lane(queues.Get(r), r)
    }

    /** The queues as values. */
    function View(): (v: Queues<seq<Car>>)
      reads this`queues, queues.north, queues.south, queues.east, queues.west
      ensures forall r :: v.Get(r) == Cars(queues.Get(r))
    {
      Queues(Cars(queues.north), Cars(queues.south), Cars(queues.east), Cars(queues.west))
    }

    function State(): World
      reads this, queues.north, queues.south, queues.east, queues.west
    {
      World(View(), green, lastSwitch, spawnTimer)
    }

    /** Start-up: empty queues, the given initial green road, both timers at `now`. */
    constructor (cfg: Config, initialGreen: Road, now: int)
      ensures Valid() && this.cfg == cfg
      ensures State() == World(NoQueues(), initialGreen, now, now)
    {
      this.cfg := cfg;
      queues := Queues([], [], [], []);
      green := initialGreen;
      lastSwitch := now;
      spawnTimer := now;
    }

    /** total_vehicle_count: the queue lengths added up. */
    function TotalVehicleCount(): (n: nat)
      reads this`queues
      ensures n == |queues.north| + |queues.south| + |queues.east| + |queues.west|
    {
      TotalIsSumOfLengths(queues);
      Total(queues)
    }

    /** Replaces the queue of road `r` with `q`, a queue of that road. */
    method SetQueue(r: Road, q: seq<Vehicle>)
      requires Valid() && Lane(q, r)
      modifies this`queues
      ensures Valid()
      ensures queues == old(queues).Set(r, q)
      ensures View() == old(View()).Set(r, old(Cars(q)))
    {
      ghost var w0 := View();
      ghost var q0 := queues;
      ghost var c := Cars(q);
      queues := queues.Set(r, q);
      ghost var t := w0.Set(r, c);
      forall s ensures View().Get(s) == t.Get(s) {
        if s == r {
          assert Cars(q) == c;
        } else {
          assert queues.Get(s) == q0.Get(s);
          assert Cars(q0.Get(s)) == w0.Get(s);
        }
      }
      QueuesEqual(View(), t);
    }

    /** A vehicle at road `r`'s entry point, appended at the tail of that
        road's queue. */
    method Spawn(r: Road, isEmergency: bool)
      requires Valid()
      modifies this`queues
      ensures Valid()
      ensures View() == Spawned(cfg, old(View()), r, isEmergency)
    {
      ghost var w0 := View();
      var (x, y) := Entry(cfg, r);
      var v := new Vehicle(x, y, r, isEmergency, cfg.initialFlash);
      assert View() == w0;
      DistinctSnoc(queues.Get(r), v);
      CarsAppend(queues.Get(r), [v]);
      assert Cars([v]) == [EntryCar(cfg, r, isEmergency)];
      SetQueue(r, queues.Get(r) + [v]);
    }

    /** Moves every vehicle queued on road `r` once and removes from the
        queue those past the centre line. */
    method UpdateRoad(r: Road, g: Road)
      requires Valid()
      modifies this`queues, queues.Get(r)
      ensures Valid()
      ensures forall s :: s != r ==> queues.Get(s) == old(queues.Get(s))
      ensures forall v :: v in queues.Get(r) ==> v in old(queues.Get(r))
      ensures View() == old(View()).Set(r, Survivors(cfg, r, old(View()).Get(r), g))
    {
      ghost var w0 := View();
      var live := MoveRoad(r, g);
      ghost var w1 := View();
      ghost var c := Cars(live);
      SetQueue(r, live);
      SetOverrides(w1, w0, r, c);
    }

    /** The vehicles of road `r` moved once, and the queue of those of them
        not past the centre line; the queues themselves are left as they are,
        and the vehicles of the other roads are not touched. */
    method MoveRoad(r: Road, g: Road) returns (live: seq<Vehicle>)
      requires Valid()
      modifies queues.Get(r)
      ensures Lane(live, r) && forall v :: v in live ==> v in queues.Get(r)
      ensures Cars(live) == Survivors(cfg, r, old(Cars(queues.Get(r))), g)
      ensures forall s :: s != r ==> Cars(queues.Get(s)) == old(Cars(queues.Get(s)))
    {
      var vehicles := queues.Get(r);
      assert Lane(vehicles, r);
      live := MoveAndRemove(cfg, r, vehicles, g);
      forall s | s != r
        ensures Cars(queues.Get(s)) == old(Cars(queues.Get(s)))
      {
        LanesDisjoint(queues.Get(s), s, vehicles, r);
      }
    }

    /** update_and_draw_vehicles: every road's queue updated, in dictionary order. */
    method UpdateVehicles(g: Road)
      requires Valid()
      modifies this`queues, queues.north, queues.south, queues.east, queues.west
      ensures Valid()
      ensures View() == TickQueues(cfg, old(View()), g)
    {
      ghost var q0 := queues;
      ghost var w0 := View();
      for k := 0 to |RoadOrder|
        invariant Valid()
        invariant forall s :: k <= Rank(s) ==> queues.Get(s) == q0.Get(s)
        invariant View() == TickedBefore(cfg, w0, g, k)
      {
        var r := RoadOrder[k];
        RankOfPosition(k);
        UpdateRoad(r, g);
      }
      TickedBeforeAll(cfg, w0, g);
    }

    /** The timed phase switch of the main loop. */
    method SwitchIfDue(now: int)
      modifies this`green, this`lastSwitch
      ensures State() == SwitchPhase(cfg, old(State()), now)
    {
      ghost var before := State();
      if now - lastSwitch >= cfg.greenDuration {
        lastSwitch := now;
        green := SelectGreen(View());
      }
      assert View() == before.lanes;
    }

    /** The automatic spawn of the main loop, with the chosen road and
        emergency flag given. */
    method AutoSpawn(now: int, r: Road, isEmergency: bool)
      requires Valid()
      modifies this`queues, this`spawnTimer
      ensures Valid()
      ensures State() == SpawnGate(cfg, old(State()), now, r, isEmergency)
    {
      ghost var w0 := State();
      TotalOfSameLengths(queues, w0.lanes);
      if now - spawnTimer >= cfg.spawnInterval && TotalVehicleCount() < cfg.maxVehicles {
        spawnTimer := now;
        assert View() == w0.lanes;
        Spawn(r, isEmergency);
        assert State() == w0.(lanes := Spawned(cfg, w0.lanes, r, isEmergency), spawnTimer := now);
      }
    }

    /** The event loop of one frame: each arrow key spawns an emergency vehicle
        on its road; `quit` tells whether the window was closed. */
    method HandleEvents(events: seq<Event>) returns (quit: bool)
      requires Valid()
      modifies this`queues
      ensures Valid()
      ensures View() == PressKeys(cfg, old(View()), events)
      ensures quit <==> Quit in events
    {
      quit := false;
      for i := 0 to |events|
        invariant Valid()
        invariant View() == PressKeys(cfg, old(View()), events[..i])
        invariant quit <==> Quit in events[..i]
      {
        assert events[..i + 1][..i] == events[..i];
        match events[i]
        case Quit =>
          quit := true;
        case KeyDown(key) =>
          if key == Up {
            Spawn(North, true);
          } else if key == Down {
            Spawn(South, true);
          } else if key == Left {
            Spawn(West, true);
          } else if key == Right {
            Spawn(East, true);
          }
        case OtherEvent =>
      }
      assert events[..|events|] == events;
    }

    /** One frame of the main loop, with the clock reading, the randomly
        chosen road and emergency flag, and the frame's events given;
        `running` is false once the window is closed. */
    method Tick(now: int, r: Road, isEmergency: bool, events: seq<Event>) returns (running: bool)
      requires Valid()
      modifies this, queues.north, queues.south, queues.east, queues.west
      ensures Valid()
      ensures State() == Step(cfg, old(State()), now, r, isEmergency, events)
      ensures running <==> Quit !in events
    {
      UpdateVehicles(green);
      SwitchIfDue(now);
      AutoSpawn(now, r, isEmergency);
      var quit := HandleEvents(events);
      running := !quit;
    }
  }
}
