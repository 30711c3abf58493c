/** The vehicle motion rule: whether a vehicle moves this tick, how far and in
    which direction, and the cosmetic flash counter of emergency vehicles. */
module Motion {
  import opened Roads
  import opened Geometry

  /** The state of one vehicle as a value. */
  datatype Car = Car(x: int, y: int, road: Road, isEmergency: bool, flash: int)

  /** A vehicle moves when its road has the green light or when it is an
      emergency vehicle. */
  predicate MayMove(c: Car, green: Road) {
    c.road == green || c.isEmergency
  }

  /** The vehicle as it is after one call of its move rule with `green` as
      the green road. */
  function Moved(c: Car, green: Road): (d: Car)
    ensures d.road == c.road && d.isEmergency == c.isEmergency
    ensures var s := if MayMove(c, green) then Speed(c.isEmergency) else 0;
            d.x == c.x + s * Heading(c.road).0 && d.y == c.y + s * Heading(c.road).1
    ensures d.flash == if c.isEmergency then c.flash + 1 else c.flash
  {
    var speed := Speed(c.isEmergency);
    if c.road == green || c.isEmergency then
      var p :=
        if c.road == North then c.(y := c.y + speed)
        else if c.road == South then c.(y := c.y - speed)
        else if c.road == East then c.(x := c.x - speed)
        else c.(x := c.x + speed);
      if c.isEmergency then p.(flash := p.flash + 1) else p
    else
      c
  }

  /** The vehicle after `k` ticks during which the green road stayed `green`. */
  function MovedTimes(c: Car, green: Road, k: nat): Car {
    if k == 0 then c else Moved(MovedTimes(c, green, k - 1), green)
  }

  /** Over `k` ticks a vehicle that may move advances `k` times its speed
      along its road's heading and nothing else about its position changes;
      an ordinary vehicle on a red road does not move at all; the flash
      counter of an emergency vehicle counts its moves. */
  lemma {:induction false} MovedTimesDisplacement(c: Car, green: Road, k: nat)
    ensures var d := MovedTimes(c, green, k);
            var s := if MayMove(c, green) then k * Speed(c.isEmergency) else 0;
            d.road == c.road && d.isEmergency == c.isEmergency &&
            d.x == c.x + s * Heading(c.road).0 && d.y == c.y + s * Heading(c.road).1 &&
            d.flash == if c.isEmergency then c.flash + k else c.flash
  {
    if k > 0 {
      MovedTimesDisplacement(c, green, k - 1);
      var e := MovedTimes(c, green, k - 1);
      assert MayMove(e, green) == MayMove(c, green);
      if MayMove(c, green) {
        var v := Speed(c.isEmergency);
        assert k * v == (k - 1) * v + v;
      }
    }
  }

  /** A vehicle just placed at its road's entry point, with the green light
      on its road for good or being an emergency vehicle, is past the centre
      line after exactly those ticks `k` in which it has travelled further
      than the clear distance. */
  lemma CrossesAfter(cfg: Config, r: Road, isEmergency: bool, green: Road, k: nat)
    requires green == r || isEmergency
    ensures var d := MovedTimes(Car(Entry(cfg, r).0, Entry(cfg, r).1, r, isEmergency, cfg.initialFlash), green, k);
            Crossed(cfg, r, d.x, d.y) <==> k * Speed(isEmergency) > ClearDistance(cfg, r)
  {
    var c := Car(Entry(cfg, r).0, Entry(cfg, r).1, r, isEmergency, cfg.initialFlash);
    MovedTimesDisplacement(c, green, k);
    CrossingAlongHeading(cfg, r, k * Speed(isEmergency));
  }

  /** A vehicle on the screen: its position and its flash counter change as
      it moves; its road and its emergency flag are fixed when it is made. */
  class Vehicle {
    var x: int
    var y: int
    const road: Road
    const isEmergency: bool
    var flashTimer: int

    function Value(): Car
      reads this
    {
      Car(x, y, road, isEmergency, flashTimer)
    }

    constructor (x: int, y: int, road: Road, isEmergency: bool, initialFlash: int)
      ensures Value() == Car(x, y, road, isEmergency, initialFlash)
    {
      this.x := x;
      this.y := y;
      this.road := road;
      this.isEmergency := isEmergency;
      this.flashTimer := initialFlash;
    }

    /** One tick of motion with `green` as the green road. */
    method Move(green: Road)
      modifies this
      ensures Value() == Moved(old(Value()), green)
    {
      var speed := Speed(isEmergency);
      if road == green || isEmergency {
        if road == North {
          y := y + speed;
        } else if road == South {
          y := y - speed;
        } else if road == East {
          x := x - speed;
        } else if road == West {
          x := x + speed;
        }
        if isEmergency {
          flashTimer := flashTimer + 1;
        }
      }
    }
  }

  /** The values of a queue of vehicles, in queue order. */
  function Cars(q: seq<Vehicle>): (cs: seq<Car>)
    reads q
    ensures |cs| == |q|
    ensures forall i :: 0 <= i < |q| ==> cs[i] == q[i].Value()
  {
    seq(|q|, i reads q requires 0 <= i < |q| => q[i].Value())
  }

  /** The values of two queues joined are the values of each, joined. */
  lemma {:induction false} CarsAppend(a: seq<Vehicle>, b: seq<Vehicle>)
    ensures Cars(a + b) == Cars(a) + Cars(b)
  {
    if a == [] {
      assert a + b == b;
    } else {
      assert (a + b)[1..] == a[1..] + b;
      CarsAppend(a[1..], b);
    }
  }

  /** Moves the vehicle at position `i` of a queue in which it occurs once:
      the values of the queue change at that position only. */
  method MoveAt(q: seq<Vehicle>, i: nat, green: Road)
    requires i < |q|
    requires forall j :: 0 <= j < |q| && j != i ==> q[j] != q[i]
    modifies q[i]
    ensures Cars(q) == old(Cars(q))[i := Moved(old(q[i].Value()), green)]
  {
    q[i].Move(green);
    forall j | 0 <= j < |q| && j != i
      ensures Cars(q)[j] == old(Cars(q))[j]
    {
      assert q[j] != q[i];
    }
  }
}
