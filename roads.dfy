/** The four approach roads of the intersection and the per-road table the
    simulation keeps for them (a dictionary keyed North, South, East, West). */
module Roads {

  datatype Road = North | South | East | West

  /** The insertion order of the queue dictionary. Every scan over the roads
      (the emergency scan, the sort, the per-tick update, the count) visits
      them in this order. */
  const RoadOrder: seq<Road> := [North, South, East, West]

  /** Position of a road in RoadOrder. */
  function Rank(r: Road): (k: nat)
    ensures k < |RoadOrder| && RoadOrder[k] == r
  {
    match r
    case North => 0
    case South => 1
    case East => 2
    case West => 3
  }

  /** RoadOrder lists every road once: the road at position `k` has rank `k`. */
  lemma RankOfPosition(k: nat)
    requires k < |RoadOrder|
    ensures Rank(RoadOrder[k]) == k
  {
  }

  datatype Option<T> = None | Some(value: T)

  /** One entry per road: the dictionary of queues, with its keys fixed. */
  datatype Queues<T> = Queues(north: T, south: T, east: T, west: T)
  {
    function Get(r: Road): T {
      match r
      case North => north
      case South => south
      case East => east
      case West => west
    }

    /** The table with the entry of road `r` replaced and every other entry kept. */
    function Set(r: Road, t: T): (q: Queues<T>)
      ensures q.Get(r) == t
      ensures forall s :: s != r ==> q.Get(s) == Get(s)
    {
      match r
      case North => this.(north := t)
      case South => this.(south := t)
      case East => this.(east := t)
      case West => this.(west := t)
    }
  }

  /** Two tables are equal when they agree on every road. */
  lemma QueuesEqual<T>(a: Queues<T>, b: Queues<T>)
    requires forall r :: a.Get(r) == b.Get(r)
    ensures a == b
  {
    assert a.Get(North) == b.Get(North) && a.Get(South) == b.Get(South);
    assert a.Get(East) == b.Get(East) && a.Get(West) == b.Get(West);
  }

  /** Replacing the entry of road `r` in two tables that agree on every
      other road gives the same table. */
  lemma SetOverrides<T>(a: Queues<T>, b: Queues<T>, r: Road, t: T)
    requires forall s :: s != r ==> a.Get(s) == b.Get(s)
    ensures a.Set(r, t) == b.Set(r, t)
  {
    QueuesEqual(a.Set(r, t), b.Set(r, t));
  }

  /** The queue table at start-up: every road's queue empty. */
  function NoQueues<T>(): Queues<seq<T>> {
    Queues([], [], [], [])
  }

  /** Sum of the queue lengths of the roads RoadOrder[k..]. */
  function LengthsFrom<T>(q: Queues<seq<T>>, k: nat): nat
    requires k <= |RoadOrder|
    decreases |RoadOrder| - k
  {
    if k == |RoadOrder| then 0 else |q.Get(RoadOrder[k])| + LengthsFrom(q, k + 1)
  }

  /** Number of vehicles on all roads: the sum, over the roads in dictionary
      order, of their queue lengths. */
  function Total<T>(q: Queues<seq<T>>): nat {
    LengthsFrom(q, 0)
  }

  lemma TotalIsSumOfLengths<T>(q: Queues<seq<T>>)
    ensures Total(q) == |q.north| + |q.south| + |q.east| + |q.west|
  {
    assert LengthsFrom(q, 4) == 0;
    assert LengthsFrom(q, 3) == |q.west|;
    assert LengthsFrom(q, 2) == |q.east| + |q.west|;
    assert LengthsFrom(q, 1) == |q.south| + |q.east| + |q.west|;
  }

  /** Replacing one road's queue changes the total by the difference of the
      two queue lengths and by nothing else. */
  lemma TotalAfterSet<T>(q: Queues<seq<T>>, r: Road, s: seq<T>)
    ensures Total(q.Set(r, s)) == Total(q) - |q.Get(r)| + |s|
  {
    TotalIsSumOfLengths(q);
    TotalIsSumOfLengths(q.Set(r, s));
  }

  /** Two tables whose queues have the same lengths road by road have the same total. */
  lemma TotalOfSameLengths<A, B>(a: Queues<seq<A>>, b: Queues<seq<B>>)
    requires forall r :: |a.Get(r)| == |b.Get(r)|
    ensures Total(a) == Total(b)
  {
    TotalIsSumOfLengths(a);
    TotalIsSumOfLengths(b);
    assert |a.Get(North)| == |b.Get(North)| && |a.Get(South)| == |b.Get(South)|;
    assert |a.Get(East)| == |b.Get(East)| && |a.Get(West)| == |b.Get(West)|;
  }
}
