/** The choice of the next green road: emergency vehicles first, otherwise
    the most loaded road, ties going to the road that comes first in the
    dictionary order North, South, East, West. */
module Lights {
  import opened Roads
  import opened Motion

  /** The queue holds at least one emergency vehicle. */
  predicate HasEmergency(cars: seq<Car>) {
    exists c :: c in cars && c.isEmergency
  }

  function Load(q: Queues<seq<Car>>, r: Road): nat {
    |q.Get(r)|
  }

  /** The first road of RoadOrder[k..] whose queue holds an emergency
      vehicle, if there is one. */
  function FirstEmergencyFrom(q: Queues<seq<Car>>, k: nat): (found: Option<Road>)
    requires k <= |RoadOrder|
    ensures found.Some? ==>
              k <= Rank(found.value) && HasEmergency(q.Get(found.value)) &&
              forall s :: k <= Rank(s) < Rank(found.value) ==> !HasEmergency(q.Get(s))
    ensures found.None? ==> forall s :: k <= Rank(s) ==> !HasEmergency(q.Get(s))
    decreases |RoadOrder| - k
  {
    if k == |RoadOrder| then None
    else if HasEmergency(q.Get(RoadOrder[k])) then Some(RoadOrder[k])
    else FirstEmergencyFrom(q, k + 1)
  }

  /** Road `a` comes before road `b` in the descending stable sort by queue
      length: it has the longer queue, or an equally long one and comes
      first in dictionary order. */
  predicate Precedes(q: Queues<seq<Car>>, a: Road, b: Road) {
    Load(q, a) > Load(q, b) || (Load(q, a) == Load(q, b) && Rank(a) < Rank(b))
  }

  predicate SortedByLoad(q: Queues<seq<Car>>, rs: seq<Road>) {
    forall i, j :: 0 <= i < j < |rs| ==> Precedes(q, rs[i], rs[j])
  }

  /** Roads listed in dictionary order. */
  predicate InRoadOrder(rs: seq<Road>) {
    forall i, j :: 0 <= i < j < |rs| ==> Rank(rs[i]) < Rank(rs[j])
  }

  /** Insertion of `r` into a list already sorted by descending queue length,
      in front of every road whose queue is not longer. */
  function InsertByLoad(q: Queues<seq<Car>>, r: Road, sorted: seq<Road>): (t: seq<Road>)
    ensures |t| == |sorted| + 1
  {
    if sorted == [] || Load(q, r) >= Load(q, sorted[0]) then [r] + sorted
    else [sorted[0]] + InsertByLoad(q, r, sorted[1..])
  }

  /** Python's `sorted(roads, key=length, reverse=True)`: a stable sort by
      descending queue length, here as an insertion sort. */
  function SortByLoad(q: Queues<seq<Car>>, rs: seq<Road>): (t: seq<Road>)
    ensures |t| == |rs|
  {
    if rs == [] then [] else InsertByLoad(q, rs[0], SortByLoad(q, rs[1..]))
  }

  lemma SortedTail(q: Queues<seq<Car>>, rs: seq<Road>)
    requires SortedByLoad(q, rs) && rs != []
    ensures SortedByLoad(q, rs[1..])
  {
    forall i, j | 0 <= i < j < |rs| - 1 ensures Precedes(q, rs[1..][i], rs[1..][j]) {
      assert rs[1..][i] == rs[i + 1] && rs[1..][j] == rs[j + 1];
    }
  }

  lemma SortedCons(q: Queues<seq<Car>>, r: Road, rs: seq<Road>)
    requires SortedByLoad(q, rs)
    requires forall j :: 0 <= j < |rs| ==> Precedes(q, r, rs[j])
    ensures SortedByLoad(q, [r] + rs)
  {
    var t := [r] + rs;
    forall i, j | 0 <= i < j < |t| ensures Precedes(q, t[i], t[j]) {
      assert t[j] == rs[j - 1];
      if i > 0 {
        assert t[i] == rs[i - 1];
      }
    }
  }

  lemma {:induction false} InsertByLoadSorted(q: Queues<seq<Car>>, r: Road, sorted: seq<Road>)
    requires SortedByLoad(q, sorted)
    requires forall s :: s in sorted ==> Rank(r) < Rank(s)
    ensures forall s :: s in InsertByLoad(q, r, sorted) <==> s == r || s in sorted
    ensures SortedByLoad(q, InsertByLoad(q, r, sorted))
  {
    if sorted == [] || Load(q, r) >= Load(q, sorted[0]) {
      forall j | 0 <= j < |sorted| ensures Precedes(q, r, sorted[j]) {
        assert sorted[j] in sorted;
        if j > 0 {
          assert Precedes(q, sorted[0], sorted[j]);
        }
      }
      SortedCons(q, r, sorted);
    } else {
      var tail := sorted[1..];
      var u := InsertByLoad(q, r, tail);
      assert forall s :: s in sorted <==> s == sorted[0] || s in tail by {
        assert sorted == [sorted[0]] + tail;
      }
      SortedTail(q, sorted);
      InsertByLoadSorted(q, r, tail);
      forall j | 0 <= j < |u| ensures Precedes(q, sorted[0], u[j]) {
        assert u[j] in u;
        if u[j] != r {
          var m :| 0 <= m < |tail| && tail[m] == u[j];
          assert Precedes(q, sorted[0], sorted[m + 1]);
        }
      }
      SortedCons(q, sorted[0], u);
    }
  }

  /** The sort yields exactly the roads it was given, as many as it was given,
      ordered by descending queue length and, among equal lengths, in
      dictionary order: a stable descending sort of roads given in
      dictionary order. */
  lemma {:induction false} SortByLoadSorted(q: Queues<seq<Car>>, rs: seq<Road>)
    requires InRoadOrder(rs)
    ensures forall s :: s in SortByLoad(q, rs) <==> s in rs
    ensures SortedByLoad(q, SortByLoad(q, rs))
  {
    if rs != [] {
      var tail := rs[1..];
      assert forall s :: s in rs <==> s == rs[0] || s in tail by {
        assert rs == [rs[0]] + tail;
      }
      assert InRoadOrder(tail) by {
        forall i, j | 0 <= i < j < |tail| ensures Rank(tail[i]) < Rank(tail[j]) {
          assert tail[i] == rs[i + 1] && tail[j] == rs[j + 1];
        }
      }
      SortByLoadSorted(q, tail);
      forall s | s in SortByLoad(q, tail) ensures Rank(rs[0]) < Rank(s) {
        var m :| 0 <= m < |tail| && tail[m] == s;
        assert rs[m + 1] == s;
      }
      InsertByLoadSorted(q, rs[0], SortByLoad(q, tail));
    }
  }

  /** update_traffic_lights: the first road holding an emergency vehicle;
      failing that, the first road of the descending sort by queue length. */
  function SelectGreen(q: Queues<seq<Car>>): (r: Road)
    ensures HasEmergency(q.Get(r)) || forall s :: !HasEmergency(q.Get(s))
    ensures forall s :: Rank(s) < Rank(r) ==> !HasEmergency(q.Get(s))
  {
    match FirstEmergencyFrom(q, 0)
    case Some(r) => r
    case None => SortByLoad(q, RoadOrder)[0]
  }

  /** The road the selection rule entitles to the green light, stated
      without any scan or sort. */
  predicate Entitled(q: Queues<seq<Car>>, r: Road) {
    if exists s :: HasEmergency(q.Get(s)) then
      HasEmergency(q.Get(r)) && forall s :: Rank(s) < Rank(r) ==> !HasEmergency(q.Get(s))
    else
      forall s :: s != r ==> Precedes(q, r, s)
  }

  /** Without emergency vehicles the head of the sort has a longer queue than
      every other road, or one as long and an earlier place in dictionary order. */
  lemma SortHeadPrecedesAll(q: Queues<seq<Car>>)
    ensures forall s :: s != SortByLoad(q, RoadOrder)[0] ==> Precedes(q, SortByLoad(q, RoadOrder)[0], s)
  {
    assert InRoadOrder(RoadOrder);
    SortByLoadSorted(q, RoadOrder);
    var t := SortByLoad(q, RoadOrder);
    forall s | s != t[0] ensures Precedes(q, t[0], s) {
      assert RoadOrder[Rank(s)] == s;
      assert s in t;
      var m :| 0 <= m < |t| && t[m] == s;
    }
  }

  /** At most one road is entitled to the green light. */
  lemma EntitledUnique(q: Queues<seq<Car>>, a: Road, b: Road)
    requires Entitled(q, a) && Entitled(q, b)
    ensures a == b
  {
    if !exists s :: HasEmergency(q.Get(s)) {
      assert a != b ==> Precedes(q, a, b) && Precedes(q, b, a);
    }
  }

  /** The selection returns the entitled road and no other: with an emergency
      vehicle queued anywhere it is the first road in dictionary order that
      holds one, whatever the queue lengths; otherwise it is the road with the
      longest queue, the earliest in dictionary order among equally long ones. */
  lemma SelectGreenIsEntitled(q: Queues<seq<Car>>, r: Road)
    ensures SelectGreen(q) == r <==> Entitled(q, r)
  {
    var g := SelectGreen(q);
    match FirstEmergencyFrom(q, 0)
    case Some(e) =>
      assert Entitled(q, g);
    case None =>
      assert forall s :: !HasEmergency(q.Get(s));
      SortHeadPrecedesAll(q);
      assert Entitled(q, g);
    if Entitled(q, r) {
      EntitledUnique(q, r, g);
    }
  }

  /** With an emergency vehicle on East and ordinary vehicles queued
      elsewhere, however many, East gets the green light. */
  lemma EmergencyOutranksQueueLength(q: Queues<seq<Car>>)
    requires HasEmergency(q.east)
    requires !HasEmergency(q.north) && !HasEmergency(q.south)
    ensures SelectGreen(q) == East
  {
    SelectGreenIsEntitled(q, East);
    assert q.Get(East) == q.east && q.Get(North) == q.north && q.Get(South) == q.south;
  }

  /** With every queue empty North gets the green light. */
  lemma SelectGreenWhenEmpty()
    ensures SelectGreen(NoQueues()) == North
  {
    var q: Queues<seq<Car>> := NoQueues();
    assert forall s :: q.Get(s) == [];
    SelectGreenIsEntitled(q, North);
  }
}
