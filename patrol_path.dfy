/** PatrolPath (Assets/Scripts/Control/PatrolPath.cs): an ordered list of
    waypoints (the child transforms) with a `loop` flag. */
module PatrolPaths {
  import opened Common

  datatype PatrolPath = PatrolPath(loop: bool, waypoints: seq<Vector3>)

  /** GetNextIndex over `count` waypoints: the following index; past the last
      one a looping path wraps to 0 and any other path stays on the last index
      (there is no turning back). With no waypoints a non-looping path yields
      -1, which is no index at all. */
  function GetNextIndex(currentIndex: int, count: nat, loop: bool): (next: int)
    ensures 0 <= currentIndex < count - 1 ==> next == currentIndex + 1
    ensures currentIndex == count - 1 && loop ==> next == 0
    ensures currentIndex == count - 1 && !loop ==> next == count - 1
    ensures 0 <= currentIndex < count ==> 0 <= next < count
    ensures count == 0 && !loop && 0 <= currentIndex ==> next == -1
  {
    if currentIndex + 1 < count then currentIndex + 1
    else if loop then 0
    else count - 1
  }

  /** Walking a non-looping path from any index reaches the last index and
      stays there. */
  lemma {:induction false} NonLoopingReachesEnd(i: nat, count: nat, steps: nat)
    requires i < count && count - 1 - i <= steps
    ensures Iterate(i, count, false, steps) == count - 1
    decreases steps
  {
    if steps > 0 {
      var j := GetNextIndex(i, count, false);
      if i < count - 1 {
        NonLoopingReachesEnd(j, count, steps - 1);
      } else {
        NonLoopingReachesEnd(i, count, steps - 1);
      }
    }
  }

  /** Walking a looping path `count` steps from 0 comes back to 0. */
  lemma LoopingReturnsToStart(count: nat)
    requires count > 0
    ensures Iterate(0, count, true, count) == 0
  {
    IterateLoopingFromZero(count, count - 1);
  }

  lemma {:induction false} IterateLoopingFromZero(count: nat, k: nat)
    requires k < count
    ensures Iterate(0, count, true, k) == k
    ensures Iterate(0, count, true, k + 1) == GetNextIndex(k, count, true)
  {
    IterateStep(0, count, true, k);
    if k > 0 {
      IterateLoopingFromZero(count, k - 1);
    }
  }

  /** The index reached after `steps` calls of GetNextIndex. */
  function Iterate(i: int, count: nat, loop: bool, steps: nat): int
    decreases steps
  {
    if steps == 0 then i else Iterate(GetNextIndex(i, count, loop), count, loop, steps - 1)
  }

  lemma {:induction false} IterateStep(i: int, count: nat, loop: bool, steps: nat)
    ensures Iterate(i, count, loop, steps + 1) == GetNextIndex(Iterate(i, count, loop, steps), count, loop)
    decreases steps
  {
    if steps > 0 {
      IterateStep(GetNextIndex(i, count, loop), count, loop, steps - 1);
    }
  }

  /** OnDrawGizmos: a sphere at every waypoint and a line to its next waypoint,
      stopping right after the sphere of the first waypoint that is its own
      successor. Returned as the indices of the spheres and of the lines. */
  method DrawGizmos(path: PatrolPath) returns (spheres: seq<nat>, lines: seq<(nat, int)>)
    ensures |spheres| <= |path.waypoints|
    ensures forall k :: 0 <= k < |spheres| ==> spheres[k] == k
    ensures |lines| <= |spheres|
    ensures forall k :: 0 <= k < |lines| ==> lines[k] == (k, GetNextIndex(k, |path.waypoints|, path.loop))
    ensures forall k :: 0 <= k < |lines| ==> GetNextIndex(k, |path.waypoints|, path.loop) != k
    ensures (|spheres| == |path.waypoints| && |lines| == |spheres|) ||
            (|lines| == |spheres| - 1 && GetNextIndex(|lines|, |path.waypoints|, path.loop) == |lines|)
  {
    var count := |path.waypoints|;
    spheres := [];
    lines := [];
    var i := 0;
    while i < count
      invariant 0 <= i <= count
      invariant |spheres| == i && |lines| == i
      invariant forall k :: 0 <= k < i ==> spheres[k] == k
      invariant forall k :: 0 <= k < i ==> lines[k] == (k, GetNextIndex(k, count, path.loop))
      invariant forall k :: 0 <= k < i ==> GetNextIndex(k, count, path.loop) != k
    {
      var j := GetNextIndex(i, count, path.loop);
      spheres := spheres + [i];
      if i == j {
        return;
      }
      lines := lines + [(i, j)];
      i := i + 1;
    }
  }

  /** On a non-looping path every waypoint is drawn and joined to the next,
      except the last, which has no outgoing line; a looping path of two or more
      waypoints also draws the closing line back to the first. */
  lemma GizmoStops(count: nat, loop: bool)
    ensures forall k :: 0 <= k < count - 1 ==> GetNextIndex(k, count, loop) != k
    ensures count > 0 && !loop ==> GetNextIndex(count - 1, count, loop) == count - 1
    ensures count > 1 && loop ==> GetNextIndex(count - 1, count, loop) == 0
  {
  }
}
