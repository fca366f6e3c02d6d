/** How the AI picks its target (AIController.GetAllCombatTargetsInRange and
    GetClosestTarget in Assets/Scripts/Control/AIController.cs): the physics
    query writes its hits into a reused collider buffer, the whole buffer is
    filtered to live combat targets of one faction, and the result is ordered
    by distance with LINQ's OrderBy, a stable sort. */
module Perception {
  import opened Common
  import opened Characters

  /** The AI's collider buffer has 100 slots. */
  const BufferSize: nat := 100

  /** A collider found by the physics query, with the CombatTarget component of
      its game object, if any. */
  datatype Collider = Collider(target: CombatTarget?)

  /** One filtered target with its distance to the AI. */
  datatype Candidate = Candidate(target: CombatTarget, distance: real)

  /** Physics.OverlapSphereNonAlloc: the first slots receive the hits, as many
      as fit; every later slot keeps what an earlier query left there. */
  function Overlap(buffer: seq<Option<Collider>>, hits: seq<Collider>): (r: seq<Option<Collider>>)
    ensures |r| == |buffer|
    ensures forall i :: 0 <= i < |buffer| && i < |hits| ==> r[i] == Some(hits[i])
    ensures forall i :: |hits| <= i < |buffer| ==> r[i] == buffer[i]
  {
    seq(|buffer|, i requires 0 <= i < |buffer| => if i < |hits| then Some(hits[i]) else buffer[i])
  }

  /** The objects the filter reads for one buffer slot. */
  function EntryObjects(e: Option<Collider>): set<object>
  {
    if e.Some? && e.value.target != null then
      {e.value.target.transform} + (if e.value.target.health != null then {e.value.target.health} else {})
    else {}
  }

  function BufferObjects(buffer: seq<Option<Collider>>): set<object>
  {
    if buffer == [] then {} else EntryObjects(buffer[0]) + BufferObjects(buffer[1..])
  }

  /** The where-clauses of the query: a non-null collider with a CombatTarget of
      the wanted type whose Health exists and is alive. */
  predicate Qualifies(e: Option<Collider>, targetType: CombatTargetType)
    reads EntryObjects(e)
  {
    e.Some? && e.value.target != null && e.value.target.targetType == targetType &&
    e.value.target.health != null && !e.value.target.health.isDead
  }

  /** The filtered targets in buffer order, each with GetTargetDistance, the
      distance from the target's position to the AI's position `own`. */
  function Candidates(buffer: seq<Option<Collider>>, targetType: CombatTargetType, own: Vector3,
                      dist: (Vector3, Vector3) -> real): (r: seq<Candidate>)
    reads BufferObjects(buffer)
    ensures |r| <= |buffer|
  {
    if buffer == [] then []
    else
      (if Qualifies(buffer[0], targetType)
       then [Candidate(buffer[0].value.target, dist(buffer[0].value.target.transform.position, own))]
       else []) + Candidates(buffer[1..], targetType, own, dist)
  }

  /** A candidate is exactly a qualifying buffer slot, with its distance. */
  lemma {:induction false} CandidatesExactly(buffer: seq<Option<Collider>>, targetType: CombatTargetType,
                                             own: Vector3, dist: (Vector3, Vector3) -> real, c: Candidate)
    ensures c in Candidates(buffer, targetType, own, dist) <==>
            exists i :: 0 <= i < |buffer| && Qualifies(buffer[i], targetType) &&
                        c == Candidate(buffer[i].value.target, dist(buffer[i].value.target.transform.position, own))
  {
    if buffer != [] {
      CandidatesExactly(buffer[1..], targetType, own, dist, c);
      var rest := Candidates(buffer[1..], targetType, own, dist);
      if c in Candidates(buffer, targetType, own, dist) && c !in rest {
        assert Qualifies(buffer[0], targetType);
      }
      if exists i :: 0 <= i < |buffer| && Qualifies(buffer[i], targetType) &&
                     c == Candidate(buffer[i].value.target, dist(buffer[i].value.target.transform.position, own)) {
        var i :| 0 <= i < |buffer| && Qualifies(buffer[i], targetType) &&
                 c == Candidate(buffer[i].value.target, dist(buffer[i].value.target.transform.position, own));
        if i > 0 {
          assert buffer[1..][i - 1] == buffer[i];
        }
      }
    }
  }

  /** The buffer is never cleared: a qualifying target left in a slot past the
      current query's hits is still a candidate. */
  lemma StaleEntryConsidered(buffer: seq<Option<Collider>>, hits: seq<Collider>, i: nat,
                             targetType: CombatTargetType, own: Vector3, dist: (Vector3, Vector3) -> real)
    requires |hits| <= i < |buffer| && Qualifies(buffer[i], targetType)
    ensures Candidate(buffer[i].value.target, dist(buffer[i].value.target.transform.position, own))
            in Candidates(Overlap(buffer, hits), targetType, own, dist)
  {
    var after := Overlap(buffer, hits);
    assert after[i] == buffer[i];
    CandidatesExactly(after, targetType, own, dist,
                      Candidate(buffer[i].value.target, dist(buffer[i].value.target.transform.position, own)));
  }

  predicate SortedByDistance(s: seq<Candidate>)
  {
    forall i, j :: 0 <= i < j < |s| ==> s[i].distance <= s[j].distance
  }

  /** Inserts `c` in front of the first element that is not closer, so that
      it stays ahead of the elements of equal distance that came after it. */
  function Insert(c: Candidate, s: seq<Candidate>): seq<Candidate>
  {
    if s == [] || c.distance <= s[0].distance then [c] + s
    else [s[0]] + Insert(c, s[1..])
  }

  /** OrderBy(distance): a stable sort, written as an insertion sort. */
  function SortByDistance(s: seq<Candidate>): seq<Candidate>
  {
    if s == [] then [] else Insert(s[0], SortByDistance(s[1..]))
  }

  lemma {:induction false} InsertPermutation(c: Candidate, s: seq<Candidate>)
    ensures multiset(Insert(c, s)) == multiset(s) + multiset{c}
  {
    if s != [] && c.distance > s[0].distance {
      InsertPermutation(c, s[1..]);
      assert s == [s[0]] + s[1..];
    }
  }

  lemma {:induction false} InsertSortedPermutation(c: Candidate, s: seq<Candidate>)
    requires SortedByDistance(s)
    ensures SortedByDistance(Insert(c, s))
    ensures multiset(Insert(c, s)) == multiset(s) + multiset{c}
  {
    InsertPermutation(c, s);
    if s != [] && c.distance > s[0].distance {
      InsertSortedPermutation(c, s[1..]);
      var rest := Insert(c, s[1..]);
      forall k | 0 <= k < |rest|
        ensures s[0].distance <= rest[k].distance
      {
        assert rest[k] in multiset(rest);
        if rest[k] != c {
          assert rest[k] in multiset(s[1..]);
          var m :| 0 <= m < |s[1..]| && s[1..][m] == rest[k];
          assert s[m + 1] == rest[k];
        }
      }
      assert Insert(c, s) == [s[0]] + rest;
    }
  }

  /** The order is by ascending distance and loses or adds no candidate. */
  lemma {:induction false} SortByDistanceCorrect(s: seq<Candidate>)
    ensures SortedByDistance(SortByDistance(s))
    ensures multiset(SortByDistance(s)) == multiset(s)
  {
    if s != [] {
      SortByDistanceCorrect(s[1..]);
      InsertSortedPermutation(s[0], SortByDistance(s[1..]));
      assert s == [s[0]] + s[1..];
    }
  }

  /** Index of the first candidate at the smallest distance: the independent
      reference for which target a stable sort puts first. */
  function FirstNearest(s: seq<Candidate>): (i: nat)
    requires s != []
    ensures i < |s|
    ensures forall k :: 0 <= k < |s| ==> s[i].distance <= s[k].distance
    ensures forall k :: 0 <= k < i ==> s[k].distance > s[i].distance
  {
    if |s| == 1 then 0
    else
      var j := 1 + FirstNearest(s[1..]);
      assert forall k :: 1 <= k < |s| ==> s[k] == s[1..][k - 1];
      if s[0].distance <= s[j].distance then 0 else j
  }

  /** The sorted sequence starts with the first nearest candidate, so ties are
      broken by buffer order. */
  lemma {:induction false} SortHead(s: seq<Candidate>)
    requires s != []
    ensures SortByDistance(s)[0] == s[FirstNearest(s)]
  {
    SortByDistanceCorrect(s);
    if |s| == 1 {
      assert SortByDistance(s[1..]) == [];
    } else {
      var tail := SortByDistance(s[1..]);
      SortHead(s[1..]);
      SortByDistanceCorrect(s[1..]);
      assert tail != [] by {
        assert s[1] in multiset(s[1..]);
      }
      var j := 1 + FirstNearest(s[1..]);
      assert tail[0] == s[j];
    }
  }

  /** GetClosestTarget: the first target of the sorted candidates, or none. */
  function Closest(candidates: seq<Candidate>): (r: Option<CombatTarget>)
    ensures r.None? <==> candidates == []
  {
    var sorted := SortByDistance(candidates);
    SortByDistanceCorrect(candidates);
    if sorted == [] then
      assert |multiset(candidates)| == 0;
      None
    else Some(sorted[0].target)
  }

  /** The closest target is the first candidate (in buffer order) at the
      smallest distance; no candidate is strictly closer. */
  lemma ClosestIsNearest(candidates: seq<Candidate>)
    requires candidates != []
    ensures var i := FirstNearest(candidates);
            Closest(candidates) == Some(candidates[i].target) &&
            forall k :: 0 <= k < |candidates| ==> candidates[i].distance <= candidates[k].distance
  {
    SortHead(candidates);
  }
}
