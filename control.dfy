/** The enemy AI (Assets/Scripts/Control/AIController.cs) together with the
    capability set-up it inherits from RPGController
    (Assets/Scripts/Control/RPGController.cs). Each frame a live agent attacks
    the closest attackable target it senses, otherwise stays suspicious for
    `lookTime` seconds after it last saw one, otherwise patrols. */
module Control {
  import opened Common
  import opened Characters
  import opened Perception
  import opened PatrolPaths

  /** RPGController's inspector default: the faction it looks for. */
  const DefaultControllerTargetType: CombatTargetType := Player

  /** The AI's inspector values; `Defaults` holds the ones in the source. */
  datatype AIConfig = AIConfig(chaseRange: real, chaseSpeed: real, lookTime: real,
                               patrolSpeed: real, waypointTolerance: real, waypointTime: real)

  const Defaults: AIConfig := AIConfig(5.0, 2.0, 5.0, 1.508, 1.0, 6.0)

  class AIController {
    const combatTargetType: CombatTargetType
    const mover: Mover?
    const fighter: Fighter?
    const hasFighter: bool
    var enabled: bool
    const scheduler: ActionScheduler
    const health: Health
    const transform: Transform
    const config: AIConfig
    const patrolPath: Option<PatrolPath>
    /** The patrol cursor: the index of the current waypoint. */
    var waypointIndex: nat
    /** The 100-slot collider buffer, reused by every query and never cleared. */
    const colliders: array<Option<Collider>>
    var startPosition: Vector3
    var timeSinceLastSawTarget: Duration
    var timeSinceLastWaypoint: Duration

    /** The components belong to one game object: the mover and the fighter
        use this AI's scheduler and transform, and the cursor is on the path. */
    ghost predicate Valid()
      reads this
    {
      colliders.Length == BufferSize &&
      (enabled ==> mover != null) &&
      hasFighter == (fighter != null) &&
      (mover != null ==> mover.scheduler == scheduler && mover.transform == transform) &&
      (fighter != null ==> fighter.scheduler == scheduler) &&
      (patrolPath.Some? && |patrolPath.value.waypoints| > 0 ==> waypointIndex < |patrolPath.value.waypoints|)
    }

    /** A PatrolPath with no child waypoints: the first GetWaypoint on it calls
        GetChild on an empty transform, which throws. */
    predicate EmptyPath()
    {
      patrolPath.Some? && |patrolPath.value.waypoints| == 0
    }

    /** Awake (RPGController.Awake followed by the AI's own): hasFighter holds
        exactly when a Fighter is present, and the controller disables itself
        exactly when there is no Mover. Both timers start at +infinity. */
    constructor Awake(combatTargetType: CombatTargetType, mover: Mover?, fighter: Fighter?,
                      scheduler: ActionScheduler, health: Health, transform: Transform,
                      config: AIConfig, patrolPath: Option<PatrolPath>)
      requires mover != null ==> mover.scheduler == scheduler && mover.transform == transform
      requires fighter != null ==> fighter.scheduler == scheduler
      ensures Valid()
      ensures hasFighter <==> fighter != null
      ensures enabled <==> mover != null
      ensures this.combatTargetType == combatTargetType && this.mover == mover && this.fighter == fighter
      ensures this.scheduler == scheduler && this.health == health && this.transform == transform
      ensures this.config == config && this.patrolPath == patrolPath && waypointIndex == 0
      ensures timeSinceLastSawTarget == Infinite && timeSinceLastWaypoint == Infinite
      ensures fresh(colliders) && forall i :: 0 <= i < colliders.Length ==> colliders[i].None?
    {
      this.combatTargetType := combatTargetType;
      this.fighter := fighter;
      hasFighter := fighter != null;
      this.mover := mover;
      enabled := mover != null;
      this.scheduler := scheduler;
      this.health := health;
      this.transform := transform;
      this.config := config;
      this.patrolPath := patrolPath;
      waypointIndex := 0;
      colliders := new Option<Collider>[BufferSize](_ => None);
      startPosition := Zero;
      timeSinceLastSawTarget := Infinite;
      timeSinceLastWaypoint := Infinite;
    }

    /** Start: the start position is where the agent stands. */
    method Start()
      modifies this
      ensures startPosition == transform.position
      ensures enabled == old(enabled) && waypointIndex == old(waypointIndex)
      ensures timeSinceLastSawTarget == old(timeSinceLastSawTarget)
      ensures timeSinceLastWaypoint == old(timeSinceLastWaypoint)
    {
      startPosition := transform.position;
    }

    function Fighters(): set<object>
      reads this
    {
      if fighter != null then {fighter} else {}
    }

    /** The target GetClosestTarget returns after a physics query that found
        `hits`. */
    ghost function Sensed(hits: seq<Collider>, dist: (Vector3, Vector3) -> real): Option<CombatTarget>
      reads this, colliders, transform, BufferObjects(Overlap(colliders[..], hits))
    {
      Closest(Candidates(Overlap(colliders[..], hits), combatTargetType, transform.position, dist))
    }

    /** Update's first condition: a closest target exists, there is a Fighter,
        and the Fighter can attack it. */
    ghost predicate AttackChosen(target: Option<CombatTarget>)
      reads if target.Some? && target.value.health != null then {target.value.health} else {}
    {
      target.Some? && hasFighter && fighter != null && fighter.CanAttack(target.value)
    }

    /** AtWaypoint: within the tolerance (inclusive) of the current waypoint. */
    ghost predicate AtWaypoint(dist: (Vector3, Vector3) -> real)
      reads this, transform
    {
      patrolPath.Some? && waypointIndex < |patrolPath.value.waypoints| &&
      dist(patrolPath.value.waypoints[waypointIndex], transform.position) <= config.waypointTolerance
    }

    /** The cursor after the patrol step's CycleWaypoint. */
    ghost function NextCursor(dist: (Vector3, Vector3) -> real): int
      reads this, transform
    {
      if AtWaypoint(dist)
      then GetNextIndex(waypointIndex, |patrolPath.value.waypoints|, patrolPath.value.loop)
      else waypointIndex
    }

    /** Where the patrol step heads: the current waypoint, or the start
        position when no path is assigned. */
    ghost function PatrolDestination(dist: (Vector3, Vector3) -> real): Vector3
      reads this, transform
    {
      var i := NextCursor(dist);
      if patrolPath.Some? && 0 <= i < |patrolPath.value.waypoints| then patrolPath.value.waypoints[i]
      else startPosition
    }

    /** The waypoint timer as the patrol step tests it: reset to 0 on arrival. */
    ghost function WaypointTimer(dist: (Vector3, Vector3) -> real): Duration
      reads this, transform
    {
      if AtWaypoint(dist) then Finite(0.0) else timeSinceLastWaypoint
    }

    /** The mover after SetMoveSpeed(speed) followed by a Cancel of whatever
        action was current: only a current mover of this agent is stopped. */
    ghost function SpedUpThenCancelled(previous: Option<Action>, agent: Option<NavAgent>, speed: real): Option<NavAgent>
      reads this
    {
      if mover != null && previous == Some(MoverAction(mover)) then StoppedAgent(WithSpeed(agent, speed))
      else WithSpeed(agent, speed)
    }

    /** SuspiciousBehavior: only CancelCurrentAction. */
    method SuspiciousBehavior()
      modifies scheduler, ActionObjects(scheduler.current)
      ensures scheduler.current == None
      ensures scheduler.CancelledOutgoing(old(scheduler.current), None)
    {
      scheduler.CancelCurrentAction();
    }

    /** AttackBehavior: the look timer is zeroed, the mover set to chase speed,
        and the Fighter attacks (cancelling the running action if it is another). */
    method AttackBehavior(target: CombatTarget)
      requires Valid() && enabled && fighter != null
      modifies this, mover, fighter, scheduler, ActionObjects(scheduler.current)
      ensures Valid() && enabled
      ensures timeSinceLastSawTarget == Finite(0.0)
      ensures timeSinceLastWaypoint == old(timeSinceLastWaypoint) && waypointIndex == old(waypointIndex)
      ensures startPosition == old(startPosition)
      ensures mover.navAgent == SpedUpThenCancelled(old(scheduler.current), old(mover.navAgent), config.chaseSpeed)
      ensures scheduler.current == Some(FighterAction(fighter))
      ensures scheduler.cancelled == old(scheduler.cancelled) + CancelledBy(old(scheduler.current), Some(FighterAction(fighter)))
      ensures fighter.target == target.health && (fighter.hasTarget <==> target.health != null)
    {
      timeSinceLastSawTarget := Finite(0.0);
      mover.SetMoveSpeed(config.chaseSpeed);
      fighter.Attack(target);
    }

    /** PatrolBehavior: patrol speed; on a path, arriving at the waypoint
        advances the cursor and resets the waypoint timer; while that timer is
        below waypointTime the agent only cancels, otherwise it starts moving to
        the waypoint (the start position without a path). On an empty path the
        waypoint lookup throws (`ok` false) once the speed is set. */
    method PatrolBehavior(dist: (Vector3, Vector3) -> real) returns (ok: bool)
      requires Valid() && enabled
      modifies this, mover, scheduler, ActionObjects(scheduler.current)
      ensures Valid() && enabled
      ensures ok <==> !EmptyPath()
      ensures !ok ==>
                mover.navAgent == WithSpeed(old(mover.navAgent), config.patrolSpeed) &&
                unchanged(scheduler) && waypointIndex == old(waypointIndex) &&
                timeSinceLastWaypoint == old(timeSinceLastWaypoint)
      ensures ok ==> waypointIndex == old(NextCursor(dist))
      ensures ok ==> timeSinceLastWaypoint == old(WaypointTimer(dist))
      ensures timeSinceLastSawTarget == old(timeSinceLastSawTarget) && startPosition == old(startPosition)
      ensures ok && old(WaypointTimer(dist)).Below(config.waypointTime) ==>
                scheduler.current == None &&
                scheduler.cancelled == old(scheduler.cancelled) + CancelledBy(old(scheduler.current), None) &&
                mover.navAgent == SpedUpThenCancelled(old(scheduler.current), old(mover.navAgent), config.patrolSpeed)
      ensures ok && !old(WaypointTimer(dist)).Below(config.waypointTime) ==>
                scheduler.current == Some(MoverAction(mover)) &&
                scheduler.cancelled == old(scheduler.cancelled) + CancelledBy(old(scheduler.current), Some(MoverAction(mover))) &&
                mover.navAgent == MovedAgent(WithSpeed(old(mover.navAgent), config.patrolSpeed), old(PatrolDestination(dist)))
    {
      var nextPosition := startPosition;
      mover.SetMoveSpeed(config.patrolSpeed);
      if patrolPath.Some? {
        var waypoints := patrolPath.value.waypoints;
        if |waypoints| == 0 {
          return false;
        }
        if dist(waypoints[waypointIndex], transform.position) <= config.waypointTolerance {
          waypointIndex := GetNextIndex(waypointIndex, |waypoints|, patrolPath.value.loop);
          timeSinceLastWaypoint := Finite(0.0);
        }
        nextPosition := waypoints[waypointIndex];
      }
      if timeSinceLastWaypoint.Below(config.waypointTime) {
        SuspiciousBehavior();
      } else {
        mover.StartMoveAction(nextPosition);
      }
      ok := true;
    }

    /** GetAllCombatTargetsInRange / GetClosestTarget: the physics query writes
        `hits` into the buffer, and the closest qualifying target of the whole
        buffer is returned. The filter only reads the buffer's value, so it is
        evaluated on the buffer as the write leaves it, just before the write. */
    method GetClosestTarget(hits: seq<Collider>, dist: (Vector3, Vector3) -> real) returns (closest: Option<CombatTarget>)
      requires Valid()
      modifies colliders
      ensures colliders[..] == Overlap(old(colliders[..]), hits)
      ensures closest == old(Sensed(hits, dist))
    {
      var buffer := Overlap(colliders[..], hits);
      closest := Closest(Candidates(buffer, combatTargetType, transform.position, dist));
      var n := if |hits| < colliders.Length then |hits| else colliders.Length;
      forall i | 0 <= i < n {
        colliders[i] := Some(hits[i]);
      }
    }

    /** The behaviour step of a live agent's Update: sense, then attack, stay
        suspicious or patrol, in that priority. The timers are not yet advanced.
        `ok` is false when patrolling an empty path throws. */
    method Behave(hits: seq<Collider>, dist: (Vector3, Vector3) -> real) returns (ok: bool)
      requires Valid() && enabled
      modifies this, colliders, mover, Fighters(), scheduler, ActionObjects(scheduler.current)
      ensures Valid() && enabled
      ensures colliders[..] == Overlap(old(colliders[..]), hits)
      ensures !ok <==> !old(AttackChosen(Sensed(hits, dist))) && !old(timeSinceLastSawTarget).Below(config.lookTime) &&
                       EmptyPath()
      // Attack
      ensures old(AttackChosen(Sensed(hits, dist))) ==>
                var target := old(Sensed(hits, dist)).value;
                timeSinceLastSawTarget == Finite(0.0) &&
                timeSinceLastWaypoint == old(timeSinceLastWaypoint) &&
                waypointIndex == old(waypointIndex) &&
                scheduler.current == Some(FighterAction(fighter)) &&
                fighter.target == target.health &&
                mover.navAgent == SpedUpThenCancelled(old(scheduler.current), old(mover.navAgent), config.chaseSpeed)
      // Suspicious
      ensures !old(AttackChosen(Sensed(hits, dist))) && old(timeSinceLastSawTarget).Below(config.lookTime) ==>
                timeSinceLastSawTarget == old(timeSinceLastSawTarget) &&
                timeSinceLastWaypoint == old(timeSinceLastWaypoint) &&
                waypointIndex == old(waypointIndex) &&
                scheduler.current == None &&
                scheduler.CancelledOutgoing(old(scheduler.current), None) &&
                (old(scheduler.current) != Some(MoverAction(mover)) ==> mover.navAgent == old(mover.navAgent))
      // Patrol on an empty path: only the speed is set before the throw
      ensures !ok ==>
                timeSinceLastSawTarget == old(timeSinceLastSawTarget) &&
                timeSinceLastWaypoint == old(timeSinceLastWaypoint) &&
                waypointIndex == old(waypointIndex) && unchanged(scheduler) &&
                mover.navAgent == WithSpeed(old(mover.navAgent), config.patrolSpeed)
      // Patrol
      ensures ok && !old(AttackChosen(Sensed(hits, dist))) && !old(timeSinceLastSawTarget).Below(config.lookTime) ==>
                timeSinceLastSawTarget == old(timeSinceLastSawTarget) &&
                timeSinceLastWaypoint == old(WaypointTimer(dist)) &&
                waypointIndex == old(NextCursor(dist)) &&
                (old(WaypointTimer(dist)).Below(config.waypointTime) ==>
                   scheduler.current == None &&
                   mover.navAgent == SpedUpThenCancelled(old(scheduler.current), old(mover.navAgent), config.patrolSpeed)) &&
                (!old(WaypointTimer(dist)).Below(config.waypointTime) ==>
                   scheduler.current == Some(MoverAction(mover)) &&
                   mover.navAgent == MovedAgent(WithSpeed(old(mover.navAgent), config.patrolSpeed), old(PatrolDestination(dist))))
    {
      var closest := GetClosestTarget(hits, dist);
      assert closest == old(Sensed(hits, dist));
      assert AttackChosen(closest) == old(AttackChosen(closest));
      ok := true;
      if closest.Some? && hasFighter && fighter.CanAttack(closest.value) {
        AttackBehavior(closest.value);
      } else if timeSinceLastSawTarget.Below(config.lookTime) {
        SuspiciousBehavior();
      } else {
        ok := PatrolBehavior(dist);
      }
    }

    /** Update, one frame of `deltaTime` seconds in which the physics query
        found `hits`. A dead agent does nothing, not even advance its timers.
        A live one behaves as `Behave` says and then advances both timers,
        unless patrolling an empty path threw first. */
    method Update(deltaTime: real, hits: seq<Collider>, dist: (Vector3, Vector3) -> real)
      requires Valid() && enabled
      modifies this, colliders, mover, Fighters(), scheduler, ActionObjects(scheduler.current)
      ensures Valid() && enabled
      ensures old(health.isDead) ==>
                unchanged(this, colliders, mover, scheduler) && unchanged(Fighters()) &&
                unchanged(ActionObjects(old(scheduler.current)))
      ensures !old(health.isDead) ==> colliders[..] == Overlap(old(colliders[..]), hits)
      // Attack
      ensures !old(health.isDead) && old(AttackChosen(Sensed(hits, dist))) ==>
                var target := old(Sensed(hits, dist)).value;
                timeSinceLastSawTarget == Finite(0.0).Advance(deltaTime) &&
                timeSinceLastWaypoint == old(timeSinceLastWaypoint).Advance(deltaTime) &&
                waypointIndex == old(waypointIndex) &&
                scheduler.current == Some(FighterAction(fighter)) &&
                fighter.target == target.health &&
                mover.navAgent == SpedUpThenCancelled(old(scheduler.current), old(mover.navAgent), config.chaseSpeed)
      // Suspicious
      ensures !old(health.isDead) && !old(AttackChosen(Sensed(hits, dist))) &&
              old(timeSinceLastSawTarget).Below(config.lookTime) ==>
                timeSinceLastSawTarget == old(timeSinceLastSawTarget).Advance(deltaTime) &&
                timeSinceLastWaypoint == old(timeSinceLastWaypoint).Advance(deltaTime) &&
                waypointIndex == old(waypointIndex) &&
                scheduler.current == None &&
                scheduler.CancelledOutgoing(old(scheduler.current), None) &&
                (old(scheduler.current) != Some(MoverAction(mover)) ==> mover.navAgent == old(mover.navAgent))
      // Patrol on an empty path: the frame ends at the throw
      ensures !old(health.isDead) && !old(AttackChosen(Sensed(hits, dist))) &&
              !old(timeSinceLastSawTarget).Below(config.lookTime) && EmptyPath() ==>
                timeSinceLastSawTarget == old(timeSinceLastSawTarget) &&
                timeSinceLastWaypoint == old(timeSinceLastWaypoint) &&
                waypointIndex == old(waypointIndex) && unchanged(scheduler) &&
                mover.navAgent == WithSpeed(old(mover.navAgent), config.patrolSpeed)
      // Patrol
      ensures !old(health.isDead) && !old(AttackChosen(Sensed(hits, dist))) &&
              !old(timeSinceLastSawTarget).Below(config.lookTime) && !EmptyPath() ==>
                timeSinceLastSawTarget == old(timeSinceLastSawTarget).Advance(deltaTime) &&
                timeSinceLastWaypoint == old(WaypointTimer(dist)).Advance(deltaTime) &&
                waypointIndex == old(NextCursor(dist)) &&
                (old(WaypointTimer(dist)).Below(config.waypointTime) ==>
                   scheduler.current == None &&
                   mover.navAgent == SpedUpThenCancelled(old(scheduler.current), old(mover.navAgent), config.patrolSpeed)) &&
                (!old(WaypointTimer(dist)).Below(config.waypointTime) ==>
                   scheduler.current == Some(MoverAction(mover)) &&
                   mover.navAgent == MovedAgent(WithSpeed(old(mover.navAgent), config.patrolSpeed), old(PatrolDestination(dist))))
    {
      if health.isDead {
        return;
      }
      var ok := Behave(hits, dist);
      if !ok {
        return;
      }
      timeSinceLastSawTarget := timeSinceLastSawTarget.Advance(deltaTime);
      timeSinceLastWaypoint := timeSinceLastWaypoint.Advance(deltaTime);
    }
  }

  /** Both AI timers start at +infinity, so until the agent first sees a
      target it is never suspicious, and until it first reaches a waypoint it
      never waits: every tick only advances them. */
  lemma TimersStartOpen(deltas: seq<real>, config: AIConfig)
    ensures !AdvanceAll(Infinite, deltas).Below(config.lookTime)
    ensures !AdvanceAll(Infinite, deltas).Below(config.waypointTime)
  {
    InfiniteStaysInfinite(deltas, config.lookTime);
  }
}
