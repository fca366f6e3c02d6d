/** The components of a character that act on each other within one frame:
    the ActionScheduler (Assets/Scripts/Core/ActionScheduler.cs), the two actions
    it arbitrates, Mover (Assets/Scripts/Movement/Mover.cs) and Fighter
    (Assets/Scripts/Combat/Fighter.cs), and Health
    (Assets/Scripts/Attributes/Health.cs), whose death cancels the current action.
    The scheduler calls Cancel on an IAction, Mover and Fighter start themselves on
    the scheduler, and Fighter damages a Health; these calls go both ways, so the
    four classes share one module and IAction is the closed sum `Action`. */
module Characters {
  import opened Common
  import opened Json
  import opened Serialization

  /** RPGEngine.Combat.CombatTargetType. */
  datatype CombatTargetType = Player | Enemy

  /** A Unity Transform; only its position is used. */
  class Transform {
    var position: Vector3

    constructor (position: Vector3)
      ensures this.position == position
    {
      this.position := position;
    }
  }

  /** The fields of a NavMeshAgent that the code reads or writes. `enabled` stands
      for `isActiveAndEnabled`: the game object itself is taken to be active. The
      path the agent follows is not modelled. */
  datatype NavAgent = NavAgent(destination: Vector3, isStopped: bool, speed: real,
                               enabled: bool, velocity: Vector3)

  /** The two animator triggers Fighter sets; `true` means the trigger is set. */
  datatype AttackTriggers = AttackTriggers(attack: bool, stopAttack: bool)

  /** IAction: the two components that implement it. Two actions are equal exactly
      when they wrap the same component object. */
  datatype Action = MoverAction(mover: Mover) | FighterAction(fighter: Fighter)
  {
    function Objects(): set<object>
    {
      match this
      case MoverAction(m) => {m}
      case FighterAction(f) => {f}
    }
  }

  function ActionObjects(a: Option<Action>): set<object>
  {
    if a.Some? then a.value.Objects() else {}
  }

  /** StartAction's guard: the outgoing action exists and differs from the new one. */
  predicate Replaces(previous: Option<Action>, next: Option<Action>)
  {
    previous.Some? && previous != next
  }

  /** Mover.Cancel on an agent: only `isStopped` is set. */
  function StoppedAgent(agent: Option<NavAgent>): Option<NavAgent>
  {
    if agent.Some? then Some(agent.value.(isStopped := true)) else None
  }

  /** Mover.MoveTo on an agent: the destination is set and the agent resumes. */
  function MovedAgent(agent: Option<NavAgent>, destination: Vector3): Option<NavAgent>
  {
    if agent.Some? then Some(agent.value.(destination := destination, isStopped := false)) else None
  }

  /** Mover.SetMoveSpeed on an agent: only the speed changes. */
  function WithSpeed(agent: Option<NavAgent>, speed: real): Option<NavAgent>
  {
    if agent.Some? then Some(agent.value.(speed := speed)) else None
  }

  /** The Cancel calls StartAction(action) makes when `previous` is current. */
  function CancelledBy(previous: Option<Action>, action: Option<Action>): seq<Action>
  {
    if Replaces(previous, action) then [previous.value] else []
  }

  /** Fighter.TriggerCancelAttack: reset "attack", set "stopAttack". */
  function StopAttackTriggers(animator: Option<AttackTriggers>): Option<AttackTriggers>
  {
    if animator.Some? then Some(AttackTriggers(false, true)) else None
  }

  /** Fighter.TriggerAttack with an animator: reset "stopAttack", set "attack". */
  function AttackTriggered(animator: Option<AttackTriggers>): Option<AttackTriggers>
  {
    if animator.Some? then Some(AttackTriggers(true, false)) else None
  }

  /** What IAction.Cancel leaves behind, relative to the state before it ran. */
  twostate predicate Cancelled(a: Action)
    reads a.Objects()
  {
    match a
    case MoverAction(m) => m.navAgent == StoppedAgent(old(m.navAgent))
    case FighterAction(f) =>
      f.target == null && !f.hasTarget && f.animator == StopAttackTriggers(old(f.animator)) &&
      f.timeSinceLastAttack == old(f.timeSinceLastAttack)
  }

  lemma StoppedAgentIdempotent(agent: Option<NavAgent>)
    ensures StoppedAgent(StoppedAgent(agent)) == StoppedAgent(agent)
  {
  }

  /** `math.min(math.max(value - damage, 0), max)` with `v` = value - damage. */
  function ClampedHealth(v: real, max: real): real
  {
    var atLeastZero := if v < 0.0 then 0.0 else v;
    if max < atLeastZero then max else atLeastZero
  }

  /** For a non-negative maximum the clamped value lies in [0, max]; damage below
      zero therefore heals, but never above max. */
  lemma ClampedHealthBounds(value: real, damage: real, max: real)
    requires 0.0 <= max
    ensures 0.0 <= ClampedHealth(value - damage, max) <= max
    ensures damage <= 0.0 && 0.0 <= value <= max ==> value <= ClampedHealth(value - damage, max)
    ensures ClampedHealth(value - damage, max) == 0.0 <==> value - damage <= 0.0 || max == 0.0
  {
  }

  /** The ActionScheduler: a single slot holding the running action. `cancelled`
      records every Cancel call it has made, in order. */
  class ActionScheduler {
    var current: Option<Action>
    ghost var cancelled: seq<Action>

    constructor ()
      ensures current == None && cancelled == []
    {
      current := None;
      cancelled := [];
    }

    /** The Cancel part of StartAction: when `previous` was replaced, it was
        cancelled exactly once (one new entry in the log) and shows the effect of
        its Cancel; otherwise nothing was cancelled. */
    twostate predicate CancelledOutgoing(previous: Option<Action>, action: Option<Action>)
      reads this, ActionObjects(previous)
    {
      cancelled == old(cancelled) + CancelledBy(previous, action) &&
      (Replaces(previous, action) ==> Cancelled(previous.value))
    }

    /** StartAction installs `action` (also when it is null), cancelling the
        outgoing action first when it is a different, non-null one. Neither the
        action being started nor an action resubmitted is cancelled. */
    method StartAction(action: Option<Action>)
      modifies this, ActionObjects(current)
      ensures current == action
      ensures CancelledOutgoing(old(current), action)
      ensures !Replaces(old(current), action) ==> unchanged(ActionObjects(old(current)))
    {
      if current.Some? && current != action {
        var outgoing := current.value;
        match outgoing {
          case MoverAction(m) => m.Cancel();
          case FighterAction(f) => f.Cancel();
        }
        cancelled := cancelled + [outgoing];
      }
      current := action;
    }

    /** CancelCurrentAction = StartAction(null): the slot is emptied and the
        previous action, if any, is cancelled; on an empty slot nothing is. */
    method CancelCurrentAction()
      modifies this, ActionObjects(current)
      ensures current == None
      ensures CancelledOutgoing(old(current), None)
      ensures old(current).None? ==> cancelled == old(cancelled)
    {
      StartAction(None);
    }
  }

  /** Health. `max` is the inspector value, `isDead` the IsDead property. */
  class Health {
    const max: real
    var value: real
    var isDead: bool
    const scheduler: ActionScheduler
    const transform: Transform

    /** What dying may touch: this Health, its scheduler and the action cancelled. */
    function Footprint(): set<object>
      reads scheduler
    {
      {this, scheduler} + ActionObjects(scheduler.current)
    }

    /** Awake: health starts full. */
    constructor Awake(max: real, scheduler: ActionScheduler, transform: Transform)
      ensures this.max == max && value == max && !isDead
      ensures this.scheduler == scheduler && this.transform == transform
    {
      this.max := max;
      value := max;
      isDead := false;
      this.scheduler := scheduler;
      this.transform := transform;
    }

    /** The effect of TakeDamage(damage) on this Health: a dead Health keeps its
        value; a live one takes the clamped value and dies exactly when it
        reaches 0. */
    twostate predicate DamageTaken(damage: real)
      reads this
    {
      if old(isDead) then value == old(value) && isDead
      else value == ClampedHealth(old(value) - damage, max) && (isDead <==> value == 0.0)
    }

    /** DamageTaken, together with what the death does to the scheduler: the
        action `previous` that was current is cancelled and the slot emptied.
        Without a death the scheduler and that action are left alone. */
    twostate predicate Damaged(damage: real, previous: Option<Action>)
      reads this, scheduler, ActionObjects(previous)
    {
      DamageTaken(damage) &&
      if !old(isDead) && isDead then scheduler.current == None && scheduler.CancelledOutgoing(previous, None)
      else scheduler.current == old(scheduler.current) && scheduler.cancelled == old(scheduler.cancelled) &&
           unchanged(ActionObjects(previous))
    }

    /** Die is a latch: the first call sets IsDead and cancels the current action;
        later calls change nothing. */
    method Die()
      modifies Footprint()
      ensures isDead && value == old(value)
      ensures old(isDead) ==> unchanged(old(Footprint()))
      ensures !old(isDead) ==> scheduler.current == None
      ensures !old(isDead) ==> scheduler.CancelledOutgoing(old(scheduler.current), None)
    {
      if isDead {
        return;
      }
      isDead := true;
      scheduler.CancelCurrentAction();
    }

    /** TakeDamage: no effect once dead; otherwise the value is clamped to [0, max]
        and the object dies exactly when the value becomes 0. */
    method TakeDamage(damage: real)
      modifies Footprint()
      ensures Damaged(damage, old(scheduler.current))
      ensures old(isDead) || !isDead ==> unchanged(old(Footprint()) - {this})
    {
      if isDead {
        return;
      }
      value := ClampedHealth(value - damage, max);
      if value == 0.0 {
        Die();
      }
    }

    /** CaptureAsJToken: the current value. */
    function CaptureAsJToken(): (t: JToken)
      reads this
      ensures ToFloat(t) == Some(value)
    {
      JFloat(value)
    }

    /** What RestoreFromJToken(state) leaves, `previous` being the action that
        was current. A null state or one that does not convert changes nothing.
        A value <= 0 becomes 0 and the object dies (cancelling `previous` if it
        was alive); a positive value is stored as it is, without clamping to
        max, and IsDead is cleared. */
    twostate predicate RestoredFrom(state: Option<JToken>, previous: Option<Action>)
      reads this, scheduler, ActionObjects(previous)
    {
      if state.None? || ToFloat(state.value).None? then
        unchanged(this, scheduler) && unchanged(ActionObjects(previous))
      else if ToFloat(state.value).value <= 0.0 then
        value == 0.0 && isDead &&
        if old(isDead) then unchanged(scheduler) && unchanged(ActionObjects(previous))
        else scheduler.current == None && scheduler.CancelledOutgoing(previous, None)
      else
        value == ToFloat(state.value).value && !isDead &&
        unchanged(scheduler) && unchanged(ActionObjects(previous))
    }

    /** RestoreFromJToken. A C# null state (None) is ignored; a token that does
        not convert to a float throws before anything changes (`ok` false). */
    method RestoreFromJToken(state: Option<JToken>, version: int) returns (ok: bool)
      modifies Footprint()
      ensures ok <==> state.None? || ToFloat(state.value).Some?
      ensures RestoredFrom(state, old(scheduler.current))
    {
      if state.None? {
        return true;
      }
      var restored := ToFloat(state.value);
      if restored.None? {
        return false;
      }
      ok := true;
      value := restored.value;
      if value <= 0.0 {
        value := 0.0;
        Die();
      } else {
        isDead := false;
      }
    }
  }

  /** CombatTarget: a faction tag; its game object usually also has a Health. */
  class CombatTarget {
    const targetType: CombatTargetType
    const health: Health?
    const transform: Transform

    /** The inspector default of `type` is Enemy. */
    constructor (targetType: CombatTargetType, health: Health?, transform: Transform)
      ensures this.targetType == targetType && this.health == health && this.transform == transform
    {
      this.targetType := targetType;
      this.health := health;
      this.transform := transform;
    }
  }

  const DefaultCombatTargetType: CombatTargetType := Enemy

  /** Mover: an action that drives the nav agent. The agent is optional
      (`m_hasAgent`). */
  class Mover {
    var navAgent: Option<NavAgent>
    const scheduler: ActionScheduler
    const health: Health
    const transform: Transform

    /** Awake: caches the components; the agent may be missing. */
    constructor Awake(navAgent: Option<NavAgent>, scheduler: ActionScheduler, health: Health,
                      transform: Transform)
      ensures this.navAgent == navAgent && this.scheduler == scheduler
      ensures this.health == health && this.transform == transform
    {
      this.navAgent := navAgent;
      this.scheduler := scheduler;
      this.health := health;
      this.transform := transform;
    }

    /** Update. With an active agent on a dead character, the agent is parked at
        the current position, its velocity zeroed, stopped and disabled; in every
        other case nothing modelled changes. Without an agent the source throws
        at its first statement, so nothing changes either. */
    method Update()
      modifies this
      ensures old(navAgent).Some? && old(navAgent).value.enabled && health.isDead ==>
                navAgent == Some(old(navAgent).value.(destination := transform.position,
                                   velocity := Zero, isStopped := true, enabled := false))
      ensures !(old(navAgent).Some? && old(navAgent).value.enabled && health.isDead) ==>
                navAgent == old(navAgent)
    {
      if navAgent.None? {
        return;
      }
      if navAgent.value.enabled && health.isDead {
        var agent := navAgent.value.(destination := transform.position);
        agent := agent.(velocity := Zero);
        agent := agent.(isStopped := true);
        agent := agent.(enabled := false);
        navAgent := Some(agent);
      }
    }

    /** Cancel only stops the agent; without an agent it does nothing. */
    method Cancel()
      modifies this
      ensures navAgent == StoppedAgent(old(navAgent))
      ensures Cancelled(MoverAction(this))
    {
      if navAgent.Some? {
        navAgent := Some(navAgent.value.(isStopped := true));
      }
    }

    /** MoveTo: with an agent, sets its destination and clears isStopped. */
    method MoveTo(destination: Vector3)
      modifies this
      ensures navAgent == MovedAgent(old(navAgent), destination)
    {
      if navAgent.Some? {
        navAgent := Some(navAgent.value.(destination := destination, isStopped := false));
      }
    }

    /** SetMoveSpeed changes only the agent's speed. */
    method SetMoveSpeed(speed: real)
      modifies this
      ensures navAgent == WithSpeed(old(navAgent), speed)
    {
      if navAgent.None? {
        return;
      }
      navAgent := Some(navAgent.value.(speed := speed));
    }

    /** StartMoveAction: registers with the scheduler (cancelling a different
        running action first), then moves. */
    method StartMoveAction(destination: Vector3)
      modifies this, scheduler, ActionObjects(scheduler.current)
      ensures scheduler.current == Some(MoverAction(this))
      ensures scheduler.CancelledOutgoing(old(scheduler.current), Some(MoverAction(this)))
      ensures navAgent == MovedAgent(old(navAgent), destination)
    {
      scheduler.StartAction(Some(MoverAction(this)));
      MoveTo(destination);
    }

    /** CaptureState: the position as a SerializableVector3. */
    function CaptureState(): (state: SaveObject)
      reads transform
      ensures state.SVector? && ToVector(state.v) == transform.position
    {
      SVector(FromVector(transform.position))
    }

    /** What RestoreState(state) leaves: anything but a SerializableVector3 is
        ignored; otherwise the position becomes the saved vector and an agent
        ends enabled, its other fields as they were. */
    twostate predicate RestoredFrom(state: SaveObject)
      reads this, transform
    {
      if !state.SVector? then navAgent == old(navAgent) && transform.position == old(transform.position)
      else
        transform.position == ToVector(state.v) &&
        navAgent == (if old(navAgent).Some? then Some(old(navAgent).value.(enabled := true)) else None)
    }

    /** RestoreState: the agent is disabled while the position is written and
        enabled again afterwards. */
    method RestoreState(state: SaveObject)
      modifies this, transform
      ensures RestoredFrom(state)
    {
      if !state.SVector? {
        return;
      }
      if navAgent.Some? {
        navAgent := Some(navAgent.value.(enabled := false));
      }
      transform.position := ToVector(state.v);
      if navAgent.Some? {
        navAgent := Some(navAgent.value.(enabled := true));
      }
    }
  }

  /** Inspector defaults of Fighter. */
  const DefaultWeaponRange: real := 2.0
  const DefaultTimeBetweenAttacks: real := 1.0
  const DefaultWeaponDamage: real := 10.0
  const DefaultTargetType: CombatTargetType := Player

  /** Fighter: an action that chases a target Health and attacks it in range.
      `animator` is the optional Animator with its two attack triggers. */
  class Fighter {
    const weaponRange: real
    const timeBetweenAttacks: real
    const weaponDamage: real
    const combatTargetType: CombatTargetType
    var target: Health?
    var hasTarget: bool
    var timeSinceLastAttack: Duration
    var animator: Option<AttackTriggers>
    const mover: Mover
    const scheduler: ActionScheduler
    const transform: Transform

    ghost predicate Valid()
      reads this
    {
      hasTarget == (target != null)
    }

    /** What a hit may touch: the target Health and what its death cancels. */
    function HitFootprint(): set<object>
      reads this, if target != null then {target.scheduler} else {}
    {
      if target != null then target.Footprint() else {}
    }

    /** Awake; the cooldown timer starts at +infinity and there is no target. */
    constructor Awake(weaponRange: real, timeBetweenAttacks: real, weaponDamage: real,
                      combatTargetType: CombatTargetType, mover: Mover,
                      scheduler: ActionScheduler, transform: Transform,
                      animator: Option<AttackTriggers>)
      ensures Valid() && target == null && timeSinceLastAttack == Infinite
      ensures this.weaponRange == weaponRange && this.timeBetweenAttacks == timeBetweenAttacks
      ensures this.weaponDamage == weaponDamage && this.combatTargetType == combatTargetType
      ensures this.mover == mover && this.scheduler == scheduler && this.transform == transform
      ensures this.animator == animator
    {
      this.weaponRange := weaponRange;
      this.timeBetweenAttacks := timeBetweenAttacks;
      this.weaponDamage := weaponDamage;
      this.combatTargetType := combatTargetType;
      target := null;
      hasTarget := false;
      timeSinceLastAttack := Infinite;
      this.mover := mover;
      this.scheduler := scheduler;
      this.transform := transform;
      this.animator := animator;
    }

    /** CanAttack: a non-null target of the configured faction with a live Health. */
    predicate CanAttack(combatTarget: CombatTarget?)
      reads if combatTarget != null && combatTarget.health != null then {combatTarget.health} else {}
    {
      combatTarget != null && combatTarget.targetType == combatTargetType &&
      combatTarget.health != null && !combatTarget.health.isDead
    }

    /** GetIsInRange: strictly closer than the weapon range. */
    predicate InRange(targetTransform: Transform, dist: (Vector3, Vector3) -> real)
      reads transform, targetTransform
    {
      dist(transform.position, targetTransform.position) < weaponRange
    }

    /** Cancel clears the target and sets the stop trigger; the timer is kept. */
    method Cancel()
      modifies this
      ensures Cancelled(FighterAction(this)) && Valid()
    {
      hasTarget := false;
      target := null;
      animator := StopAttackTriggers(animator);
    }

    /** Attack: registers with the scheduler first, then takes the target's Health;
        afterwards hasTarget holds exactly when there is one. */
    method Attack(combatTarget: CombatTarget)
      modifies this, scheduler, ActionObjects(scheduler.current)
      ensures scheduler.current == Some(FighterAction(this))
      ensures scheduler.CancelledOutgoing(old(scheduler.current), Some(FighterAction(this)))
      ensures target == combatTarget.health && (hasTarget <==> combatTarget.health != null)
      ensures timeSinceLastAttack == old(timeSinceLastAttack) && animator == old(animator)
    {
      scheduler.StartAction(Some(FighterAction(this)));
      target := combatTarget.health;
      hasTarget := target != null;
    }

    /** Hit (an animation event, or called directly without an animator): deals
        exactly the weapon damage, and only while there is a target. */
    method Hit()
      requires Valid()
      modifies HitFootprint()
      ensures old(hasTarget) ==> old(target).Damaged(weaponDamage, old(target.scheduler.current))
      ensures !old(hasTarget) ==> unchanged(old(HitFootprint()))
      ensures Valid() && timeSinceLastAttack == old(timeSinceLastAttack)
    {
      if !hasTarget {
        return;
      }
      target.TakeDamage(weaponDamage);
    }

    /** TriggerAttack: with an animator only the triggers change; without one
        the hit lands at once. */
    method TriggerAttack()
      requires Valid()
      modifies this, HitFootprint()
      ensures old(animator).Some? ==> animator == AttackTriggered(old(animator)) && target == old(target)
      ensures old(animator).Some? ==> unchanged(old(HitFootprint()) - {this})
      ensures old(animator).None? && old(hasTarget) ==>
                old(target).Damaged(weaponDamage, old(target.scheduler.current))
      ensures old(animator).None? && old(hasTarget) && old(target.scheduler.current) != Some(FighterAction(this)) ==>
                target == old(target) && animator == old(animator)
      ensures Valid() && timeSinceLastAttack == old(timeSinceLastAttack)
    {
      if animator.Some? {
        animator := AttackTriggered(animator);
      } else {
        Hit();
      }
    }

    /** AttackBehavior: needs a target and an elapsed cooldown (an infinite timer
        is never below the bound), then triggers the attack. */
    method AttackBehavior()
      requires Valid()
      modifies this, HitFootprint()
      ensures Valid() && timeSinceLastAttack == old(timeSinceLastAttack)
      ensures !old(hasTarget) || old(timeSinceLastAttack).Below(timeBetweenAttacks) ==>
                unchanged(this) && unchanged(old(HitFootprint()))
      ensures old(hasTarget) && !old(timeSinceLastAttack).Below(timeBetweenAttacks) && old(animator).Some? ==>
                animator == AttackTriggered(old(animator)) && target == old(target) &&
                unchanged(old(HitFootprint()) - {this})
      ensures old(hasTarget) && !old(timeSinceLastAttack).Below(timeBetweenAttacks) && old(animator).None? ==>
                old(target).Damaged(weaponDamage, old(target.scheduler.current))
      ensures old(hasTarget) && !old(timeSinceLastAttack).Below(timeBetweenAttacks) && old(animator).None? &&
              old(target.scheduler.current) != Some(FighterAction(this)) ==>
                target == old(target) && animator == old(animator)
    {
      if !hasTarget {
        return;
      }
      if timeSinceLastAttack.Below(timeBetweenAttacks) {
        return;
      }
      TriggerAttack();
    }

    /** Update, one frame of `deltaTime` seconds. The cooldown timer always
        advances (it is never reset, so from +infinity it stays there). With no
        target nothing else happens; a dead target is cancelled; a live target out
        of range is chased; in range the mover is stopped and the attack gate runs.
        In the last case the hit may kill the target and cancel whatever action
        the target's scheduler held, so only the target's own change is stated. */
    method Update(deltaTime: real, dist: (Vector3, Vector3) -> real)
      requires Valid()
      modifies this, mover, HitFootprint()
      ensures Valid()
      ensures timeSinceLastAttack == old(timeSinceLastAttack).Advance(deltaTime)
      ensures old(timeSinceLastAttack).Infinite? ==> timeSinceLastAttack == Infinite
      ensures !old(hasTarget) ==> target == null && animator == old(animator) && unchanged(mover)
      ensures old(hasTarget) && old(target.isDead) ==>
                target == null && !hasTarget && animator == StopAttackTriggers(old(animator)) &&
                unchanged(mover) && unchanged(old(HitFootprint()) - {this})
      ensures old(hasTarget) && !old(target.isDead) && !old(InRange(target.transform, dist)) ==>
                mover.navAgent == MovedAgent(old(mover.navAgent), old(target.transform.position)) &&
                target == old(target) && animator == old(animator) &&
                unchanged(old(HitFootprint()) - {this, mover})
      ensures old(hasTarget) && !old(target.isDead) && old(InRange(target.transform, dist)) ==>
                mover.navAgent == StoppedAgent(old(mover.navAgent))
      ensures old(hasTarget) && !old(target.isDead) && old(InRange(target.transform, dist)) &&
              timeSinceLastAttack.Below(timeBetweenAttacks) ==>
                target == old(target) && animator == old(animator) &&
                unchanged(old(HitFootprint()) - {this, mover})
      ensures old(hasTarget) && !old(target.isDead) && old(InRange(target.transform, dist)) &&
              !timeSinceLastAttack.Below(timeBetweenAttacks) && old(animator).Some? ==>
                target == old(target) && animator == AttackTriggered(old(animator)) &&
                unchanged(old(HitFootprint()) - {this, mover})
      ensures old(hasTarget) && !old(target.isDead) && old(InRange(target.transform, dist)) &&
              !timeSinceLastAttack.Below(timeBetweenAttacks) && old(animator).None? ==>
                old(target).DamageTaken(weaponDamage)
      ensures old(hasTarget) && !old(target.isDead) && old(InRange(target.transform, dist)) &&
              !timeSinceLastAttack.Below(timeBetweenAttacks) && old(animator).None? &&
              old(target.scheduler.current) != Some(FighterAction(this)) ==>
                target == old(target) && animator == old(animator)
    {
      timeSinceLastAttack := timeSinceLastAttack.Advance(deltaTime);
      if !hasTarget {
        return;
      }
      if target.isDead {
        Cancel();
        return;
      }
      if !InRange(target.transform, dist) {
        mover.MoveTo(target.transform.position);
      } else {
        mover.Cancel();
        ghost var stopped := mover.navAgent;
        AttackBehavior();
        // A fatal hit on this character's own Health cancels the mover again.
        assert mover.navAgent == stopped || mover.navAgent == StoppedAgent(stopped);
        StoppedAgentIdempotent(old(mover.navAgent));
      }
    }
  }
}
