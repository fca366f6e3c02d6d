# RPG core in Dafny

A model of the gameplay and persistence core of the RPG Unity project. The Dafny
files cover these parts:

- **Characters.** An `ActionScheduler` holds one running `IAction`. `Mover` and
  `Fighter` are the two actions, and each cancels the other by starting itself. A
  `Health` dies at zero and then cancels the running action.
- **AI.** An `AIController` senses the closest live target of its faction and
  chooses to attack it, to stay suspicious, or to patrol a `PatrolPath`.
- **Levels.** A `Progression` asset holds the level formulas of a character
  class. `BaseStats` derives a level from `Experience`.
- **Saving.** There are two save pipelines, both over one dictionary per file:
  - the binary `SavingSystem` with its `SavableEntity` records;
  - the JSON `JsonSaveSystem` with its `JsonSavableEntity` records.
- **Encryption.** The XOR file strategies encrypt the JSON text.
- **Cinematics.** The cinematic trigger is a latch.

Objects that the game updates in place are classes whose methods state their whole
new state. Pure computations are functions with the properties proved as lemmas.
Floats are reals. Distances, physics queries, GUIDs, Base64 decoding and animation
curves are parameters. Exceptions are `Option` results or `ok` flags.

The files, by module:

- `common.dfy`: `Common`. Optional values, `Vector3`, time counters that may be
  +infinity, and `string.IsNullOrWhiteSpace`.
- `json.dfy`: `Json`. JSON tokens, the numeric casts, and `JsonStatics`.
- `serialization.dfy`: `Serialization`. `SerializableVector3` and the boxed
  objects of the binary pipeline.
- `characters.dfy`: `Characters`. `ActionScheduler`, `Health`, `Mover`, `Fighter`
  and `CombatTarget`. They call each other through `IAction`, so they share one
  module.
- `patrol_path.dfy`: `PatrolPaths`. `PatrolPath`.
- `perception.dfy`: `Perception`. The AI's target query: the collider buffer,
  the filter and the stable ordering by distance.
- `control.dfy`: `Control`. `AIController` together with `RPGController.Awake`.
- `progression.dfy`: `Progressions`. `Progression`.
- `stats.dfy`: `Stats`. `Stats.Experience` and `BaseStats`.
- `attributes.dfy`: `Attributes`. `Attributes.Experience`.
- `cinematics.dfy`: `Cinematics`. `CinematicTrigger`.
- `entity_ids.dfy`: `EntityIds`. The unique-id rule both entity kinds share.
- `savable_entity.dfy`: `SavableEntities`. `SavableEntity`.
- `json_savable_entity.dfy`: `JsonSavableEntities`. `JsonSavableEntity`.
- `save_files.dfy`: `SaveFiles`. What both systems share: the reserved keys, the
  version gate, and the merge that saving performs.
- `saving_system.dfy`: `SavingSystems`. `SavingSystem`.
- `json_save_system.dfy`: `JsonSaveSystems`. `JsonSaveSystem`.
- `strategies.dfy`: `Strategies`. `SavingStrategy.GetPath`, `XorStrategy` and
  `XorTextStrategy`.

The two strategies carry identical private `EncryptDecrypt` methods. They are
modelled once, by `Strategies.EncryptDecrypt`.

## Model

| member | source | states |
|---|---|---|
| Common.Duration.Advance | Assets/Scripts/Control/AIController.cs:111-112 | A +infinity counter stays +infinity; a finite one grows by exactly the delta |
| Common.Duration.AdvanceNeverDecreases | Assets/Scripts/Combat/Fighter.cs:112 | Ticking by a non-negative delta never brings a counter below a bound it was not below |
| Common.InfiniteStaysInfinite | Assets/Scripts/Combat/Fighter.cs:48 | A counter that starts at +infinity is +infinity after any ticks, so the guard `counter < bound` never holds |
| Common.NotBlankWith | Assets/Scripts/Saving/SavableEntity.cs:103 | A string with one non-white-space character is not blank |
| Json.RoundHalfEven | Assets/Scripts/Saving/Json/JsonSaveSystem.cs:127 | The rounding of a float token by the cast: the nearest integer, and at a tie the even one |
| Json.ToInt | Assets/Scripts/Saving/Json/JsonSaveSystem.cs:127 | The `(int)` cast: an integer converts to itself exactly when it fits in an `int`, a float to its rounding exactly when that fits, a boolean to 0 or 1; every other token throws, and every result lies in the `int` range |
| Json.ToFloat | Assets/Scripts/Attributes/Health.cs:104 | `ToObject<float>()`: floats and integers convert to their value; it fails exactly on tokens that are not numbers or booleans |
| Json.ToToken | Assets/Scripts/Saving/JsonStatics.cs:18-26 | An object with exactly the keys x, y, z, each holding its component |
| Json.ToVector3 | Assets/Scripts/Saving/JsonStatics.cs:33-57 | A non-object gives the zero vector, and so does an object without x, y and z |
| Json.ToVector3OfToToken | Assets/Scripts/Saving/JsonStatics.cs:18-57 | ToVector3 inverts ToToken |
| Json.ToVector3IgnoresOtherKeys | Assets/Scripts/Saving/JsonStatics.cs:33-57 | Keys other than x, y, z do not affect the result |
| Json.ToVector3MissingComponent | Assets/Scripts/Saving/JsonStatics.cs:33-57 | In any object, each of x, y, z is read on its own: a missing key gives 0, a present key its token's float, and the result fails exactly when a present component does not convert |
| Serialization.FromVector | Assets/Scripts/Saving/SerializableVector3.cs:20-25 | The three components are copied unchanged |
| Serialization.ToVector | Assets/Scripts/Saving/SerializableVector3.cs:31-34 | The vector has the stored components |
| Serialization.RoundTrip | Assets/Scripts/Saving/SerializableVector3.cs:20-34 | ToVector inverts FromVector, and wrappers are equal exactly when their vectors are |
| Serialization.AsInt | Assets/Scripts/Saving/SavingSystem.cs:109 | The unboxing `(int)` cast succeeds exactly on a boxed int and returns it |
| EntityIds.Decide | Assets/Scripts/Saving/SavableEntity.cs:118-134 | A blank id is never unique; any other id is unique unless a live other entity still carries it; the entry is released exactly for a destroyed or renamed holder |
| EntityIds.AfterDecision | Assets/Scripts/Saving/SavableEntity.cs:125-133 | The lookup keeps every other entry and keeps the candidate's entry exactly when it is not released |
| EntityIds.FreshId | Assets/Scripts/Saving/SavableEntity.cs:106 | `name-guid` is never blank, and it starts with the name and a hyphen |
| EntityIds.ChosenId | Assets/Scripts/Saving/SavableEntity.cs:103-107 | The id kept is never blank, and a unique current id is kept |
| PatrolPaths.GetNextIndex | Assets/Scripts/Control/PatrolPath.cs:55-60 | The next index, wrapping to 0 on a loop and staying on the last index otherwise; it stays in range, and an empty non-looping path gives -1 |
| PatrolPaths.NonLoopingReachesEnd | Assets/Scripts/Control/PatrolPath.cs:55-60 | Walking a non-looping path from any index reaches the last waypoint and stays there |
| PatrolPaths.LoopingReturnsToStart | Assets/Scripts/Control/PatrolPath.cs:55-60 | Walking a looping path `count` steps from 0 returns to 0 |
| PatrolPaths.IterateLoopingFromZero | Assets/Scripts/Control/PatrolPath.cs:55-60 | On a loop, k steps from 0 lead to index k |
| PatrolPaths.IterateStep | Assets/Scripts/Control/PatrolPath.cs:55-60 | One more walk step is one more GetNextIndex |
| PatrolPaths.DrawGizmos | Assets/Scripts/Control/PatrolPath.cs:28-51 | Spheres are drawn at waypoints 0, 1, … in order, each followed by a line to its successor; drawing stops after the first waypoint that is its own successor |
| PatrolPaths.GizmoStops | Assets/Scripts/Control/PatrolPath.cs:47-49 | Only the last waypoint of a non-looping path is its own successor; a loop draws the closing line back to 0 |
| Characters.StoppedAgentIdempotent | Assets/Scripts/Movement/Mover.cs:110-116 | Cancelling a mover twice is the same as cancelling it once |
| Characters.ClampedHealthBounds | Assets/Scripts/Attributes/Health.cs:130 | Clamped health lies in [0, max]; negative damage heals up to max at most; the value is 0 exactly when the damage reaches it or max is 0 |
| Characters.ActionScheduler.constructor | Assets/Scripts/Core/ActionScheduler.cs:18 | The slot starts empty |
| Characters.ActionScheduler.StartAction | Assets/Scripts/Core/ActionScheduler.cs:28-32 | The new action is installed; a different, non-null outgoing action is cancelled exactly once; otherwise nothing is cancelled |
| Characters.ActionScheduler.CancelCurrentAction | Assets/Scripts/Core/ActionScheduler.cs:37-40 | The slot is emptied and the previous action, if any, cancelled |
| Characters.Health.Awake | Assets/Scripts/Attributes/Health.cs:75-88 | Health starts full and alive |
| Characters.Health.Die | Assets/Scripts/Attributes/Health.cs:146-155 | A latch: the first call sets IsDead and cancels the current action, and later calls change nothing |
| Characters.Health.TakeDamage | Assets/Scripts/Attributes/Health.cs:126-140 | No effect once dead; otherwise the value is clamped to [0, max], and the object dies, cancelling its action, exactly when the value becomes 0 |
| Characters.Health.CaptureAsJToken | Assets/Scripts/Attributes/Health.cs:95-98 | The token converts back to the value |
| Characters.Health.RestoreFromJToken | Assets/Scripts/Attributes/Health.cs:101-114 | Null is ignored and a non-number throws without change; a value <= 0 becomes 0 and dies; a positive value is stored unclamped and revives |
| Characters.CombatTarget.constructor | Assets/Scripts/Combat/CombatTarget.cs:24 | A target keeps its faction, Health and transform |
| Characters.Mover.Awake | Assets/Scripts/Movement/Mover.cs:67-83 | The agent (possibly missing), scheduler and health are cached |
| Characters.Mover.Update | Assets/Scripts/Movement/Mover.cs:88-103 | An active agent on a dead character is parked at the current position, stopped and disabled; otherwise nothing changes |
| Characters.Mover.Cancel | Assets/Scripts/Movement/Mover.cs:110-116 | Only the agent's isStopped is set |
| Characters.Mover.MoveTo | Assets/Scripts/Movement/Mover.cs:155-183 | With an agent, the destination is set and the agent resumes |
| Characters.Mover.SetMoveSpeed | Assets/Scripts/Movement/Mover.cs:163-167 | Only the agent's speed changes |
| Characters.Mover.StartMoveAction | Assets/Scripts/Movement/Mover.cs:145-149 | The mover becomes the current action, a different running action is cancelled, and the agent moves |
| Characters.Mover.CaptureState | Assets/Scripts/Movement/Mover.cs:123-126 | A serializable vector of the position |
| Characters.Mover.RestoreState | Assets/Scripts/Movement/Mover.cs:129-135 | Anything but a serializable vector is ignored; otherwise the position is set and the agent ends enabled |
| Characters.Fighter.Awake | Assets/Scripts/Combat/Fighter.cs:82-105 | No target, and the cooldown timer at +infinity |
| Characters.Fighter.Cancel | Assets/Scripts/Combat/Fighter.cs:147-153 | The target is cleared and the stop trigger set; the timer is kept |
| Characters.Fighter.Attack | Assets/Scripts/Combat/Fighter.cs:163-168 | The fighter becomes the current action, then takes the target's Health; hasTarget holds exactly when there is one |
| Characters.Fighter.CanAttack | Assets/Scripts/Combat/Fighter.cs:170-176 | A target can be attacked exactly when it exists, belongs to the fighter's faction and has a Health that is not dead |
| Characters.Fighter.InRange | Assets/Scripts/Combat/Fighter.cs:182-186 | In range exactly when strictly closer than the weapon range |
| Characters.Fighter.Hit | Assets/Scripts/Combat/Fighter.cs:222-227 | With a target, the target takes exactly the weapon damage; without one nothing changes |
| Characters.Fighter.TriggerAttack | Assets/Scripts/Combat/Fighter.cs:197-209 | With an animator only the triggers change; without one the hit lands at once |
| Characters.Fighter.AttackBehavior | Assets/Scripts/Combat/Fighter.cs:188-195 | Without a target, or while the cooldown runs, nothing happens; otherwise the attack is triggered |
| Characters.Fighter.Update | Assets/Scripts/Combat/Fighter.cs:110-131 | The timer always advances; a dead target is cancelled; an out-of-range target is chased; in range the mover stops and the attack gate runs, and a hit that cannot cancel this fighter leaves its target and triggers unchanged |
| Control.AIController.Awake | Assets/Scripts/Control/RPGController.cs:53-63 | hasFighter holds exactly when there is a Fighter; the controller is enabled exactly when there is a Mover; both timers start at +infinity |
| Control.AIController.Start | Assets/Scripts/Control/AIController.cs:92-95 | The start position is the current position |
| Control.AIController.SuspiciousBehavior | Assets/Scripts/Control/AIController.cs:135-138 | The current action is cancelled and the slot emptied |
| Control.AIController.AttackBehavior | Assets/Scripts/Control/AIController.cs:128-133 | The look timer is zeroed, the mover set to chase speed, and the fighter attacks, cancelling a different running action |
| Control.AIController.PatrolBehavior | Assets/Scripts/Control/AIController.cs:140-177 | At the waypoint the cursor advances and the waypoint timer resets; while that timer is below waypointTime the agent only cancels, otherwise it moves to the waypoint (the start position without a path); on a path with no waypoints only the speed is set before the waypoint lookup throws |
| Control.AIController.AtWaypoint | Assets/Scripts/Control/AIController.cs:162-165 | At the waypoint exactly when a path is set and its current waypoint lies within the tolerance, the bound included |
| Control.AIController.GetClosestTarget | Assets/Scripts/Control/AIController.cs:193-219 | The hits are written into the buffer, and the result is the closest qualifying target of the whole buffer |
| Control.AIController.Behave | Assets/Scripts/Control/AIController.cs:103-109 | The agent attacks when a closest target exists and the fighter can attack it, else stays suspicious while the look timer is below lookTime, else patrols; it fails exactly when it patrols a path with no waypoints |
| Control.AIController.Update | Assets/Scripts/Control/AIController.cs:100-113 | A dead agent does nothing; a live one behaves as Behave says and then advances both timers, except that patrolling a path with no waypoints throws and leaves the timers |
| Control.TimersStartOpen | Assets/Scripts/Control/AIController.cs:71-72 | Until the agent first sees a target it is never suspicious, and until it first reaches a waypoint it never waits |
| Perception.Overlap | Assets/Scripts/Control/AIController.cs:207 | The first slots receive the hits and every later slot keeps its old collider |
| Perception.Candidates | Assets/Scripts/Control/AIController.cs:209-217 | At most one candidate per buffer slot |
| Perception.CandidatesExactly | Assets/Scripts/Control/AIController.cs:209-217 | A candidate is exactly a qualifying slot (a live combat target of the faction), with its distance |
| Perception.StaleEntryConsidered | Assets/Scripts/Control/AIController.cs:68 | A qualifying target left in the buffer by an earlier query is still a candidate |
| Perception.InsertPermutation | Assets/Scripts/Control/AIController.cs:218 | Inserting adds exactly the new candidate |
| Perception.InsertSortedPermutation | Assets/Scripts/Control/AIController.cs:218 | Inserting into a sorted sequence keeps it sorted and adds exactly the new candidate |
| Perception.SortByDistanceCorrect | Assets/Scripts/Control/AIController.cs:218 | OrderBy yields ascending distances and is a permutation |
| Perception.FirstNearest | Assets/Scripts/Control/AIController.cs:218 | The first index at the smallest distance |
| Perception.SortHead | Assets/Scripts/Control/AIController.cs:218 | The sorted sequence starts with the first nearest candidate, so ties go by buffer order |
| Perception.Closest | Assets/Scripts/Control/AIController.cs:193-199 | No target exactly when there is no candidate |
| Perception.ClosestIsNearest | Assets/Scripts/Control/AIController.cs:193-218 | The target returned is the first candidate at the smallest distance |
| Progressions.Calculate | Assets/Scripts/Stats/Progression.cs:22-29 | startingValue up to level 1; without a curve and with non-negative parameters, no level is worth less than the first |
| Progressions.CalculateStep | Assets/Scripts/Stats/Progression.cs:12-29 | Within the declared ranges, one level adds at least absoluteAdded |
| Progressions.CalculateMonotonic | Assets/Scripts/Stats/Progression.cs:12-29 | Within the declared ranges and without a curve, the value is non-decreasing in the level |
| Progressions.CalculateLowerBound | Assets/Scripts/Stats/Progression.cs:12-29 | Level n is worth at least startingValue + (n - 1) * absoluteAdded |
| Progressions.CalculateLinear | Assets/Scripts/Stats/Progression.cs:22-29 | With no percentage and no curve the growth is linear |
| Progressions.FindStat | Assets/Scripts/Stats/Progression.cs:50-59 | The formula of the first entry for the stat; it throws exactly when there is none |
| Progressions.LookupFromCharacterized | Assets/Scripts/Stats/Progression.cs:65-90 | The search finds the first class entry that lists the stat, or reports no entry for the class, or counts the class entries without the stat |
| Progressions.LookupFromFound | Assets/Scripts/Stats/Progression.cs:69-75 | A found formula comes from an entry for the class that lists the stat |
| Progressions.LookupFromFoundIff | Assets/Scripts/Stats/Progression.cs:69-83 | The search succeeds exactly when some entry for the class lists the stat |
| Progressions.LookupFromFirst | Assets/Scripts/Stats/Progression.cs:69-83 | A found formula is that of the first such entry |
| Progressions.LookupFromFailed | Assets/Scripts/Stats/Progression.cs:85-89 | "No progression" exactly when no entry is for the class; otherwise the count of class entries |
| Progressions.FindProgressionCharacterClassWithStat | Assets/Scripts/Stats/Progression.cs:65-90 | The loop with its ccFound flag computes the lookup |
| Progressions.LookupStat | Assets/Scripts/Stats/Progression.cs:63-90 | The indexer `progression[cc, stat]`: the search from the first entry, with nothing counted yet |
| Progressions.LookupFailures | Assets/Scripts/Stats/Progression.cs:65-90 | The lookup fails with "no progression" exactly when no entry is for the class, and otherwise fails only when no class entry lists the stat |
| Progressions.LookupFallsThrough | Assets/Scripts/Stats/Progression.cs:69-83 | A later entry for the same class is used when the earlier one lacks the stat |
| Stats.Experience.constructor | Assets/Scripts/Stats/Experience.cs:29 | Experience starts at 0 |
| Stats.Experience.GainExperience | Assets/Scripts/Stats/Experience.cs:72-77 | A death sent by the same object is ignored; any other adds the amount, and the new total is broadcast exactly when the event is assigned |
| Stats.Experience.CaptureAsJToken | Assets/Scripts/Stats/Experience.cs:56-59 | The token converts back to the value |
| Stats.Experience.RestoreFromJToken | Assets/Scripts/Stats/Experience.cs:62-66 | Null is ignored, a non-number throws without change, and a number replaces the value |
| Stats.BaseStats.Awake | Assets/Scripts/Stats/BaseStats.cs:23-27 | The Experience component is cached |
| Stats.BaseStats.Formula | Assets/Scripts/Stats/BaseStats.cs:97 | The lookup `progression[characterClass, stat]`, failing as for a class without entries when no asset is assigned |
| Stats.BaseStats.GetExperienceNeeded | Assets/Scripts/Stats/BaseStats.cs:93-104 | +infinity exactly when the lookup fails; otherwise the formula at the level |
| Stats.BaseStats.GetStatValue | Assets/Scripts/Stats/BaseStats.cs:64-75 | 0 when the lookup fails; otherwise the formula at the current level |
| Stats.BaseStats.CalculateLevel | Assets/Scripts/Stats/BaseStats.cs:77-91 | startingLevel without Experience; otherwise the least level from startingLevel whose requirement is not below the experience |
| Stats.BaseStats.Start | Assets/Scripts/Stats/BaseStats.cs:29-35 | The current level is the calculated level |
| Stats.BaseStats.UpdateLevel | Assets/Scripts/Stats/BaseStats.cs:47-56 | Other senders are ignored; the level never drops, and a level-up is announced exactly when it rises; the recalculation always stores the calculated level's requirement in experienceToNextLevel, and only the level and that threshold change |
| Stats.LevelForUnique | Assets/Scripts/Stats/BaseStats.cs:77-91 | The calculated level is unique |
| Stats.LevelMonotonic | Assets/Scripts/Stats/BaseStats.cs:77-91 | More experience never gives a lower level |
| Stats.CanLevelOutWhen | Assets/Scripts/Stats/BaseStats.cs:82-86 | The search stops when the lookup fails (+infinity) or when a formula in range adds a positive amount per level |
| Stats.CalculateLevelCanDiverge | Assets/Scripts/Stats/BaseStats.cs:82-86 | With startingValue 1 and nothing added per level, experience above 1 is below every requirement, so the search never ends |
| Stats.LookupFallsThroughOne | Assets/Scripts/Stats/Progression.cs:69-83 | One class entry that lists only ExperienceToLevel finds that formula |
| Stats.LookupMissingStatOne | Assets/Scripts/Stats/Progression.cs:85-89 | One class entry without the stat fails with one entry counted, and GetExperienceNeeded is then +infinity at every level |
| Attributes.Experience.constructor | Assets/Scripts/Attributes/Experience.cs:35 | The experience starts at the given value; ExperienceToNextLevel is the constant 100 |
| Attributes.Experience.GainExperience | Assets/Scripts/Attributes/Experience.cs:70 | Adds exactly the amount |
| Attributes.Experience.GetPercentage | Assets/Scripts/Attributes/Experience.cs:72-75 | The percentage times ExperienceToNextLevel gives the value back, and it lies in [0, 1] while the value does not exceed a level |
| Attributes.Experience.CaptureAsJToken | Assets/Scripts/Attributes/Experience.cs:54-57 | The token converts back to the value |
| Attributes.Experience.RestoreFromJToken | Assets/Scripts/Attributes/Experience.cs:60-64 | Null is ignored, a non-number throws without change, and a number replaces the value |
| Cinematics.CinematicTrigger.Awake | Assets/Scripts/Cinematics/CinematicTrigger.cs:49-52 | The director is cached and the latch is open |
| Cinematics.CinematicTrigger.OnTriggerEnter | Assets/Scripts/Cinematics/CinematicTrigger.cs:57-62 | Only the first player contact sets the latch and plays the timeline, once |
| Cinematics.CinematicTrigger.CaptureState | Assets/Scripts/Cinematics/CinematicTrigger.cs:69-72 | The boxed latch |
| Cinematics.CinematicTrigger.RestoreState | Assets/Scripts/Cinematics/CinematicTrigger.cs:75-81 | Anything but a boxed bool throws without change; a set flag plays the timeline and moves it to its end |
| Cinematics.CinematicTrigger.CaptureAsJToken | Assets/Scripts/Cinematics/CinematicTrigger.cs:88-92 | The JSON capture is null |
| SavableEntities.RestoreOwnCapture | Assets/Scripts/Saving/SavableEntity.cs:58-85 | Restoring a component from its own capture gives its fields back exactly when a mover's agent is missing or enabled, or a trigger has not fired |
| SavableEntities.DistinctTypesSeparate | Assets/Scripts/Saving/SavableEntity.cs:61 | Components of distinct types share no object, so restoring one leaves the others alone |
| SavableEntities.LastOfType | Assets/Scripts/Saving/SavableEntity.cs:61-64 | The index of the last component with a type name, or -1: no later component has that name |
| SavableEntities.LastOfTypeDistinct | Assets/Scripts/Saving/SavableEntity.cs:61-64 | With distinct type names every component is the last of its type |
| SavableEntities.CaptureMapLast | Assets/Scripts/Saving/SavableEntity.cs:61-64 | Every key holds the state of the last component of that type: a later component overwrites an earlier one |
| SavableEntities.CaptureMapLastOf | Assets/Scripts/Saving/SavableEntity.cs:61-64 | A type name some component carries is a key holding the last such component's state |
| SavableEntities.CaptureMapContents | Assets/Scripts/Saving/SavableEntity.cs:58-67 | One key per component, its type name, holding that component's state |
| SavableEntities.CaptureMapKeys | Assets/Scripts/Saving/SavableEntity.cs:61-64 | The keys are the components' type names |
| SavableEntities.CaptureMapValues | Assets/Scripts/Saving/SavableEntity.cs:61-64 | With distinct types, each type name holds its component's capture |
| SavableEntities.SavableEntity.CaptureState | Assets/Scripts/Saving/SavableEntity.cs:58-67 | A dictionary whose keys are the components' type names, each holding the state of the last component of that type, which is each component's own state when the types are distinct |
| SavableEntities.SavableEntity.RestoreState | Assets/Scripts/Saving/SavableEntity.cs:74-85 | For any components, it succeeds exactly when the state is accepted, and a non-dictionary changes nothing; when no two components share an object, each component whose type name is a key is restored from that entry (components of one type from the same entry) and the others are untouched |
| SavableEntities.SavableEntity.RestoreCaptured | Assets/Scripts/Saving/SavableEntity.cs:58-85 | A captured state is accepted back, and every component is restored from the capture of the last component of its type, its own capture when the types are distinct |
| SavableEntities.SavableEntity.RestoreComponent | Assets/Scripts/Saving/SavableEntity.cs:78-83 | A missing key is skipped; a present one restores the component |
| SavableEntities.SavableEntity.IsUnique | Assets/Scripts/Saving/SavableEntity.cs:118-134 | The answer of Decide, with the candidate's entry removed exactly when released |
| SavableEntities.SavableEntity.Update | Assets/Scripts/Saving/SavableEntity.cs:95-111 | Nothing happens while playing or outside a saved scene; otherwise a blank or taken id is replaced and the lookup maps the id to this entity |
| JsonSavableEntities.RestoreOwnCapture | Assets/Scripts/Saving/JsonSavableEntity.cs:61-92 | A component accepts its own capture; restoring it gives its fields back except for a Health whose value and IsDead disagree |
| JsonSavableEntities.DistinctTypesSeparate | Assets/Scripts/Saving/JsonSavableEntity.cs:65 | Components of distinct types record no common object, so restoring one leaves the others' fields alone |
| JsonSavableEntities.LastOfType | Assets/Scripts/Saving/JsonSavableEntity.cs:65-71 | The index of the last component with a type name, or -1: no later component has that name |
| JsonSavableEntities.LastOfTypeDistinct | Assets/Scripts/Saving/JsonSavableEntity.cs:65-71 | With distinct type names every component is the last of its type |
| JsonSavableEntities.CaptureMapLast | Assets/Scripts/Saving/JsonSavableEntity.cs:65-71 | Every property holds the token of the last component of that type: a later component overwrites an earlier one |
| JsonSavableEntities.CaptureMapLastOf | Assets/Scripts/Saving/JsonSavableEntity.cs:65-71 | A type name some component carries is a property holding the last such component's token |
| JsonSavableEntities.CaptureMapContents | Assets/Scripts/Saving/JsonSavableEntity.cs:61-74 | One property per component, its type name, holding that component's token |
| JsonSavableEntities.CaptureMapKeys | Assets/Scripts/Saving/JsonSavableEntity.cs:65-71 | The property names are the components' type names |
| JsonSavableEntities.CaptureMapValues | Assets/Scripts/Saving/JsonSavableEntity.cs:65-71 | With distinct types, each type name holds its component's token |
| JsonSavableEntities.JsonSavableEntity.Capture | Assets/Scripts/Saving/JsonSavableEntity.cs:61-74 | An object whose property names are the components' type names, each holding the token of the last component of that type, which is each component's own token when the types are distinct |
| JsonSavableEntities.JsonSavableEntity.Restore | Assets/Scripts/Saving/JsonSavableEntity.cs:81-92 | For any components, it succeeds exactly when the state is accepted, a non-object changes nothing, and every Health's scheduler keeps or drops its action, so no footprint grows; when no two components record the same object, each component whose type name is a property is restored from it (components of one type from the same property) and the others are untouched |
| JsonSavableEntities.JsonSavableEntity.RestoreCaptured | Assets/Scripts/Saving/JsonSavableEntity.cs:61-92 | A captured state is accepted back, and every component is restored from the token of the last component of its type, its own token when the types are distinct |
| JsonSavableEntities.JsonSavableEntity.RestoreComponent | Assets/Scripts/Saving/JsonSavableEntity.cs:86-90 | A missing key is skipped; a present one restores the component; a Health's scheduler slot is kept or emptied |
| JsonSavableEntities.JsonSavableEntity.RestoreOne | Assets/Scripts/Saving/JsonSavableEntity.cs:84-90 | One component is restored; every scheduler slot is kept or emptied; with separate components no other component's fields change |
| JsonSavableEntities.JsonSavableEntity.IsUnique | Assets/Scripts/Saving/JsonSavableEntity.cs:132-148 | The answer of Decide, with the candidate's entry removed exactly when released |
| JsonSavableEntities.JsonSavableEntity.Update | Assets/Scripts/Saving/JsonSavableEntity.cs:102-118 | Nothing happens while playing or outside a saved scene; otherwise a blank or taken id is replaced and the lookup maps the id to this entity |
| SaveFiles.SavePath | Assets/Scripts/Saving/SavingSystem.cs:160-167 | The path ends in the save name followed by the extension |
| SaveFiles.SavePathInjective | Assets/Scripts/Saving/SavingSystem.cs:166 | Distinct save names never share a file |
| SaveFiles.ReadVersion | Assets/Scripts/Saving/SavingSystem.cs:106-110 | 0 when the key is missing; otherwise the cast of the stored value |
| SaveFiles.LoadFile | Assets/Scripts/Saving/SavingSystem.cs:96-120 | A missing file or an unsupported version gives an empty dictionary; a version the cast rejects throws; a supported file is returned whole |
| SaveFiles.MergeKeys | Assets/Scripts/Saving/SavingSystem.cs:134-137 | The capture loop adds exactly the ids |
| SaveFiles.MergeKeeps | Assets/Scripts/Saving/SavingSystem.cs:134-137 | The capture loop leaves every entry except the ids' untouched |
| SaveFiles.MergeEntry | Assets/Scripts/Saving/SavingSystem.cs:134-137 | An id holds its entity's capture unless a later entity has the same id |
| SaveFiles.CapturedContents | Assets/Scripts/Saving/SavingSystem.cs:131-140 | The saved keys are the loaded ones, the two reserved keys and every id; it records the version and scene; entries of entities absent from the scene survive |
| SaveFiles.SavedFileLoads | Assets/Scripts/Saving/SavingSystem.cs:65-70 | A file saved at the current version loads back whole |
| SaveFiles.ChosenScene | Assets/Scripts/Saving/SavingSystem.cs:39-44 | The saved build index when there is one; the active scene otherwise |
| SaveFiles.SavedSceneChosen | Assets/Scripts/Saving/SavingSystem.cs:39-44 | A saved file sends LoadLastScene back to the scene it was saved in |
| SavingSystems.CaptureEntity | Assets/Scripts/Saving/SavingSystem.cs:136 | Capturing one entity yields its capture and changes no id or capture |
| SavingSystems.RestoreEntity | Assets/Scripts/Saving/SavingSystem.cs:155 | Any entity is restored exactly when it accepts its entry; with separate components its snapshot is the restored one |
| SavingSystems.RestoreAt | Assets/Scripts/Saving/SavingSystem.cs:150-157 | For any entities, entity i is restored exactly when it accepts its entry (its snapshot stated when its components are separate); when no two entities share a component object, no other entity changes |
| SavingSystems.GetPath | Assets/Scripts/Saving/SavingSystem.cs:160-166 | The save name plus `.sav`, inside the GameData folder of the data path |
| SavingSystems.SavingSystem.CaptureState | Assets/Scripts/Saving/SavingSystem.cs:131-140 | The version, then each entity's capture under its id, then the scene, written over the state |
| SavingSystems.SavingSystem.Save | Assets/Scripts/Saving/SavingSystem.cs:65-70 | The file becomes the capture over its loaded contents; a load that throws leaves the file alone |
| SavingSystems.SavingSystem.RestoreState | Assets/Scripts/Saving/SavingSystem.cs:142-158 | For any entities, it succeeds exactly when the version casts and every selected entity accepts its entry, and a version that does not cast changes nothing; when no two entities share a component object, each selected entity with separate components is restored and every unselected one is unchanged |
| SavingSystems.SavingSystem.Load | Assets/Scripts/Saving/SavingSystem.cs:76-79 | For any entities, it succeeds exactly when the file loads and its state is accepted, and a file that does not load changes nothing; when no two entities share a component object, the scene is restored from the loaded file |
| SavingSystems.SavingSystem.LoadLastScene | Assets/Scripts/Saving/SavingSystem.cs:37-59 | For any entities, the saved scene is chosen, loaded when it is not the active one, and restored; it succeeds exactly when the state is accepted, a failed load or scene cast changes nothing, and the restored snapshots are stated when no two entities share a component object |
| SavingSystems.SavingSystem.Delete | Assets/Scripts/Saving/SavingSystem.cs:85-90 | The file is gone, so it loads as empty, and the other files stay |
| JsonSaveSystems.ListSavesExactly | Assets/Scripts/Saving/Json/JsonSaveSystem.cs:102-106 | A name without a separator is listed exactly when its save file exists |
| JsonSaveSystems.ListedSavesExist | Assets/Scripts/Saving/Json/JsonSaveSystem.cs:102-106 | Every listed name has a save file |
| JsonSaveSystems.ListSaves | Assets/Scripts/Saving/Json/JsonSaveSystem.cs:102-106 | The names, without the extension, of the `.json` files directly inside the Saves folder |
| JsonSaveSystems.GetPath | Assets/Scripts/Saving/Json/JsonSaveSystem.cs:179-183 | The save name plus `.json`, inside the Saves folder of the data path |
| JsonSaveSystems.CaptureEntity | Assets/Scripts/Saving/Json/JsonSaveSystem.cs:155 | Capturing one entity yields its capture and changes no id or capture |
| JsonSaveSystems.RestoreEntity | Assets/Scripts/Saving/Json/JsonSaveSystem.cs:174 | Any entity is restored exactly when it accepts its entry, its schedulers keep or drop their actions and its footprint only shrinks; with separate components its snapshot is the restored one |
| JsonSaveSystems.RestoreAt | Assets/Scripts/Saving/Json/JsonSaveSystem.cs:169-176 | For any entities, entity i is restored exactly when it accepts its entry (its snapshot stated when its components are separate), every scheduler of every entity keeps or drops its action and no entity's footprint grows; when no two entities record a common object, no other entity changes |
| JsonSaveSystems.JsonSaveSystem.CaptureState | Assets/Scripts/Saving/Json/JsonSaveSystem.cs:150-159 | The version, then each entity's capture under its id, then the scene, written over the state |
| JsonSaveSystems.JsonSaveSystem.Save | Assets/Scripts/Saving/Json/JsonSaveSystem.cs:75-80 | The file becomes the capture over its loaded contents; a load that throws leaves the file alone |
| JsonSaveSystems.JsonSaveSystem.RestoreState | Assets/Scripts/Saving/Json/JsonSaveSystem.cs:161-177 | For any entities, it succeeds exactly when the version converts and every selected entity accepts its entry, and a version that does not convert changes nothing; when no two entities record a common object, each selected entity with separate components is restored and every unselected one is unchanged |
| JsonSaveSystems.JsonSaveSystem.Load | Assets/Scripts/Saving/Json/JsonSaveSystem.cs:86-89 | For any entities, it succeeds exactly when the file loads and its state is accepted, and a file that does not load changes nothing; when no two entities record a common object, the scene is restored from the loaded file |
| JsonSaveSystems.JsonSaveSystem.LoadLastScene | Assets/Scripts/Saving/Json/JsonSaveSystem.cs:47-69 | For any entities, the saved scene is chosen, loaded when it is not the active one, and restored; it succeeds exactly when the state is accepted, a failed load or scene conversion changes nothing, and the restored snapshots are stated when no two entities record a common object |
| JsonSaveSystems.JsonSaveSystem.Delete | Assets/Scripts/Saving/Json/JsonSaveSystem.cs:95-100 | The file is gone, so it loads as empty, and the other files stay |
| Strategies.GetPath | Assets/Scripts/Saving/Strategies/SavingStrategy.cs:51-56 | The save name plus the extension, inside the Saves folder of the data path |
| Strategies.ExtensionsSeparateFiles | Assets/Scripts/Saving/Strategies/XorStrategy.cs:29 | The two strategies never write to the same file |
| Strategies.CipherInvolution | Assets/Scripts/Saving/Strategies/XorStrategy.cs:65-79 | Applying the cipher twice with the same key gives the input back |
| Strategies.EncryptedInvolution | Assets/Scripts/Saving/Strategies/XorStrategy.cs:65-79 | It succeeds exactly for empty input or a non-empty key, and then decrypting what it encrypted gives the input back |
| Strategies.CipherSnoc | Assets/Scripts/Saving/Strategies/XorStrategy.cs:73-76 | One more input code unit adds one cipher code unit |
| Strategies.EncryptDecrypt | Assets/Scripts/Saving/Strategies/XorStrategy.cs:65-79 | The loop computes the cipher: empty input gives empty output, and an empty key throws |
| Strategies.XorAsciiKeepsKind | Assets/Scripts/Saving/Strategies/XorTextStrategy.cs:76 | XOR with an ASCII code unit keeps surrogates and non-surrogates apart |
| Strategies.AsciiKeyKeepsWellFormed | Assets/Scripts/Saving/Strategies/XorStrategy.cs:36-39 | With an ASCII key the cipher text is well-formed UTF-16 exactly when the plain text is, so the UTF-8 writer accepts one exactly when it accepts the other |
| Strategies.XorSaveThenLoad | Assets/Scripts/Saving/Strategies/XorStrategy.cs:32-55 | With an ASCII key and well-formed text, the save is written whole and loads back the saved text; other files are untouched |
| Strategies.XorSaveUnwritable | Assets/Scripts/Saving/Strategies/XorStrategy.cs:36-39 | With an ASCII key, the UTF-8 writer throws exactly when the JSON text is not well-formed UTF-16 |
| Strategies.XorEmptyKeyTruncates | Assets/Scripts/Saving/Strategies/XorStrategy.cs:32-40 | With an empty key, saving non-empty text leaves an empty file, which loads as empty text |
| Strategies.XorStrategy.constructor | Assets/Scripts/Saving/Strategies/XorStrategy.cs:24 | The key starts as the default key |
| Strategies.XorStrategy.SaveToFile | Assets/Scripts/Saving/Strategies/XorStrategy.cs:32-40 | The file holds the cipher text; it is empty when the cipher throws and holds a prefix of the cipher text when the UTF-8 writer throws; it succeeds exactly when neither throws, and no other file changes |
| Strategies.XorStrategy.LoadFromFile | Assets/Scripts/Saving/Strategies/XorStrategy.cs:43-55 | A missing file gives a new object; otherwise the deciphered text, of the file's length |
| Strategies.DecodeFromBase64String | Assets/Scripts/Saving/Strategies/XorTextStrategy.cs:87-92 | Empty text decodes to itself; anything else goes to the decoder |
| Strategies.XorTextLoadsCipher | Assets/Scripts/Saving/Strategies/XorTextStrategy.cs:44-57 | A file holding the Base64 of the cipher text loads back the JSON text; an empty file loads as empty text |
| Strategies.XorTextStrategy.constructor | Assets/Scripts/Saving/Strategies/XorTextStrategy.cs:24 | The key starts as the default key |
| Strategies.XorTextStrategy.LoadFromFile | Assets/Scripts/Saving/Strategies/XorTextStrategy.cs:44-57 | A missing file gives a new object; otherwise the decoded and deciphered text; an empty file gives empty text |

## Left out

- `VersionControl` (the current and minimum file versions), the `ISavable`/`IJsonSavable` interfaces and the `Stat`/`CharacterClass` enums are not part of this model. The versions are a parameter of the save systems, and the enums are numbered values.
- Game events (`GameObjectFloatGameEvent` and the rest), their listener registration, and the broadcasts `Stats.Experience.Start` and `BaseStats.Start` make after one frame. A broadcast is returned as the value it would carry.
- Coroutines and the asynchronous scene load of `LoadLastScene`. The entities of the loaded scene are a parameter.
- `FindObjectsOfType`, `GetComponents`, `Physics.OverlapSphereNonAlloc` and `Vector3.Distance` are parameters: a sequence of entities, a sequence of components, the hits, and a distance function.
- File-system I/O, directory creation, `Debug.Log` and `Debug.LogWarning`, the animator calls other than Fighter's two attack triggers, and the `transform.LookAt` turn toward the target in `Fighter.AttackBehavior` (Assets/Scripts/Combat/Fighter.cs:193): rotation is not modelled. Files are a map from path to contents.
- `Path.Combine` with a rooted second part; save names are taken as relative.
- The text form of JSON, BinaryFormatter bytes, `JToken.Parse`, UTF-8 bytes and Base64. `Strategies.XorStrategy.LoadFromFile` returns the text it would parse. Of the UTF-8 text files only the strict encoder's check is modelled: a well-formed text is written and read back unchanged, and any other text makes the writer throw.
- `Strategies.XorStrategy.SaveToFile`: when the UTF-8 writer throws, the file holds some prefix of the cipher text. Which prefix, the chunks the writer's buffer flushed before the bad one, is not modelled.
- `XorTextStrategy.SavetoFile`: it does not override the abstract `SaveToFile` (Assets/Scripts/Saving/Strategies/SavingStrategy.cs:36), so the class does not compile as written. Only the load path is modelled.
- The editor-only key generators of both strategies, and the GUID text, which is a parameter of `Update`.
- `ListSaves` returns the names as a set: directory order is not modelled.
- IEEE floats are reals. There is no rounding in `Calculate`, in the health clamp or in the timers, and no NaN.
- `Json.ToFloat` and `Json.ToInt` do not convert strings, which Json.NET may parse.
- C# null strings; a Dafny string is never null.
- Restore after a throw: the model reports `ok` false. It states nothing about the components an entity had already restored before the throw, except that a cast of the version that fails restores none.
- An entity whose id equals `CurrentFileVersion` or `lastSceneBuildIndex`. `SaveFiles.CapturedContents` states the version entry only when no entity has that id.
- `Strategies.EncryptDecrypt`: the `int` counter never wraps, because a .NET string is shorter than 2^31 code units.
- `Stats.BaseStats.CalculateLevel` requires that some level from startingLevel on is not below the experience. Without that the source loops forever, and `Stats.CalculateLevelCanDiverge` shows such a configuration within the declared ranges.
- `SavableEntities.SavableEntity.RestoreState`: for an entity two of whose components share an object it states whether the restore succeeds, not the fields it leaves. Two components of one type on one game object share its transform (two Movers) or may share a director (two CinematicTriggers). The source restores each of them from the same entry, one after the other, so a shared director fired by both plays twice.
- `JsonSavableEntities.JsonSavableEntity.Restore`: the same for two components that record a common object. Two Healths of one game object share its scheduler, and the second one to die finds the slot already emptied. Two Experience components of one type on distinct objects are separate, and their fields are stated.
- `SavingSystems.RestoreEntity`, `SavingSystems.RestoreAt`: the restored snapshot is stated only for an entity whose components share no object, as for `SavableEntity.RestoreState`.
- `SavingSystems.SavingSystem.RestoreState`, `SavingSystems.SavingSystem.Load`, `SavingSystems.SavingSystem.LoadLastScene`: the same, entity by entity; success and the failure cases are stated for every entity.
- `SavingSystems.RestoreAt`, `SavingSystems.SavingSystem.RestoreState`, `SavingSystems.SavingSystem.Load`, `SavingSystems.SavingSystem.LoadLastScene`: the snapshots are stated only when no two entities share a component object. Two SavableEntities on one game object share its components; the source restores those components once per entity, and the entry restored last wins.
- `JsonSaveSystems.RestoreEntity`, `JsonSaveSystems.RestoreAt`: the restored snapshot is stated only for an entity whose components record no common object, as for `JsonSavableEntity.Restore`.
- `JsonSaveSystems.JsonSaveSystem.RestoreState`, `JsonSaveSystems.JsonSaveSystem.Load`, `JsonSaveSystems.JsonSaveSystem.LoadLastScene`: the same, entity by entity; success and the failure cases are stated for every entity.
- `JsonSaveSystems.RestoreAt`, `JsonSaveSystems.JsonSaveSystem.RestoreState`, `JsonSaveSystems.JsonSaveSystem.Load`, `JsonSaveSystems.JsonSaveSystem.LoadLastScene`: the snapshots are stated only when no two entities record a common object. Two JsonSavableEntities on one game object share its components; the source restores those components once per entity, and the entry restored last wins.
- `JsonSavableEntities.JsonSavableEntity.Capture` calls `CaptureAsJToken` twice per component. The first result is only logged, and the call changes nothing, so it is modelled once.
- `Characters.Fighter.Awake` does not model the error path that disables a Fighter without a Mover or scheduler. Both are required components.
- `Characters.Mover.Update` does not model the animator's forward speed or `ResetPath`; the agent's path is not modelled.
- The gizmo colours and radii of `PatrolPath.OnDrawGizmos`. `PatrolPaths.DrawGizmos` returns the indices drawn.
- `Health` and both `Experience` classes declare `ISavable` but implement only the JSON methods `CaptureAsJToken` and `RestoreFromJToken`, so they are modelled as components of `JsonSavableEntity`. `CinematicTrigger` declares `IJsonSavable` and implements both the JSON and the binary pair, so it is a component of both entity kinds. `Mover` declares `ISaveable` and implements the binary pair, so it is a component of `SavableEntity`.
- `Control.AIController` has a `health` field for the `health` that Update reads (Assets/Scripts/Control/AIController.cs:102). Neither AIController.cs nor RPGController.cs declares or assigns such a field, so the model takes the character's own Health as a parameter of `Awake`.
- `AIController` calls `patrolPath.NextIndex()` and `patrolPath.GetWaypoint()`, which PatrolPath.cs does not declare (it has only a private `GetWaypoint(int)`). The cursor is kept in the controller and advanced by `PatrolPaths.GetNextIndex`.
- `Cinematics.CinematicTrigger.RestoreFromJToken` is switched off in the source and does nothing; it carries no contract.
