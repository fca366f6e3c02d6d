/** JsonSavableEntity (Assets/Scripts/Saving/JsonSavableEntity.cs): the JSON
    save pipeline's per-game-object record. It captures every JSON-savable
    component into a JObject under its type name and keeps a unique id,
    registered in a static lookup. The components with CaptureAsJToken and
    RestoreFromJToken are Health, the two Experience classes and
    CinematicTrigger. */
module JsonSavableEntities {
  import opened Common
  import opened Json
  import opened Characters
  import opened Cinematics
  import opened EntityIds
  import Stats
  import Attributes

  /** A snapshot of a component's mutable fields. For a Health these are its
      own fields and its scheduler's slot and cancel log. */
  datatype JsonFields =
    | HealthFields(value: real, isDead: bool, current: Option<Action>, cancelled: seq<Action>)
    | ExperienceFields(experience: real)
    | NoFields

  /** One JSON-savable component. */
  datatype JsonSavable =
    | HealthSavable(health: Health)
    | StatsExperienceSavable(statsExperience: Stats.Experience)
    | AttributesExperienceSavable(attributesExperience: Attributes.Experience)
    | CinematicJsonSavable(trigger: CinematicTrigger)
  {
    /** `jsonSavable.GetType().ToString()`: the full type name. */
    function TypeName(): string
    {
      match this
      case HealthSavable(_) => "RPGEngine.Attributes.Health"
      case StatsExperienceSavable(_) => "RPGEngine.Stats.Experience"
      case AttributesExperienceSavable(_) => "RPGEngine.Attributes.Experience"
      case CinematicJsonSavable(_) => "RPGEngine.Cinematics.CinematicTrigger"
    }

    /** What restoring may change. A Health that dies cancels the action its
        scheduler runs, so its footprint follows the scheduler's slot; the
        trigger's JSON restore changes nothing. */
    function Objects(): set<object>
      reads if HealthSavable? then {health.scheduler} else {}
    {
      match this
      case HealthSavable(h) => h.Footprint()
      case StatsExperienceSavable(e) => {e}
      case AttributesExperienceSavable(e) => {e}
      case CinematicJsonSavable(_) => {}
    }

    /** The objects whose fields Fields() records. */
    function StateObjects(): set<object>
    {
      match this
      case HealthSavable(h) => {h, h.scheduler}
      case StatsExperienceSavable(e) => {e}
      case AttributesExperienceSavable(e) => {e}
      case CinematicJsonSavable(_) => {}
    }

    ghost function Fields(): JsonFields
      reads StateObjects()
    {
      match this
      case HealthSavable(h) => HealthFields(h.value, h.isDead, h.scheduler.current, h.scheduler.cancelled)
      case StatsExperienceSavable(e) => ExperienceFields(e.value)
      case AttributesExperienceSavable(e) => ExperienceFields(e.value)
      case CinematicJsonSavable(_) => NoFields
    }

    /** What capturing reads: the component itself (the trigger's capture
        reads nothing). */
    function Owner(): set<object>
    {
      match this
      case HealthSavable(h) => {h}
      case StatsExperienceSavable(e) => {e}
      case AttributesExperienceSavable(e) => {e}
      case CinematicJsonSavable(_) => {}
    }

    /** CaptureAsJToken; the trigger's null is stored by the JObject as a JSON
        null. */
    function Capture(): JToken
      reads Owner()
    {
      match this
      case HealthSavable(h) => h.CaptureAsJToken()
      case StatsExperienceSavable(e) => e.CaptureAsJToken()
      case AttributesExperienceSavable(e) => e.CaptureAsJToken()
      case CinematicJsonSavable(t) =>
        match t.CaptureAsJToken()
        case None => JNull
        case Some(token) => token
    }

    /** The component's RestoreFromJToken does not throw on `token`: every
        component but the trigger converts it to a float. */
    predicate Accepts(token: JToken)
    {
      CinematicJsonSavable? || ToFloat(token).Some?
    }

    /** The fields RestoreFromJToken leaves, from the fields `before` and an
        accepted `token`. A Health given a value <= 0 holds 0 and is dead, and
        if it was alive its scheduler's action is cancelled and the slot
        emptied; a positive value is stored unclamped and IsDead cleared. An
        Experience takes the number. The trigger ignores the token. */
    ghost function AfterRestore(before: JsonFields, token: JToken): JsonFields
    {
      match (this, before, ToFloat(token))
      case (HealthSavable(_), HealthFields(_, isDead, current, cancelled), Some(v)) =>
        if v <= 0.0 then
          if isDead then HealthFields(0.0, true, current, cancelled)
          else HealthFields(0.0, true, None, cancelled + CancelledBy(current, None))
        else HealthFields(v, false, current, cancelled)
      case (StatsExperienceSavable(_), ExperienceFields(_), Some(v)) => ExperienceFields(v)
      case (AttributesExperienceSavable(_), ExperienceFields(_), Some(v)) => ExperienceFields(v)
      case _ => before
    }
  }

  /** Restoring a component from its own capture gives back its fields, except
      for a Health whose value and IsDead disagree: only a live Health with a
      positive value or a dead one holding exactly 0 survives the round trip. */
  lemma RestoreOwnCapture(c: JsonSavable)
    ensures c.Accepts(c.Capture())
    ensures c.AfterRestore(c.Fields(), c.Capture()) == c.Fields() <==>
            (c.HealthSavable? ==> (0.0 < c.health.value && !c.health.isDead) ||
                                  (c.health.value == 0.0 && c.health.isDead))
  {
    match c
    case HealthSavable(h) =>
      var f := c.Fields();
      var v := h.value;
      assert ToFloat(c.Capture()) == Some(v);
      if v <= 0.0 && !h.isDead {
        assert c.AfterRestore(f, c.Capture()).isDead != f.isDead;
      }
    case StatsExperienceSavable(e) =>
      assert ToFloat(c.Capture()) == Some(e.value);
    case AttributesExperienceSavable(e) =>
      assert ToFloat(c.Capture()) == Some(e.value);
    case CinematicJsonSavable(t) =>
  }

  /** The schedulers the components' footprints depend on. */
  function Schedulers(components: seq<JsonSavable>): set<object>
  {
    set i | 0 <= i < |components| && components[i].HealthSavable? :: components[i].health.scheduler
  }

  function AllObjects(components: seq<JsonSavable>): set<object>
    reads Schedulers(components)
  {
    set i, o | 0 <= i < |components| && o in components[i].Objects() :: o
  }

  /** The objects whose fields the components record. */
  function AllStateObjects(components: seq<JsonSavable>): set<object>
  {
    set i, o | 0 <= i < |components| && o in components[i].StateObjects() :: o
  }

  /** Every Health's scheduler holds the action it held or none: restoring a
      Health at most cancels its scheduler's action. */
  twostate predicate SlotsKept(components: seq<JsonSavable>)
    reads Schedulers(components)
  {
    forall j :: 0 <= j < |components| && components[j].HealthSavable? ==>
      components[j].health.scheduler.current == old(components[j].health.scheduler.current) ||
      components[j].health.scheduler.current.None?
  }

  /** A scheduler in the components' footprint is one of their Healths'
      schedulers: the actions there are movers and fighters. */
  lemma SchedulerOf(components: seq<JsonSavable>, s: ActionScheduler)
    requires s in AllObjects(components)
    ensures exists j :: 0 <= j < |components| && components[j].HealthSavable? && components[j].health.scheduler == s
  {
    var j :| 0 <= j < |components| && s in components[j].Objects();
  }

  /** Objects that components record lie in another footprint only when that
      footprint's components record them too. */
  lemma StateApart(components: seq<JsonSavable>, others: seq<JsonSavable>)
    requires AllStateObjects(components) !! AllStateObjects(others)
    ensures AllStateObjects(others) !! AllObjects(components)
  {
    forall o | o in AllObjects(components)
      ensures o !in AllStateObjects(others)
    {
      var j :| 0 <= j < |components| && o in components[j].Objects();
      if o !in components[j].StateObjects() {
        ActionApart(components[j].health.scheduler.current.value, others);
      }
    }
  }

  /** An action's objects are movers and fighters, which no component
      records. */
  lemma ActionApart(a: Action, others: seq<JsonSavable>)
    ensures a.Objects() !! AllStateObjects(others)
  {
  }

  /** The components have pairwise distinct type names. Unity lets a game
      object hold several components of one type; a contract that needs this
      says so. */
  predicate DistinctTypes(components: seq<JsonSavable>)
  {
    forall i, j :: 0 <= i < j < |components| ==> components[i].TypeName() != components[j].TypeName()
  }

  /** No two components record the same object, so restoring one leaves the
      others' fields alone. Two components of one type are separate only when
      they sit on different objects (two Healths of one game object share its
      scheduler). */
  predicate Separate(components: seq<JsonSavable>)
  {
    forall i, j :: 0 <= i < |components| && 0 <= j < |components| && i != j ==>
      components[i].StateObjects() !! components[j].StateObjects()
  }

  /** Components of distinct types share no object. */
  lemma DistinctTypesSeparate(components: seq<JsonSavable>)
    requires DistinctTypes(components)
    ensures Separate(components)
  {
    forall i, j | 0 <= i < |components| && 0 <= j < |components| && i != j
      ensures components[i].StateObjects() !! components[j].StateObjects()
    {
      if i < j {
        assert components[i].TypeName() != components[j].TypeName();
      } else {
        assert components[j].TypeName() != components[i].TypeName();
      }
    }
  }

  /** The index of the last component named `name`, or -1 when there is none. */
  function LastOfType(components: seq<JsonSavable>, name: string): (k: int)
    ensures -1 <= k < |components|
    ensures k >= 0 ==> components[k].TypeName() == name
    ensures forall l :: 0 <= l < |components| && components[l].TypeName() == name ==> l <= k
  {
    if components == [] then -1
    else if components[|components| - 1].TypeName() == name then |components| - 1
    else
      var k := LastOfType(components[..|components| - 1], name);
      assert forall l :: 0 <= l < |components| - 1 ==> components[..|components| - 1][l] == components[l];
      k
  }

  /** What the last component named `name` captures. */
  function LastCapture(components: seq<JsonSavable>, name: string): JToken
    requires LastOfType(components, name) >= 0
    reads Owners(components)
  {
    var k := LastOfType(components, name);
    assert components[k].Owner() <= Owners(components);
    components[k].Capture()
  }

  /** With distinct type names a component is the last of its type. */
  lemma LastOfTypeDistinct(components: seq<JsonSavable>, i: nat)
    requires DistinctTypes(components) && i < |components|
    ensures LastOfType(components, components[i].TypeName()) == i
  {
    var k := LastOfType(components, components[i].TypeName());
    assert i <= k;
  }

  function TypeNames(components: seq<JsonSavable>): set<string>
  {
    set i | 0 <= i < |components| :: components[i].TypeName()
  }

  /** What capturing the components reads. */
  function Owners(components: seq<JsonSavable>): set<object>
  {
    set i, o | 0 <= i < |components| && o in components[i].Owner() :: o
  }

  /** The properties Capture fills, one component after the other; a later
      component of the same type name would overwrite an earlier one. */
  function CaptureMap(components: seq<JsonSavable>): map<string, JToken>
    reads Owners(components)
  {
    if components == [] then map[]
    else
      var last := components[|components| - 1];
      assert forall i :: 0 <= i < |components| - 1 ==> components[..|components| - 1][i] == components[i];
      CaptureMap(components[..|components| - 1])[last.TypeName() := last.Capture()]
  }

  /** With one component per type, the captured object has exactly one key per
      component, its type name, holding that component's token. */
  lemma CaptureMapContents(components: seq<JsonSavable>)
    requires DistinctTypes(components)
    ensures CaptureMap(components).Keys == TypeNames(components)
    ensures forall i :: 0 <= i < |components| ==>
              CaptureMap(components)[components[i].TypeName()] == components[i].Capture()
  {
    CaptureMapKeys(components);
    CaptureMapValues(components);
  }

  lemma {:induction false} CaptureMapKeys(components: seq<JsonSavable>)
    ensures CaptureMap(components).Keys == TypeNames(components)
  {
    if components != [] {
      var n := |components| - 1;
      var prefix := components[..n];
      CaptureMapKeys(prefix);
      assert CaptureMap(components) == CaptureMap(prefix)[components[n].TypeName() := components[n].Capture()];
      TypeNamesSnoc(components);
    }
  }

  /** The type names of a sequence are those of its prefix and of its last element. */
  lemma TypeNamesSnoc(components: seq<JsonSavable>)
    requires components != []
    ensures TypeNames(components) ==
            TypeNames(components[..|components| - 1]) + {components[|components| - 1].TypeName()}
  {
    var n := |components| - 1;
    var prefix := components[..n];
    forall s | s in TypeNames(components) ensures s in TypeNames(prefix) + {components[n].TypeName()} {
      var i :| 0 <= i < |components| && components[i].TypeName() == s;
      if i < n {
        assert prefix[i] == components[i];
      }
    }
    forall s | s in TypeNames(prefix) ensures s in TypeNames(components) {
      var i :| 0 <= i < |prefix| && prefix[i].TypeName() == s;
      assert prefix[i] == components[i];
    }
  }

  /** Every component's type name is a property holding the token of the
      last component of that type: a later capture overwrites an earlier one. */
  lemma CaptureMapLast(components: seq<JsonSavable>)
    ensures forall name :: name in CaptureMap(components) ==>
              LastOfType(components, name) >= 0 && CaptureMap(components)[name] == LastCapture(components, name)
  {
    CaptureMapKeys(components);
    forall name | name in CaptureMap(components)
      ensures LastOfType(components, name) >= 0
      ensures CaptureMap(components)[name] == LastCapture(components, name)
    {
      var i :| 0 <= i < |components| && components[i].TypeName() == name;
      CaptureMapLastOf(components, name);
    }
  }

  /** A name some component carries is a key holding the last such
      component's capture. */
  lemma {:induction false} CaptureMapLastOf(components: seq<JsonSavable>, name: string)
    requires LastOfType(components, name) >= 0
    ensures name in CaptureMap(components)
    ensures CaptureMap(components)[name] == LastCapture(components, name)
  {
    var n := |components| - 1;
    var prefix := components[..n];
    assert CaptureMap(components) == CaptureMap(prefix)[components[n].TypeName() := components[n].Capture()];
    if name != components[n].TypeName() {
      var k := LastOfType(prefix, name);
      assert LastOfType(components, name) == k;
      CaptureMapLastOf(prefix, name);
      assert prefix[k] == components[k];
      assert LastCapture(prefix, name) == LastCapture(components, name);
    }
  }

  lemma CaptureMapValues(components: seq<JsonSavable>)
    requires DistinctTypes(components)
    ensures forall i :: 0 <= i < |components| ==>
              components[i].TypeName() in CaptureMap(components) &&
              CaptureMap(components)[components[i].TypeName()] == components[i].Capture()
  {
    forall i | 0 <= i < |components|
      ensures components[i].TypeName() in CaptureMap(components)
      ensures CaptureMap(components)[components[i].TypeName()] == components[i].Capture()
    {
      LastOfTypeDistinct(components, i);
      CaptureMapLastOf(components, components[i].TypeName());
    }
  }

  /** The static GlobalLookup of JsonSavableEntity. */
  class JsonSavableLookup {
    var entries: map<string, JsonSavableEntity>

    constructor ()
      ensures entries == map[]
    {
      entries := map[];
    }
  }

  class JsonSavableEntity {
    var uniqueIdentifier: string
    const name: string
    /** Unity's destroyed-object null. */
    var destroyed: bool
    const components: seq<JsonSavable>

    constructor (name: string, uniqueIdentifier: string, components: seq<JsonSavable>)
      ensures this.name == name && this.uniqueIdentifier == uniqueIdentifier
      ensures this.components == components && !destroyed
    {
      this.name := name;
      this.uniqueIdentifier := uniqueIdentifier;
      this.components := components;
      destroyed := false;
    }

    function Objects(): set<object>
      reads Schedulers(components)
    {
      AllObjects(components)
    }

    /** Capture: a JObject from each component's type name to its token; of
        several components of one type the last one's token is kept. The
        source calls CaptureAsJToken twice per component, logging the first
        token; the call changes nothing, so both tokens are the same and the
        one stored is this one. */
    method Capture() returns (state: JToken)
      ensures state == JObject(CaptureMap(components))
      ensures state.properties.Keys == TypeNames(components)
      ensures forall name :: name in state.properties ==>
                LastOfType(components, name) >= 0 && state.properties[name] == LastCapture(components, name)
      ensures DistinctTypes(components) ==>
                forall i :: 0 <= i < |components| ==>
                  state.properties[components[i].TypeName()] == components[i].Capture()
    {
      var properties: map<string, JToken> := map[];
      var i := 0;
      while i < |components|
        invariant 0 <= i <= |components|
        invariant properties == CaptureMap(components[..i])
      {
        assert components[..i + 1][..i] == components[..i];
        properties := properties[components[i].TypeName() := components[i].Capture()];
        i := i + 1;
      }
      assert components[..i] == components;
      CaptureMapKeys(components);
      CaptureMapLast(components);
      if DistinctTypes(components) {
        CaptureMapValues(components);
      }
      state := JObject(properties);
    }

    /** Restore does not throw: the state is an object whose entries the
        components accept, or a JSON null (which converts to a null dictionary)
        when there is no component to look it up. */
    predicate Accepts(state: JToken)
    {
      (state.JNull? && components == []) ||
      (state.JObject? &&
       forall i :: 0 <= i < |components| && components[i].TypeName() in state.properties ==>
                   components[i].Accepts(state.properties[components[i].TypeName()]))
    }

    /** The fields component `c` has after the entity is restored from
        `state`, given its fields `before`: restored from its own property when
        the object has one, untouched otherwise. */
    ghost function ComponentAfter(c: JsonSavable, before: JsonFields, state: JToken): JsonFields
    {
      if state.JObject? && c.TypeName() in state.properties then c.AfterRestore(before, state.properties[c.TypeName()])
      else before
    }

    /** Restore: `ToObject<JObject>()` throws on anything but an object or a
        JSON null, and a null dictionary throws at the first lookup; then each
        component whose type name is a key is restored from that property with
        the given version (components of one type from the same property, one
        after the other), and the others are skipped. A throw is `ok` false.
        The fields are stated when no two components share an object. */
    method Restore(state: JToken, version: int) returns (ok: bool)
      modifies Objects()
      ensures ok <==> Accepts(state)
      ensures (ok && Separate(components)) || !state.JObject? ==>
                forall j :: 0 <= j < |components| ==>
                  components[j].Fields() == ComponentAfter(components[j], old(components[j].Fields()), state)
      ensures forall j :: 0 <= j < |components| ==> components[j].Objects() <= old(components[j].Objects())
      ensures SlotsKept(components)
    {
      if !state.JObject? {
        return state.JNull? && components == [];
      }
      var i := 0;
      while i < |components|
        invariant 0 <= i <= |components|
        invariant forall j :: 0 <= j < i && components[j].TypeName() in state.properties ==>
                    components[j].Accepts(state.properties[components[j].TypeName()])
        invariant forall j :: 0 <= j < |components| && components[j].HealthSavable? ==>
                    components[j].health.scheduler.current == old(components[j].health.scheduler.current) ||
                    components[j].health.scheduler.current.None?
        invariant Separate(components) ==>
                    forall j :: 0 <= j < i ==>
                      components[j].Fields() == ComponentAfter(components[j], old(components[j].Fields()), state)
        invariant Separate(components) ==>
                    forall j :: i <= j < |components| ==> components[j].Fields() == old(components[j].Fields())
      {
        FootprintShrinks(components[i]);
        assert components[i].Objects() <= old(Objects());
        var restored := RestoreOne(i, state, version);
        if !restored {
          forall j | 0 <= j < |components|
            ensures components[j].Objects() <= old(components[j].Objects())
          {
            FootprintShrinks(components[j]);
          }
          return false;
        }
        i := i + 1;
      }
      forall j | 0 <= j < |components|
        ensures components[j].Objects() <= old(components[j].Objects())
      {
        FootprintShrinks(components[j]);
      }
      return true;
    }

    /** Component `i`'s step of Restore, seen from the whole entity: the
        schedulers' slots are kept or emptied, and when the components are
        separate no other component's fields change. */
    method RestoreOne(i: nat, state: JToken, version: int) returns (ok: bool)
      requires i < |components| && state.JObject?
      modifies components[i].Objects()
      ensures ok <==> components[i].TypeName() !in state.properties ||
                      components[i].Accepts(state.properties[components[i].TypeName()])
      ensures ok ==> components[i].Fields() == ComponentAfter(components[i], old(components[i].Fields()), state)
      ensures forall j :: 0 <= j < |components| && components[j].HealthSavable? ==>
                components[j].health.scheduler.current == old(components[j].health.scheduler.current) ||
                components[j].health.scheduler.current.None?
      ensures Separate(components) ==>
                forall j :: 0 <= j < |components| && j != i ==> components[j].Fields() == old(components[j].Fields())
    {
      var c := components[i];
      ok := RestoreComponent(c, state, version);
      forall j | 0 <= j < |components| && components[j].HealthSavable?
        ensures components[j].health.scheduler.current == old(components[j].health.scheduler.current) ||
                components[j].health.scheduler.current.None?
      {
        var s := components[j].health.scheduler;
        if !(c.HealthSavable? && c.health.scheduler == s) {
          assert s !in old(c.Objects());
        }
      }
      if Separate(components) {
        forall j | 0 <= j < |components| && j != i
          ensures components[j].Fields() == old(components[j].Fields())
        {
          assert components[j].StateObjects() !! c.StateObjects();
          assert unchanged(components[j].StateObjects());
        }
      }
    }

    /** A component's footprint while its scheduler's slot is the one it had
        or empty lies within its footprint before. */
    twostate lemma FootprintShrinks(c: JsonSavable)
      requires c.HealthSavable? ==> c.health.scheduler.current == old(c.health.scheduler.current) ||
                                    c.health.scheduler.current.None?
      ensures c.Objects() <= old(c.Objects())
    {
    }

    /** A state this entity captured is accepted back, and every component is
        restored from the capture of the last component of its type: its own
        capture when the types are distinct. */
    lemma RestoreCaptured()
      ensures Accepts(JObject(CaptureMap(components)))
      ensures forall j :: 0 <= j < |components| ==>
                ComponentAfter(components[j], components[j].Fields(), JObject(CaptureMap(components))) ==
                components[j].AfterRestore(components[j].Fields(),
                                           LastCapture(components, components[j].TypeName()))
      ensures DistinctTypes(components) ==>
                forall j :: 0 <= j < |components| ==>
                  ComponentAfter(components[j], components[j].Fields(), JObject(CaptureMap(components))) ==
                  components[j].AfterRestore(components[j].Fields(), components[j].Capture())
    {
      forall j | 0 <= j < |components|
        ensures components[j].TypeName() in CaptureMap(components)
        ensures CaptureMap(components)[components[j].TypeName()] == LastCapture(components, components[j].TypeName())
        ensures components[j].Accepts(CaptureMap(components)[components[j].TypeName()])
      {
        var k := LastOfType(components, components[j].TypeName());
        assert j <= k && components[k].TypeName() == components[j].TypeName();
        CaptureMapLastOf(components, components[j].TypeName());
        RestoreOwnCapture(components[k]);
        assert components[j].CinematicJsonSavable? <==> components[k].CinematicJsonSavable?;
      }
      if DistinctTypes(components) {
        forall j | 0 <= j < |components|
          ensures LastCapture(components, components[j].TypeName()) == components[j].Capture()
        {
          LastOfTypeDistinct(components, j);
        }
      }
    }

    /** One iteration of Restore's loop: a missing key is skipped. The
        property's token is never a C# null, since a JObject stores null as a
        JSON null. */
    method RestoreComponent(c: JsonSavable, state: JToken, version: int) returns (ok: bool)
      requires state.JObject?
      modifies c.Objects()
      ensures ok <==> c.TypeName() !in state.properties || c.Accepts(state.properties[c.TypeName()])
      ensures ok ==> c.Fields() == ComponentAfter(c, old(c.Fields()), state)
      ensures c.HealthSavable? ==> c.health.scheduler.current == old(c.health.scheduler.current) ||
                                   c.health.scheduler.current.None?
    {
      var key := c.TypeName();
      if key !in state.properties {
        return true;
      }
      var token := state.properties[key];
      match c
      case HealthSavable(h) =>
        ok := h.RestoreFromJToken(Some(token), version);
      case StatsExperienceSavable(e) =>
        ok := e.RestoreFromJToken(Some(token), version);
      case AttributesExperienceSavable(e) =>
        ok := e.RestoreFromJToken(Some(token), version);
      case CinematicJsonSavable(t) =>
        t.RestoreFromJToken(Some(token), version);
        ok := true;
    }

    /** The holder of `candidate` in the lookup, as IsUnique sees it. */
    function HolderOf(lookup: JsonSavableLookup, candidate: string): Holder
      reads lookup, if candidate in lookup.entries then {lookup.entries[candidate]} else {}
    {
      if candidate !in lookup.entries then Unregistered
      else if lookup.entries[candidate] == this then Itself
      else if lookup.entries[candidate].destroyed then Destroyed
      else Another(lookup.entries[candidate].uniqueIdentifier)
    }

    /** IsUnique: the verdict of Decide, with the candidate's entry removed when
        Decide releases it. */
    method IsUnique(lookup: JsonSavableLookup, candidate: string) returns (unique: bool)
      modifies lookup
      ensures unique == Decide(candidate, old(HolderOf(lookup, candidate))).unique
      ensures lookup.entries ==
              AfterDecision(old(lookup.entries), candidate, Decide(candidate, old(HolderOf(lookup, candidate))))
    {
      if IsBlank(candidate) {
        return false;
      }
      if candidate !in lookup.entries {
        return true;
      }
      if lookup.entries[candidate] == this {
        return true;
      }
      if lookup.entries[candidate].destroyed {
        lookup.entries := lookup.entries - {candidate};
        return true;
      }
      if lookup.entries[candidate].uniqueIdentifier == candidate {
        return false;
      }
      lookup.entries := lookup.entries - {candidate};
      return true;
    }

    /** The edit-mode Update: nothing while playing or outside a saved scene;
        otherwise a blank or taken id is replaced by `name-guid`, and the lookup
        then maps the (non-blank) id to this entity. */
    method Update(lookup: JsonSavableLookup, isPlaying: bool, scenePath: string, guid: string)
      modifies this, lookup
      ensures isPlaying || IsBlank(scenePath) ==> unchanged(this, lookup)
      ensures !isPlaying && !IsBlank(scenePath) ==>
                var holder := old(HolderOf(lookup, uniqueIdentifier));
                var v := Decide(old(uniqueIdentifier), holder);
                uniqueIdentifier == ChosenId(old(uniqueIdentifier), holder, name, guid) &&
                !IsBlank(uniqueIdentifier) &&
                lookup.entries == AfterDecision(old(lookup.entries), old(uniqueIdentifier), v)[uniqueIdentifier := this] &&
                lookup.entries[uniqueIdentifier] == this && destroyed == old(destroyed)
    {
      if isPlaying || IsBlank(scenePath) {
        return;
      }
      var unique := false;
      if !IsBlank(uniqueIdentifier) {
        unique := IsUnique(lookup, uniqueIdentifier);
      }
      if !unique {
        uniqueIdentifier := FreshId(name, guid);
      }
      lookup.entries := lookup.entries[uniqueIdentifier := this];
    }
  }
}
