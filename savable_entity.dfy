/** SavableEntity (Assets/Scripts/Saving/SavableEntity.cs): the binary save
    pipeline's per-game-object record. It captures every savable component under
    its type name and keeps a unique id, registered in a static lookup. The
    components with CaptureState/RestoreState are Mover and CinematicTrigger. */
module SavableEntities {
  import opened Common
  import opened Serialization
  import opened Characters
  import opened Cinematics
  import opened EntityIds

  /** A snapshot of a component's mutable fields. */
  datatype Fields =
    | MoverFields(navAgent: Option<NavAgent>, position: Vector3)
    | CinematicFields(triggered: bool, playing: bool, time: real, plays: nat)

  /** One savable component. */
  datatype Savable = MoverSavable(mover: Mover) | CinematicSavable(trigger: CinematicTrigger)
  {
    /** `savable.GetType().ToString()`: the full type name. */
    function TypeName(): string
    {
      match this
      case MoverSavable(_) => "RPG.Movement.Mover"
      case CinematicSavable(_) => "RPGEngine.Cinematics.CinematicTrigger"
    }

    /** What capturing reads and restoring may change. */
    function Objects(): set<object>
    {
      match this
      case MoverSavable(m) => {m, m.transform}
      case CinematicSavable(t) => {t, t.director}
    }

    /** The values of the fields in Objects() that restoring can change. */
    ghost function Fields(): Fields
      reads Objects()
    {
      match this
      case MoverSavable(m) => MoverFields(m.navAgent, m.transform.position)
      case CinematicSavable(t) =>
        CinematicFields(t.triggered, t.director.playing, t.director.time, t.director.plays)
    }

    function Capture(): SaveObject
      reads Objects()
    {
      match this
      case MoverSavable(m) => m.CaptureState()
      case CinematicSavable(t) => t.CaptureState()
    }

    /** The component's RestoreState does not throw on `state`. */
    predicate Accepts(state: SaveObject)
    {
      CinematicSavable? ==> state.SBool?
    }

    /** The fields the component's RestoreState leaves, from the fields
        `before` and an accepted `state`: a Mover moves to a saved vector and
        re-enables its agent (anything else is ignored); a CinematicTrigger
        takes the saved flag and, when it is set, plays the timeline once and
        moves it to its end. */
    ghost function AfterRestore(before: Fields, state: SaveObject): Fields
    {
      match (this, before)
      case (MoverSavable(_), MoverFields(agent, _)) =>
        if state.SVector? then
          MoverFields(if agent.Some? then Some(agent.value.(enabled := true)) else None, ToVector(state.v))
        else before
      case (CinematicSavable(t), CinematicFields(_, playing, time, plays)) =>
        if state.SBool? && state.b then CinematicFields(true, true, t.director.duration, plays + 1)
        else if state.SBool? then CinematicFields(false, playing, time, plays)
        else before
      case _ => before
    }
  }

  /** Restoring a component from its own capture gives back its fields exactly
      when a Mover's agent is missing or already enabled, or a
      CinematicTrigger has not fired: restoring a fired trigger plays its
      timeline once more. */
  lemma RestoreOwnCapture(c: Savable)
    ensures c.AfterRestore(c.Fields(), c.Capture()) == c.Fields() <==>
            match c
            case MoverSavable(m) => m.navAgent.None? || m.navAgent.value.enabled
            case CinematicSavable(t) => !t.triggered
  {
    match c
    case MoverSavable(m) =>
      RoundTrip(m.transform.position, m.transform.position);
      if m.navAgent.Some? && !m.navAgent.value.enabled {
        assert m.navAgent.value.(enabled := true) != m.navAgent.value;
      }
    case CinematicSavable(t) =>
  }

  function AllObjects(components: seq<Savable>): set<object>
  {
    set i, o | 0 <= i < |components| && o in components[i].Objects() :: o
  }

  /** The components have pairwise distinct type names. Unity lets a game
      object hold several components of one type; a contract that needs this
      says so. */
  predicate DistinctTypes(components: seq<Savable>)
  {
    forall i, j :: 0 <= i < j < |components| ==> components[i].TypeName() != components[j].TypeName()
  }

  /** No two components share an object, so restoring one leaves the others
      alone. Two components of one type are separate only when they sit on
      different objects (two Movers of one game object share its transform). */
  predicate Separate(components: seq<Savable>)
  {
    forall i, j :: 0 <= i < |components| && 0 <= j < |components| && i != j ==>
      components[i].Objects() !! components[j].Objects()
  }

  /** Components of distinct types share no object. */
  lemma DistinctTypesSeparate(components: seq<Savable>)
    requires DistinctTypes(components)
    ensures Separate(components)
  {
    forall i, j | 0 <= i < |components| && 0 <= j < |components| && i != j
      ensures components[i].Objects() !! components[j].Objects()
    {
      if i < j {
        assert components[i].TypeName() != components[j].TypeName();
      } else {
        assert components[j].TypeName() != components[i].TypeName();
      }
    }
  }

  /** The index of the last component named `name`, or -1 when there is none. */
  function LastOfType(components: seq<Savable>, name: string): (k: int)
    ensures -1 <= k < |components|
    ensures k >= 0 ==> components[k].TypeName() == name
    ensures forall l :: 0 <= l < |components| && components[l].TypeName() == name ==> l <= k
  {
    if components == [] then -1
    else if components[|components| - 1].TypeName() == name then |components| - 1
    else
      var k := LastOfType(components[..|components| - 1], name);
      assert forall l :: 0 <= l < |components| - 1 ==> components[..|components| - 1][l] == components[l];
      k
  }

  /** What the last component named `name` captures. */
  function LastCapture(components: seq<Savable>, name: string): SaveObject
    requires LastOfType(components, name) >= 0
    reads AllObjects(components)
  {
    var k := LastOfType(components, name);
    assert components[k].Objects() <= AllObjects(components);
    components[k].Capture()
  }

  /** With distinct type names a component is the last of its type. */
  lemma LastOfTypeDistinct(components: seq<Savable>, i: nat)
    requires DistinctTypes(components) && i < |components|
    ensures LastOfType(components, components[i].TypeName()) == i
  {
    var k := LastOfType(components, components[i].TypeName());
    assert i <= k;
  }

  function TypeNames(components: seq<Savable>): set<string>
  {
    set i | 0 <= i < |components| :: components[i].TypeName()
  }

  /** The dictionary CaptureState fills, one component after the other; a
      later component of the same type name would overwrite an earlier one. */
  function CaptureMap(components: seq<Savable>): map<string, SaveObject>
    reads AllObjects(components)
  {
    if components == [] then map[]
    else
      var last := components[|components| - 1];
      assert forall i :: 0 <= i < |components| - 1 ==> components[..|components| - 1][i] == components[i];
      CaptureMap(components[..|components| - 1])[last.TypeName() := last.Capture()]
  }

  /** With one component per type, the captured dictionary has exactly one key
      per component, its type name, holding that component's state. */
  lemma CaptureMapContents(components: seq<Savable>)
    requires DistinctTypes(components)
    ensures CaptureMap(components).Keys == TypeNames(components)
    ensures forall i :: 0 <= i < |components| ==>
              CaptureMap(components)[components[i].TypeName()] == components[i].Capture()
  {
    CaptureMapKeys(components);
    CaptureMapValues(components);
  }

  lemma {:induction false} CaptureMapKeys(components: seq<Savable>)
    ensures CaptureMap(components).Keys == TypeNames(components)
  {
    if components != [] {
      var n := |components| - 1;
      var prefix := components[..n];
      CaptureMapKeys(prefix);
      assert CaptureMap(components) == CaptureMap(prefix)[components[n].TypeName() := components[n].Capture()];
      TypeNamesSnoc(components);
    }
  }

  /** The type names of a sequence are those of its prefix and of its last element. */
  lemma TypeNamesSnoc(components: seq<Savable>)
    requires components != []
    ensures TypeNames(components) ==
            TypeNames(components[..|components| - 1]) + {components[|components| - 1].TypeName()}
  {
    var n := |components| - 1;
    var prefix := components[..n];
    forall s | s in TypeNames(components) ensures s in TypeNames(prefix) + {components[n].TypeName()} {
      var i :| 0 <= i < |components| && components[i].TypeName() == s;
      if i < n {
        assert prefix[i] == components[i];
      }
    }
    forall s | s in TypeNames(prefix) ensures s in TypeNames(components) {
      var i :| 0 <= i < |prefix| && prefix[i].TypeName() == s;
      assert prefix[i] == components[i];
    }
  }

  /** Every component's type name is a key holding the state of the last
      component of that type: a later capture overwrites an earlier one. */
  lemma CaptureMapLast(components: seq<Savable>)
    ensures forall name :: name in CaptureMap(components) ==>
              LastOfType(components, name) >= 0 && CaptureMap(components)[name] == LastCapture(components, name)
  {
    CaptureMapKeys(components);
    forall name | name in CaptureMap(components)
      ensures LastOfType(components, name) >= 0
      ensures CaptureMap(components)[name] == LastCapture(components, name)
    {
      var i :| 0 <= i < |components| && components[i].TypeName() == name;
      CaptureMapLastOf(components, name);
    }
  }

  /** A name some component carries is a key holding the last such
      component's capture. */
  lemma {:induction false} CaptureMapLastOf(components: seq<Savable>, name: string)
    requires LastOfType(components, name) >= 0
    ensures name in CaptureMap(components)
    ensures CaptureMap(components)[name] == LastCapture(components, name)
  {
    var n := |components| - 1;
    var prefix := components[..n];
    assert CaptureMap(components) == CaptureMap(prefix)[components[n].TypeName() := components[n].Capture()];
    if name != components[n].TypeName() {
      var k := LastOfType(prefix, name);
      assert LastOfType(components, name) == k;
      CaptureMapLastOf(prefix, name);
      assert prefix[k] == components[k];
      assert LastCapture(prefix, name) == LastCapture(components, name);
    }
  }

  lemma CaptureMapValues(components: seq<Savable>)
    requires DistinctTypes(components)
    ensures forall i :: 0 <= i < |components| ==>
              components[i].TypeName() in CaptureMap(components) &&
              CaptureMap(components)[components[i].TypeName()] == components[i].Capture()
  {
    forall i | 0 <= i < |components|
      ensures components[i].TypeName() in CaptureMap(components)
      ensures CaptureMap(components)[components[i].TypeName()] == components[i].Capture()
    {
      LastOfTypeDistinct(components, i);
      CaptureMapLastOf(components, components[i].TypeName());
    }
  }

  /** The static GlobalLookup of SavableEntity. */
  class SavableLookup {
    var entries: map<string, SavableEntity>

    constructor ()
      ensures entries == map[]
    {
      entries := map[];
    }
  }

  class SavableEntity {
    var uniqueIdentifier: string
    const name: string
    /** Unity's destroyed-object null. */
    var destroyed: bool
    const components: seq<Savable>

    constructor (name: string, uniqueIdentifier: string, components: seq<Savable>)
      ensures this.name == name && this.uniqueIdentifier == uniqueIdentifier
      ensures this.components == components && !destroyed
    {
      this.name := name;
      this.uniqueIdentifier := uniqueIdentifier;
      this.components := components;
      destroyed := false;
    }

    function Objects(): set<object>
    {
      AllObjects(components)
    }

    /** CaptureState: a dictionary from each component's type name to its
        state; of several components of one type the last one's state is kept. */
    method CaptureState() returns (state: SaveObject)
      ensures state == SDictionary(CaptureMap(components))
      ensures state.entries.Keys == TypeNames(components)
      ensures forall name :: name in state.entries ==>
                LastOfType(components, name) >= 0 && state.entries[name] == LastCapture(components, name)
      ensures DistinctTypes(components) ==>
                forall i :: 0 <= i < |components| ==>
                  state.entries[components[i].TypeName()] == components[i].Capture()
    {
      var entries: map<string, SaveObject> := map[];
      var i := 0;
      while i < |components|
        invariant 0 <= i <= |components|
        invariant entries == CaptureMap(components[..i])
      {
        assert components[..i + 1][..i] == components[..i];
        entries := entries[components[i].TypeName() := components[i].Capture()];
        i := i + 1;
      }
      assert components[..i] == components;
      CaptureMapKeys(components);
      CaptureMapLast(components);
      if DistinctTypes(components) {
        CaptureMapValues(components);
      }
      state := SDictionary(entries);
    }

    /** RestoreState does not throw: the state is a dictionary (unless there is
        nothing to restore) and every component whose type name it holds
        accepts its entry. */
    predicate Accepts(state: SaveObject)
    {
      components == [] ||
      (state.SDictionary? &&
       forall i :: 0 <= i < |components| && components[i].TypeName() in state.entries ==>
                   components[i].Accepts(state.entries[components[i].TypeName()]))
    }

    /** The fields component `c` has after the entity is restored from
        `state`, given its fields `before`: restored from its own entry when
        the dictionary has one, untouched otherwise. */
    ghost function ComponentAfter(c: Savable, before: Fields, state: SaveObject): Fields
    {
      if state.SDictionary? && c.TypeName() in state.entries then c.AfterRestore(before, state.entries[c.TypeName()])
      else before
    }

    /** RestoreState: each component whose type name is a key is restored from
        its entry (components of one type from the same entry, one after the
        other); the others are left alone. The `(Dictionary)` cast and a
        component's own cast throw (`ok` false). The fields are stated when no
        two components share an object. */
    method RestoreState(state: SaveObject, version: int) returns (ok: bool)
      modifies Objects()
      ensures ok <==> Accepts(state)
      ensures ok && Separate(components) ==>
                forall j :: 0 <= j < |components| ==>
                  components[j].Fields() == ComponentAfter(components[j], old(components[j].Fields()), state)
      ensures !state.SDictionary? ==> unchanged(Objects())
    {
      var i := 0;
      while i < |components|
        invariant 0 <= i <= |components|
        invariant 0 < i ==> state.SDictionary?
        invariant forall j :: 0 <= j < i && state.SDictionary? && components[j].TypeName() in state.entries ==>
                    components[j].Accepts(state.entries[components[j].TypeName()])
        invariant Separate(components) ==>
                    forall j :: 0 <= j < i ==>
                      components[j].Fields() == ComponentAfter(components[j], old(components[j].Fields()), state)
        invariant Separate(components) ==>
                    forall j :: i <= j < |components| ==> components[j].Fields() == old(components[j].Fields())
        invariant i == 0 ==> unchanged(Objects())
      {
        if !state.SDictionary? {
          return false;
        }
        var c := components[i];
        assert c.Objects() <= Objects();
        label Step:
        var restored := RestoreComponent(c, state, version);
        if !restored {
          return false;
        }
        if Separate(components) {
          forall j | 0 <= j < |components| && j != i
            ensures components[j].Fields() == old@Step(components[j].Fields())
          {
            assert components[j].Objects() !! c.Objects();
            match components[j]
            case MoverSavable(m) => assert m !in c.Objects() && m.transform !in c.Objects();
            case CinematicSavable(t) => assert t !in c.Objects() && t.director !in c.Objects();
          }
        }
        i := i + 1;
      }
      return true;
    }

    /** A state this entity captured is accepted back, and every component is
        restored from the capture of the last component of its type: its own
        capture when the types are distinct. */
    lemma RestoreCaptured()
      ensures Accepts(SDictionary(CaptureMap(components)))
      ensures forall j :: 0 <= j < |components| ==>
                ComponentAfter(components[j], components[j].Fields(), SDictionary(CaptureMap(components))) ==
                components[j].AfterRestore(components[j].Fields(),
                                           LastCapture(components, components[j].TypeName()))
      ensures DistinctTypes(components) ==>
                forall j :: 0 <= j < |components| ==>
                  ComponentAfter(components[j], components[j].Fields(), SDictionary(CaptureMap(components))) ==
                  components[j].AfterRestore(components[j].Fields(), components[j].Capture())
    {
      forall j | 0 <= j < |components|
        ensures components[j].TypeName() in CaptureMap(components)
        ensures CaptureMap(components)[components[j].TypeName()] == LastCapture(components, components[j].TypeName())
        ensures components[j].Accepts(CaptureMap(components)[components[j].TypeName()])
      {
        var k := LastOfType(components, components[j].TypeName());
        assert j <= k && components[k].TypeName() == components[j].TypeName();
        CaptureMapLastOf(components, components[j].TypeName());
        assert components[j].CinematicSavable? <==> components[k].CinematicSavable?;
      }
      if DistinctTypes(components) {
        forall j | 0 <= j < |components|
          ensures LastCapture(components, components[j].TypeName()) == components[j].Capture()
        {
          LastOfTypeDistinct(components, j);
        }
      }
    }

    /** One iteration of RestoreState's loop. */
    method RestoreComponent(c: Savable, state: SaveObject, version: int) returns (ok: bool)
      requires state.SDictionary?
      modifies c.Objects()
      ensures ok <==> c.TypeName() !in state.entries || c.Accepts(state.entries[c.TypeName()])
      ensures ok ==> c.Fields() == ComponentAfter(c, old(c.Fields()), state)
    {
      var key := c.TypeName();
      if key !in state.entries {
        return true;
      }
      match c
      case MoverSavable(m) =>
        m.RestoreState(state.entries[key]);
        ok := true;
      case CinematicSavable(t) =>
        ok := t.RestoreState(state.entries[key], version);
    }

    /** The holder of `candidate` in the lookup, as IsUnique sees it. */
    function HolderOf(lookup: SavableLookup, candidate: string): Holder
      reads lookup, if candidate in lookup.entries then {lookup.entries[candidate]} else {}
    {
      if candidate !in lookup.entries then Unregistered
      else if lookup.entries[candidate] == this then Itself
      else if lookup.entries[candidate].destroyed then Destroyed
      else Another(lookup.entries[candidate].uniqueIdentifier)
    }

    /** IsUnique: the verdict of Decide, with the candidate's entry removed when
        Decide releases it. */
    method IsUnique(lookup: SavableLookup, candidate: string) returns (unique: bool)
      modifies lookup
      ensures unique == Decide(candidate, old(HolderOf(lookup, candidate))).unique
      ensures lookup.entries ==
              AfterDecision(old(lookup.entries), candidate, Decide(candidate, old(HolderOf(lookup, candidate))))
    {
      if IsBlank(candidate) {
        return false;
      }
      if candidate !in lookup.entries {
        return true;
      }
      if lookup.entries[candidate] == this {
        return true;
      }
      if lookup.entries[candidate].destroyed {
        lookup.entries := lookup.entries - {candidate};
        return true;
      }
      if lookup.entries[candidate].uniqueIdentifier == candidate {
        return false;
      }
      lookup.entries := lookup.entries - {candidate};
      return true;
    }

    /** The edit-mode Update: nothing while playing or outside a saved scene;
        otherwise a blank or taken id is replaced by `name-guid`, and the lookup
        then maps the (non-blank) id to this entity. */
    method Update(lookup: SavableLookup, isPlaying: bool, scenePath: string, guid: string)
      modifies this, lookup
      ensures isPlaying || IsBlank(scenePath) ==> unchanged(this, lookup)
      ensures !isPlaying && !IsBlank(scenePath) ==>
                var holder := old(HolderOf(lookup, uniqueIdentifier));
                var v := Decide(old(uniqueIdentifier), holder);
                uniqueIdentifier == ChosenId(old(uniqueIdentifier), holder, name, guid) &&
                !IsBlank(uniqueIdentifier) &&
                lookup.entries == AfterDecision(old(lookup.entries), old(uniqueIdentifier), v)[uniqueIdentifier := this] &&
                lookup.entries[uniqueIdentifier] == this && destroyed == old(destroyed)
    {
      if isPlaying || IsBlank(scenePath) {
        return;
      }
      var unique := false;
      if !IsBlank(uniqueIdentifier) {
        unique := IsUnique(lookup, uniqueIdentifier);
      }
      if !unique {
        uniqueIdentifier := FreshId(name, guid);
      }
      lookup.entries := lookup.entries[uniqueIdentifier := this];
    }
  }
}
