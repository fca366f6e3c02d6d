/** SavingSystem (Assets/Scripts/Saving/SavingSystem.cs): the binary save
    pipeline's front end. A save file holds one dictionary: the file version,
    the last scene's build index, and one entry per SavableEntity id. Saving
    merges the captured scene into what the file already holds; loading
    restores every entity whose id the file knows.

    The file system is the `files` map from path to the dictionary the
    BinaryFormatter wrote there; the scene's entities, its build index and the
    version constants are parameters. */
module SavingSystems {
  import opened Common
  import opened Serialization
  import opened SavableEntities
  import opened SaveFiles

  type Dict = map<string, SaveObject>

  const Extension: string := ".sav"
  const SaveFolder: string := "GameData"

  /** GetPath: `saveFile + ".sav"` in the GameData folder of the data path. */
  function GetPath(dataPath: string, saveFile: string): string
  {
    SavePath(Combine(dataPath, SaveFolder), saveFile, Extension)
  }

  /** The `(int)` unboxing cast, as a function value. */
  const Cast: SaveObject -> Option<int> := AsInt

  /** The entity objects' footprints: what restoring may change. */
  function EntityObjects(entities: seq<SavableEntity>): set<object>
  {
    set k, o | 0 <= k < |entities| && o in entities[k].Objects() :: o
  }

  /** No two entities share a component object. Two entities on one game
      object share its components, so this holds only when every entity
      sits on a game object of its own. */
  predicate Disjoint(entities: seq<SavableEntity>)
  {
    forall k, l :: 0 <= k < |entities| && 0 <= l < |entities| && k != l ==>
      entities[k].Objects() !! entities[l].Objects()
  }

  /** The entities' ids, in order. */
  function IdsOf(entities: seq<SavableEntity>): (ids: seq<string>)
    reads entities
    ensures |ids| == |entities|
  {
    seq(|entities|, k requires 0 <= k < |entities| reads entities => entities[k].uniqueIdentifier)
  }

  /** The entities' captured states, in order. */
  function CapturesOf(entities: seq<SavableEntity>): (captures: seq<SaveObject>)
    reads EntityObjects(entities)
    ensures |captures| == |entities|
  {
    seq(|entities|, k requires 0 <= k < |entities| reads EntityObjects(entities) =>
      assert entities[k].Objects() <= EntityObjects(entities);
      SDictionary(CaptureMap(entities[k].components)))
  }

  /** The fields of every component of an entity, in order. */
  ghost function Snapshot(e: SavableEntity): (s: seq<Fields>)
    reads e.Objects()
    ensures |s| == |e.components|
  {
    seq(|e.components|, j requires 0 <= j < |e.components| reads e.Objects() =>
      assert e.components[j].Objects() <= e.Objects();
      e.components[j].Fields())
  }

  /** The snapshot of `e` after it is restored from `entry`, given the
      snapshot `before`. */
  ghost function SnapshotAfter(e: SavableEntity, before: seq<Fields>, entry: SaveObject): seq<Fields>
  {
    seq(|before|, j requires 0 <= j < |before| =>
      if j < |e.components| then e.ComponentAfter(e.components[j], before[j], entry) else before[j])
  }

  /** The snapshot entity `e` is left with by a successful RestoreState. */
  ghost function Expected(state: Dict, e: SavableEntity, before: seq<Fields>): seq<Fields>
    reads e
  {
    if Selected(state, e.uniqueIdentifier) then SnapshotAfter(e, before, state[e.uniqueIdentifier]) else before
  }

  /** RestoreState does not throw: the version is readable and every selected
      entity accepts its entry. */
  predicate RestoreAccepts(state: Dict, entities: seq<SavableEntity>)
    reads entities
  {
    ReadVersion(state, Cast).Some? &&
    forall k :: 0 <= k < |entities| && Selected(state, entities[k].uniqueIdentifier) ==>
      entities[k].Accepts(state[entities[k].uniqueIdentifier])
  }

  /** One entity's CaptureState, which changes nothing. */
  method CaptureEntity(entities: seq<SavableEntity>, i: nat) returns (state: SaveObject)
    requires i < |entities|
    ensures state == CapturesOf(entities)[i]
    ensures IdsOf(entities) == old(IdsOf(entities)) && CapturesOf(entities) == old(CapturesOf(entities))
  {
    assert entities[i].Objects() <= EntityObjects(entities);
    state := entities[i].CaptureState();
    assert unchanged(entities) && unchanged(EntityObjects(entities));
    assert state == SDictionary(CaptureMap(entities[i].components)) == CapturesOf(entities)[i];
  }

  /** No entity is part of an entity's footprint. */
  lemma EntitiesOutside(entities: seq<SavableEntity>, e: SavableEntity)
    ensures forall k :: 0 <= k < |entities| ==> entities[k] !in e.Objects()
  {
  }

  /** One entity's RestoreState, stated on its snapshot when its components
      share no object. */
  method RestoreEntity(e: SavableEntity, entry: SaveObject, version: int) returns (ok: bool)
    modifies e.Objects()
    ensures ok <==> e.Accepts(entry)
    ensures ok && Separate(e.components) ==> Snapshot(e) == SnapshotAfter(e, old(Snapshot(e)), entry)
  {
    ok := e.RestoreState(entry, version);
  }

  /** Entity `i`'s RestoreState: entity `i` is restored from `entry`; when
      no two entities share a component object, no other entity changes. */
  method RestoreAt(entities: seq<SavableEntity>, i: nat, entry: SaveObject, version: int) returns (ok: bool)
    requires i < |entities|
    modifies entities[i].Objects()
    ensures ok <==> entities[i].Accepts(entry)
    ensures unchanged(entities)
    ensures ok && Separate(entities[i].components) ==>
              Snapshot(entities[i]) == SnapshotAfter(entities[i], old(Snapshot(entities[i])), entry)
    ensures Disjoint(entities) ==>
              forall k :: 0 <= k < |entities| && k != i ==> Snapshot(entities[k]) == old(Snapshot(entities[k]))
  {
    EntitiesOutside(entities, entities[i]);
    ok := RestoreEntity(entities[i], entry, version);
    if Disjoint(entities) {
      forall k | 0 <= k < |entities| && k != i
        ensures Snapshot(entities[k]) == old(Snapshot(entities[k]))
      {
        assert unchanged(entities[k].Objects());
      }
    }
  }

  class SavingSystem {
    /** Application.persistentDataPath. */
    const dataPath: string
    const versions: Versions
    /** The save files: path to the dictionary written there. */
    var files: map<string, Dict>

    constructor (dataPath: string, versions: Versions, files: map<string, Dict>)
      ensures this.dataPath == dataPath && this.versions == versions && this.files == files
    {
      this.dataPath := dataPath;
      this.versions := versions;
      this.files := files;
    }

    /** CaptureState: the version, then each entity's capture under its id,
        then the active scene's build index, written over `state`. */
    method CaptureState(state: Dict, entities: seq<SavableEntity>, activeBuildIndex: int) returns (r: Dict)
      ensures r == Captured(state, IdsOf(entities), CapturesOf(entities), SInt(versions.current), SInt(activeBuildIndex))
    {
      ghost var ids := IdsOf(entities);
      ghost var captures := CapturesOf(entities);
      var initial := state[VersionKey := SInt(versions.current)];
      r := initial;
      var i := 0;
      while i < |entities|
        invariant 0 <= i <= |entities|
        invariant ids == IdsOf(entities) && captures == CapturesOf(entities)
        invariant r == Merge(initial, ids[..i], captures[..i])
      {
        var entry := CaptureEntity(entities, i);
        MergeSnoc(initial, ids, captures, i);
        r := r[entities[i].uniqueIdentifier := entry];
        i := i + 1;
      }
      assert ids[..i] == ids && captures[..i] == captures;
      r := r[SceneKey := SInt(activeBuildIndex)];
    }

    /** Save: load the file (a throw leaves it alone), capture the scene over
        it and write it back. */
    method Save(saveFile: string, entities: seq<SavableEntity>, activeBuildIndex: int) returns (ok: bool)
      modifies this
      ensures var loaded := LoadFile(old(files), GetPath(dataPath, saveFile), versions, Cast);
              (ok <==> loaded.Some?) &&
              files == if ok then old(files)[GetPath(dataPath, saveFile) :=
                                    Captured(loaded.value, IdsOf(entities), CapturesOf(entities),
                                             SInt(versions.current), SInt(activeBuildIndex))]
                       else old(files)
    {
      var path := GetPath(dataPath, saveFile);
      var loaded := LoadFile(files, path, versions, Cast);
      if loaded.None? {
        return false;
      }
      var state := CaptureState(loaded.value, entities, activeBuildIndex);
      assert this !in EntityObjects(entities);
      files := files[path := state];
      ok := true;
    }

    /** RestoreState: read the version (a cast failure throws before any
        entity), then restore each entity whose id is not blank and is a key,
        from its entry, stopping at the first entity that throws. */
    method RestoreState(state: Dict, entities: seq<SavableEntity>) returns (ok: bool)
      modifies EntityObjects(entities)
      ensures ok <==> RestoreAccepts(state, entities)
      ensures ok && Disjoint(entities) ==>
                forall k :: 0 <= k < |entities| && Separate(entities[k].components) ==>
                  Snapshot(entities[k]) == Expected(state, entities[k], old(Snapshot(entities[k])))
      ensures ReadVersion(state, Cast).None? ==> unchanged(EntityObjects(entities))
    {
      var version := 0;
      if VersionKey in state {
        var cast := AsInt(state[VersionKey]);
        if cast.None? {
          return false;
        }
        version := cast.value;
      }
      var i := 0;
      while i < |entities|
        invariant 0 <= i <= |entities|
        invariant unchanged(entities)
        invariant forall k :: 0 <= k < i && Selected(state, entities[k].uniqueIdentifier) ==>
                    entities[k].Accepts(state[entities[k].uniqueIdentifier])
        invariant Disjoint(entities) ==>
                    forall k :: 0 <= k < i && Separate(entities[k].components) ==>
                      Snapshot(entities[k]) == Expected(state, entities[k], old(Snapshot(entities[k])))
        invariant Disjoint(entities) ==>
                    forall k :: i <= k < |entities| ==> Snapshot(entities[k]) == old(Snapshot(entities[k]))
      {
        var id := entities[i].uniqueIdentifier;
        if Selected(state, id) {
          assert entities[i].Objects() <= EntityObjects(entities);
          var restored := RestoreAt(entities, i, state[id], version);
          if !restored {
            return false;
          }
        }
        i := i + 1;
      }
      return true;
    }

    /** Load: restore the scene from the loaded file; a throw while loading
        restores nothing. */
    method Load(saveFile: string, entities: seq<SavableEntity>) returns (ok: bool)
      modifies EntityObjects(entities)
      ensures var loaded := LoadFile(old(files), GetPath(dataPath, saveFile), versions, Cast);
              (ok <==> loaded.Some? && RestoreAccepts(loaded.value, entities)) &&
              (loaded.None? ==> unchanged(EntityObjects(entities))) &&
              (ok && Disjoint(entities) ==>
                 forall k :: 0 <= k < |entities| && Separate(entities[k].components) ==>
                   Snapshot(entities[k]) == Expected(loaded.value, entities[k], old(Snapshot(entities[k]))))
    {
      var loaded := LoadFile(files, GetPath(dataPath, saveFile), versions, Cast);
      if loaded.None? {
        return false;
      }
      ok := RestoreState(loaded.value, entities);
    }

    /** LoadLastScene: load the file and pick the scene; when it is the active
        one, restore at once (`loadsScene` false); otherwise the scene is
        loaded first and `entities` are the ones of the loaded scene. */
    method LoadLastScene(saveFile: string, activeBuildIndex: int, entities: seq<SavableEntity>)
      returns (ok: bool, buildIndex: int, loadsScene: bool)
      modifies EntityObjects(entities)
      ensures var loaded := LoadFile(old(files), GetPath(dataPath, saveFile), versions, Cast);
              var scene := if loaded.Some? then ChosenScene(loaded.value, activeBuildIndex, Cast) else None;
              (ok <==> scene.Some? && RestoreAccepts(loaded.value, entities)) &&
              (scene.None? ==> unchanged(EntityObjects(entities))) &&
              (scene.Some? ==> buildIndex == scene.value && (loadsScene <==> buildIndex != activeBuildIndex)) &&
              (ok && Disjoint(entities) ==>
                 forall k :: 0 <= k < |entities| && Separate(entities[k].components) ==>
                   Snapshot(entities[k]) == Expected(loaded.value, entities[k], old(Snapshot(entities[k]))))
    {
      buildIndex := activeBuildIndex;
      loadsScene := false;
      var loaded := LoadFile(files, GetPath(dataPath, saveFile), versions, Cast);
      if loaded.None? {
        return false, buildIndex, loadsScene;
      }
      var state := loaded.value;
      if SceneKey in state {
        var cast := AsInt(state[SceneKey]);
        if cast.None? {
          return false, buildIndex, loadsScene;
        }
        buildIndex := cast.value;
      }
      loadsScene := buildIndex != activeBuildIndex;
      ok := RestoreState(state, entities);
    }

    /** Delete: the file is gone (File.Delete ignores a missing file) and the
        others stay. */
    method Delete(saveFile: string)
      modifies this
      ensures files == old(files) - {GetPath(dataPath, saveFile)}
      ensures LoadFile(files, GetPath(dataPath, saveFile), versions, Cast) == Some(map[])
    {
      files := files - {GetPath(dataPath, saveFile)};
    }
  }
}
