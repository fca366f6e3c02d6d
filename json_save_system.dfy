/** JsonSaveSystem (Assets/Scripts/Saving/Json/JsonSaveSystem.cs): the JSON
    save pipeline's front end. It does what SavingSystem does with a JSON
    object per file, whose values are JTokens, and can list the saves in its
    folder.

    The file system is the `files` map from path to the object written there;
    the JSON text itself is not modelled. The scene's JsonSavableEntities, its
    build index and the version constants are parameters. */
module JsonSaveSystems {
  import opened Common
  import opened Json
  import opened JsonSavableEntities
  import opened SaveFiles

  type Dict = map<string, JToken>

  const Extension: string := ".json"
  const SaveFolder: string := "Saves"

  /** BasePath: the Saves folder of the data path. */
  function BasePath(dataPath: string): string
  {
    Combine(dataPath, SaveFolder)
  }

  /** GetPath: `saveFile + ".json"` in the base path. */
  function GetPath(dataPath: string, saveFile: string): string
  {
    SavePath(BasePath(dataPath), saveFile, Extension)
  }

  /** The `(int)` conversion of a JToken, as a function value. */
  const Cast: JToken -> Option<int> := ToInt

  /** A path names a save of the folder: it lies directly in the folder and
      ends in the extension. */
  predicate IsSave(folder: string, path: string)
  {
    |path| >= |folder| + 1 + |Extension| &&
    path[..|folder| + 1] == folder + "/" &&
    path[|path| - |Extension|..] == Extension &&
    '/' !in path[|folder| + 1..|path| - |Extension|]
  }

  /** Path.GetFileNameWithoutExtension of a save of the folder. */
  function SaveName(folder: string, path: string): string
    requires IsSave(folder, path)
  {
    path[|folder| + 1..|path| - |Extension|]
  }

  /** ListSaves: the names of the `.json` files of the base path, without the
      extension. Directory order is not modelled: the result is a set. */
  function ListSaves(files: map<string, Dict>, dataPath: string): set<string>
  {
    set path | path in files && IsSave(BasePath(dataPath), path) :: SaveName(BasePath(dataPath), path)
  }

  /** A name without a separator is listed exactly when its save file exists. */
  lemma ListSavesExactly(files: map<string, Dict>, dataPath: string, name: string)
    requires '/' !in name
    ensures name in ListSaves(files, dataPath) <==> GetPath(dataPath, name) in files
  {
    var folder := BasePath(dataPath);
    var path := GetPath(dataPath, name);
    assert path == folder + "/" + name + Extension;
    assert path[..|folder| + 1] == folder + "/";
    assert path[|path| - |Extension|..] == Extension;
    assert path[|folder| + 1..|path| - |Extension|] == name;
    if name in ListSaves(files, dataPath) {
      var p :| p in files && IsSave(folder, p) && SaveName(folder, p) == name;
      assert p == p[..|folder| + 1] + p[|folder| + 1..|p| - |Extension|] + p[|p| - |Extension|..];
    }
  }

  /** Every listed name is a save whose file exists. */
  lemma ListedSavesExist(files: map<string, Dict>, dataPath: string, name: string)
    requires name in ListSaves(files, dataPath)
    ensures '/' !in name && GetPath(dataPath, name) in files
  {
    var folder := BasePath(dataPath);
    var p :| p in files && IsSave(folder, p) && SaveName(folder, p) == name;
    assert p == p[..|folder| + 1] + p[|folder| + 1..|p| - |Extension|] + p[|p| - |Extension|..];
    assert p == folder + "/" + (name + Extension);
    assert GetPath(dataPath, name) == folder + "/" + (name + Extension);
  }

  /** The schedulers the entities' footprints depend on. */
  function EntitySchedulers(entities: seq<JsonSavableEntity>): set<object>
  {
    set k, o | 0 <= k < |entities| && o in Schedulers(entities[k].components) :: o
  }

  function EntityObjects(entities: seq<JsonSavableEntity>): set<object>
    reads EntitySchedulers(entities)
  {
    set k, o | 0 <= k < |entities| && o in entities[k].Objects() :: o
  }

  /** No two entities record a common object. Two entities on one game
      object share its components, so this holds only when every entity sits
      on a game object of its own. */
  predicate Disjoint(entities: seq<JsonSavableEntity>)
  {
    forall k, l :: 0 <= k < |entities| && 0 <= l < |entities| && k != l ==>
      AllStateObjects(entities[k].components) !! AllStateObjects(entities[l].components)
  }

  /** Every Health scheduler of every entity holds the action it held or
      none. */
  twostate predicate EntitySlotsKept(entities: seq<JsonSavableEntity>)
    reads EntitySchedulers(entities)
  {
    forall k :: 0 <= k < |entities| ==>
      assert Schedulers(entities[k].components) <= EntitySchedulers(entities);
      SlotsKept(entities[k].components)
  }

  /** The entities' ids, in order. */
  function IdsOf(entities: seq<JsonSavableEntity>): (ids: seq<string>)
    reads entities
    ensures |ids| == |entities|
  {
    seq(|entities|, k requires 0 <= k < |entities| reads entities => entities[k].uniqueIdentifier)
  }

  /** What capturing the entities reads. */
  function EntityOwners(entities: seq<JsonSavableEntity>): set<object>
  {
    set k, o | 0 <= k < |entities| && o in Owners(entities[k].components) :: o
  }

  /** The entities' captured objects, in order. */
  function CapturesOf(entities: seq<JsonSavableEntity>): (captures: seq<JToken>)
    reads EntityOwners(entities)
    ensures |captures| == |entities|
  {
    seq(|entities|, k requires 0 <= k < |entities| reads EntityOwners(entities) =>
      assert Owners(entities[k].components) <= EntityOwners(entities);
      JObject(CaptureMap(entities[k].components)))
  }

  /** The fields of every component of an entity, in order. */
  ghost function Snapshot(e: JsonSavableEntity): (s: seq<JsonFields>)
    reads AllStateObjects(e.components)
    ensures |s| == |e.components|
  {
    seq(|e.components|, j requires 0 <= j < |e.components| reads AllStateObjects(e.components) =>
      assert e.components[j].StateObjects() <= AllStateObjects(e.components);
      e.components[j].Fields())
  }

  /** The snapshot of `e` after it is restored from `entry`, given the
      snapshot `before`. */
  ghost function SnapshotAfter(e: JsonSavableEntity, before: seq<JsonFields>, entry: JToken): seq<JsonFields>
  {
    seq(|before|, j requires 0 <= j < |before| =>
      if j < |e.components| then e.ComponentAfter(e.components[j], before[j], entry) else before[j])
  }

  /** The snapshot entity `e` is left with by a successful RestoreState. */
  ghost function Expected(state: Dict, e: JsonSavableEntity, before: seq<JsonFields>): seq<JsonFields>
    reads e
  {
    if Selected(state, e.uniqueIdentifier) then SnapshotAfter(e, before, state[e.uniqueIdentifier]) else before
  }

  /** RestoreState does not throw: the version converts and every selected
      entity accepts its entry. */
  predicate RestoreAccepts(state: Dict, entities: seq<JsonSavableEntity>)
    reads entities
  {
    ReadVersion(state, Cast).Some? &&
    forall k :: 0 <= k < |entities| && Selected(state, entities[k].uniqueIdentifier) ==>
      entities[k].Accepts(state[entities[k].uniqueIdentifier])
  }

  /** One entity's Capture, which changes nothing. */
  method CaptureEntity(entities: seq<JsonSavableEntity>, i: nat) returns (state: JToken)
    requires i < |entities|
    ensures state == CapturesOf(entities)[i]
    ensures IdsOf(entities) == old(IdsOf(entities)) && CapturesOf(entities) == old(CapturesOf(entities))
  {
    assert Owners(entities[i].components) <= EntityOwners(entities);
    state := entities[i].Capture();
    assert unchanged(entities) && unchanged(EntityOwners(entities));
    assert state == JObject(CaptureMap(entities[i].components)) == CapturesOf(entities)[i];
  }

  /** No entity is part of an entity's footprint. */
  lemma EntitiesOutside(entities: seq<JsonSavableEntity>, e: JsonSavableEntity)
    ensures forall k :: 0 <= k < |entities| ==> entities[k] !in e.Objects()
  {
  }

  /** One entity's Restore, stated on its snapshot when its components share
      no object; its schedulers keep or drop their actions, so the entity's
      footprint does not grow. */
  method RestoreEntity(e: JsonSavableEntity, entry: JToken, version: int) returns (ok: bool)
    modifies e.Objects()
    ensures ok <==> e.Accepts(entry)
    ensures ok && Separate(e.components) ==> Snapshot(e) == SnapshotAfter(e, old(Snapshot(e)), entry)
    ensures e.Objects() <= old(e.Objects())
    ensures SlotsKept(e.components)
  {
    ok := e.Restore(entry, version);
    EntityShrinks(e);
  }

  /** Entity `i`'s Restore: entity `i` is restored from `entry`; every
      scheduler keeps or drops its action, so no footprint grows; when no two
      entities record a common object, no other entity changes. */
  method RestoreAt(entities: seq<JsonSavableEntity>, i: nat, entry: JToken, version: int) returns (ok: bool)
    requires i < |entities|
    modifies entities[i].Objects()
    ensures ok <==> entities[i].Accepts(entry)
    ensures unchanged(entities)
    ensures ok && Separate(entities[i].components) ==>
              Snapshot(entities[i]) == SnapshotAfter(entities[i], old(Snapshot(entities[i])), entry)
    ensures EntitySlotsKept(entities)
    ensures forall k :: 0 <= k < |entities| ==> entities[k].Objects() <= old(entities[k].Objects())
    ensures Disjoint(entities) ==>
              forall k :: 0 <= k < |entities| && k != i ==> Snapshot(entities[k]) == old(Snapshot(entities[k]))
  {
    EntitiesOutside(entities, entities[i]);
    forall k, j | 0 <= k < |entities| && 0 <= j < |entities[k].components| &&
                  entities[k].components[j].HealthSavable? &&
                  entities[k].components[j].health.scheduler in entities[i].Objects()
      ensures exists l :: 0 <= l < |entities[i].components| && entities[i].components[l].HealthSavable? &&
                          entities[i].components[l].health.scheduler == entities[k].components[j].health.scheduler
    {
      SchedulerOf(entities[i].components, entities[k].components[j].health.scheduler);
    }
    if Disjoint(entities) {
      forall k | 0 <= k < |entities| && k != i
        ensures AllStateObjects(entities[k].components) !! entities[i].Objects()
      {
        StateApart(entities[i].components, entities[k].components);
      }
    }
    ok := RestoreEntity(entities[i], entry, version);
    forall k, j | 0 <= k < |entities| && 0 <= j < |entities[k].components| && entities[k].components[j].HealthSavable?
      ensures entities[k].components[j].health.scheduler.current ==
                old(entities[k].components[j].health.scheduler.current) ||
              entities[k].components[j].health.scheduler.current.None?
    {
      var s := entities[k].components[j].health.scheduler;
      if s in old(entities[i].Objects()) {
        var l :| 0 <= l < |entities[i].components| && entities[i].components[l].HealthSavable? &&
                 entities[i].components[l].health.scheduler == s;
      }
    }
    forall k | 0 <= k < |entities|
      ensures entities[k].Objects() <= old(entities[k].Objects())
    {
      EntityShrinks(entities[k]);
    }
    if Disjoint(entities) {
      forall k | 0 <= k < |entities| && k != i
        ensures Snapshot(entities[k]) == old(Snapshot(entities[k]))
      {
        assert unchanged(AllStateObjects(entities[k].components));
      }
    }
  }

  /** An entity whose schedulers keep or drop their actions does not grow
      its footprint. */
  twostate lemma EntityShrinks(e: JsonSavableEntity)
    requires SlotsKept(e.components)
    ensures e.Objects() <= old(e.Objects())
  {
    forall o | o in e.Objects()
      ensures o in old(e.Objects())
    {
      var j :| 0 <= j < |e.components| && o in e.components[j].Objects();
      e.FootprintShrinks(e.components[j]);
    }
  }

  class JsonSaveSystem {
    /** Application.persistentDataPath. */
    const dataPath: string
    const versions: Versions
    /** The save files: path to the object written there. */
    var files: map<string, Dict>

    constructor (dataPath: string, versions: Versions, files: map<string, Dict>)
      ensures this.dataPath == dataPath && this.versions == versions && this.files == files
    {
      this.dataPath := dataPath;
      this.versions := versions;
      this.files := files;
    }

    /** CaptureState: the version, then each entity's capture under its id,
        then the active scene's build index, written over `state`. */
    method CaptureState(state: Dict, entities: seq<JsonSavableEntity>, activeBuildIndex: int) returns (r: Dict)
      ensures r == Captured(state, IdsOf(entities), CapturesOf(entities),
                            JInteger(versions.current), JInteger(activeBuildIndex))
    {
      ghost var ids := IdsOf(entities);
      ghost var captures := CapturesOf(entities);
      var initial := state[VersionKey := JInteger(versions.current)];
      r := initial;
      var i := 0;
      while i < |entities|
        invariant 0 <= i <= |entities|
        invariant ids == IdsOf(entities) && captures == CapturesOf(entities)
        invariant r == Merge(initial, ids[..i], captures[..i])
      {
        var entry := CaptureEntity(entities, i);
        MergeSnoc(initial, ids, captures, i);
        r := r[entities[i].uniqueIdentifier := entry];
        i := i + 1;
      }
      assert ids[..i] == ids && captures[..i] == captures;
      r := r[SceneKey := JInteger(activeBuildIndex)];
    }

    /** Save: load the file (a throw leaves it alone), capture the scene over
        it and write it back. */
    method Save(saveFile: string, entities: seq<JsonSavableEntity>, activeBuildIndex: int) returns (ok: bool)
      modifies this
      ensures var loaded := LoadFile(old(files), GetPath(dataPath, saveFile), versions, Cast);
              (ok <==> loaded.Some?) &&
              files == if ok then old(files)[GetPath(dataPath, saveFile) :=
                                    Captured(loaded.value, IdsOf(entities), CapturesOf(entities),
                                             JInteger(versions.current), JInteger(activeBuildIndex))]
                       else old(files)
    {
      var path := GetPath(dataPath, saveFile);
      var loaded := LoadFile(files, path, versions, Cast);
      if loaded.None? {
        return false;
      }
      var state := CaptureState(loaded.value, entities, activeBuildIndex);
      assert this !in EntityOwners(entities);
      files := files[path := state];
      ok := true;
    }

    /** RestoreState: read the version (a failed conversion throws before any
        entity), then restore each entity whose id is not blank and is a key,
        from its entry, stopping at the first entity that throws. */
    method RestoreState(state: Dict, entities: seq<JsonSavableEntity>) returns (ok: bool)
      modifies EntityObjects(entities)
      ensures ok <==> RestoreAccepts(state, entities)
      ensures ok && Disjoint(entities) ==>
                forall k :: 0 <= k < |entities| && Separate(entities[k].components) ==>
                  Snapshot(entities[k]) == Expected(state, entities[k], old(Snapshot(entities[k])))
      ensures ReadVersion(state, Cast).None? ==> unchanged(old(EntityObjects(entities)))
    {
      var version := 0;
      if VersionKey in state {
        var cast := ToInt(state[VersionKey]);
        if cast.None? {
          return false;
        }
        version := cast.value;
      }
      var i := 0;
      while i < |entities|
        invariant 0 <= i <= |entities|
        invariant unchanged(entities)
        invariant EntitySlotsKept(entities)
        invariant forall k :: 0 <= k < i && Selected(state, entities[k].uniqueIdentifier) ==>
                    entities[k].Accepts(state[entities[k].uniqueIdentifier])
        invariant Disjoint(entities) ==>
                    forall k :: 0 <= k < i && Separate(entities[k].components) ==>
                      Snapshot(entities[k]) == Expected(state, entities[k], old(Snapshot(entities[k])))
        invariant Disjoint(entities) ==>
                    forall k :: i <= k < |entities| ==> Snapshot(entities[k]) == old(Snapshot(entities[k]))
      {
        var id := entities[i].uniqueIdentifier;
        if Selected(state, id) {
          EntityShrinks(entities[i]);
          assert entities[i].Objects() <= old(EntityObjects(entities));
          var restored := RestoreAt(entities, i, state[id], version);
          if !restored {
            return false;
          }
        }
        i := i + 1;
      }
      return true;
    }

    /** Load: restore the scene from the loaded file; a throw while loading
        restores nothing. */
    method Load(saveFile: string, entities: seq<JsonSavableEntity>) returns (ok: bool)
      modifies EntityObjects(entities)
      ensures var loaded := LoadFile(old(files), GetPath(dataPath, saveFile), versions, Cast);
              (ok <==> loaded.Some? && RestoreAccepts(loaded.value, entities)) &&
              (loaded.None? ==> unchanged(old(EntityObjects(entities)))) &&
              (ok && Disjoint(entities) ==>
                 forall k :: 0 <= k < |entities| && Separate(entities[k].components) ==>
                   Snapshot(entities[k]) == Expected(loaded.value, entities[k], old(Snapshot(entities[k]))))
    {
      var loaded := LoadFile(files, GetPath(dataPath, saveFile), versions, Cast);
      if loaded.None? {
        return false;
      }
      ok := RestoreState(loaded.value, entities);
    }

    /** LoadLastScene: load the file and pick the scene; when it is the active
        one, restore at once (`loadsScene` false); otherwise the scene is
        loaded first and `entities` are the ones of the loaded scene. */
    method LoadLastScene(saveFile: string, activeBuildIndex: int, entities: seq<JsonSavableEntity>)
      returns (ok: bool, buildIndex: int, loadsScene: bool)
      modifies EntityObjects(entities)
      ensures var loaded := LoadFile(old(files), GetPath(dataPath, saveFile), versions, Cast);
              var scene := if loaded.Some? then ChosenScene(loaded.value, activeBuildIndex, Cast) else None;
              (ok <==> scene.Some? && RestoreAccepts(loaded.value, entities)) &&
              (scene.None? ==> unchanged(old(EntityObjects(entities)))) &&
              (scene.Some? ==> buildIndex == scene.value && (loadsScene <==> buildIndex != activeBuildIndex)) &&
              (ok && Disjoint(entities) ==>
                 forall k :: 0 <= k < |entities| && Separate(entities[k].components) ==>
                   Snapshot(entities[k]) == Expected(loaded.value, entities[k], old(Snapshot(entities[k]))))
    {
      buildIndex := activeBuildIndex;
      loadsScene := false;
      var loaded := LoadFile(files, GetPath(dataPath, saveFile), versions, Cast);
      if loaded.None? {
        return false, buildIndex, loadsScene;
      }
      var state := loaded.value;
      if SceneKey in state {
        var cast := ToInt(state[SceneKey]);
        if cast.None? {
          return false, buildIndex, loadsScene;
        }
        buildIndex := cast.value;
      }
      loadsScene := buildIndex != activeBuildIndex;
      ok := RestoreState(state, entities);
    }

    /** Delete: the file is gone (File.Delete ignores a missing file) and the
        others stay. */
    method Delete(saveFile: string)
      modifies this
      ensures files == old(files) - {GetPath(dataPath, saveFile)}
      ensures LoadFile(files, GetPath(dataPath, saveFile), versions, Cast) == Some(map[])
    {
      files := files - {GetPath(dataPath, saveFile)};
    }
  }
}
