/** What the binary SavingSystem (Assets/Scripts/Saving/SavingSystem.cs) and
    the JsonSaveSystem (Assets/Scripts/Saving/Json/JsonSaveSystem.cs) share: a
    save file is one dictionary from string keys to saved values `V`; two keys
    are reserved for the file version and the last scene's build index; the
    file's version is gated on load; and saving merges the captured scene over
    what the file held. The two systems differ only in `V` (a boxed object or
    a JToken) and in the `(int)` cast they apply to it, passed as `asInt`. */
module SaveFiles {
  import opened Common

  const VersionKey: string := "CurrentFileVersion"
  const SceneKey: string := "lastSceneBuildIndex"

  /** The version constants of VersionControl (not part of this model). */
  datatype Versions = Versions(current: int, minimum: int)

  /** Path.Combine for a relative second part. */
  function Combine(basePath: string, name: string): string
  {
    basePath + "/" + name
  }

  /** A save file's path: `saveFile + extension` inside `folder`. */
  function SavePath(folder: string, saveFile: string, extension: string): (path: string)
    ensures |path| > |saveFile| + |extension|
    ensures path[|path| - |saveFile| - |extension|..] == saveFile + extension
  {
    Combine(folder, saveFile + extension)
  }

  /** Distinct save names never share a file. */
  lemma SavePathInjective(folder: string, a: string, b: string, extension: string)
    requires SavePath(folder, a, extension) == SavePath(folder, b, extension)
    ensures a == b
  {
    var prefix := folder + "/";
    assert SavePath(folder, a, extension) == prefix + (a + extension);
    assert SavePath(folder, b, extension) == prefix + (b + extension);
    assert a == SavePath(folder, a, extension)[|prefix|..|prefix| + |a|];
    assert b == SavePath(folder, b, extension)[|prefix|..|prefix| + |b|];
  }

  /** The file version as LoadFile and RestoreState read it: 0 when the key is
      missing, the cast of the stored value otherwise (None when it throws). */
  function ReadVersion<V>(state: map<string, V>, asInt: V -> Option<int>): (r: Option<int>)
    ensures VersionKey !in state ==> r == Some(0)
    ensures VersionKey in state ==> r == asInt(state[VersionKey])
  {
    if VersionKey in state then asInt(state[VersionKey]) else Some(0)
  }

  /** The version gate: a file at least as new as the current version, or
      as the minimum version, is kept. */
  predicate Supported(versions: Versions, version: int)
  {
    version >= versions.current || version >= versions.minimum
  }

  /** LoadFile: a missing file is an empty dictionary, and so is a file whose
      version fails the gate; a version the cast rejects throws (None). */
  function LoadFile<V>(files: map<string, map<string, V>>, path: string, versions: Versions,
                       asInt: V -> Option<int>): (r: Option<map<string, V>>)
    ensures path !in files ==> r == Some(map[])
    ensures path in files ==> (r.None? <==> ReadVersion(files[path], asInt).None?)
    ensures path in files && r.Some? && Supported(versions, ReadVersion(files[path], asInt).value) ==>
              r.value == files[path]
    ensures path in files && r.Some? && !Supported(versions, ReadVersion(files[path], asInt).value) ==>
              r.value == map[]
  {
    if path !in files then Some(map[])
    else
      match ReadVersion(files[path], asInt)
      case None => None
      case Some(version) => if Supported(versions, version) then Some(files[path]) else Some(map[])
  }

  /** The ids written by CaptureState's loop. */
  function IdSet(ids: seq<string>): set<string>
  {
    set k | 0 <= k < |ids| :: ids[k]
  }

  /** The dictionary after CaptureState's loop: entity k writes `entries[k]`
      under `ids[k]`, in order. */
  function Merge<V>(state: map<string, V>, ids: seq<string>, entries: seq<V>): map<string, V>
    requires |ids| == |entries|
  {
    if ids == [] then state
    else
      var n := |ids| - 1;
      Merge(state, ids[..n], entries[..n])[ids[n] := entries[n]]
  }

  lemma IdSetSnoc(ids: seq<string>)
    requires ids != []
    ensures IdSet(ids) == IdSet(ids[..|ids| - 1]) + {ids[|ids| - 1]}
  {
    var n := |ids| - 1;
    forall id | id in IdSet(ids)
      ensures id in IdSet(ids[..n]) + {ids[n]}
    {
      var k :| 0 <= k < |ids| && ids[k] == id;
      if k < n {
        assert ids[..n][k] == ids[k];
      }
    }
    forall id | id in IdSet(ids[..n])
      ensures id in IdSet(ids)
    {
      var k :| 0 <= k < n && ids[..n][k] == id;
      assert ids[k] == ids[..n][k];
    }
  }

  /** One more entity writes its entry under its id. */
  lemma MergeSnoc<V>(state: map<string, V>, ids: seq<string>, entries: seq<V>, i: nat)
    requires |ids| == |entries| && i < |ids|
    ensures Merge(state, ids[..i + 1], entries[..i + 1]) == Merge(state, ids[..i], entries[..i])[ids[i] := entries[i]]
  {
    assert ids[..i + 1][..i] == ids[..i];
    assert entries[..i + 1][..i] == entries[..i];
  }

  /** The loop adds exactly the ids. */
  lemma {:induction false} MergeKeys<V>(state: map<string, V>, ids: seq<string>, entries: seq<V>)
    requires |ids| == |entries|
    ensures Merge(state, ids, entries).Keys == state.Keys + IdSet(ids)
  {
    if ids != [] {
      var n := |ids| - 1;
      IdSetSnoc(ids);
      MergeKeys(state, ids[..n], entries[..n]);
    }
  }

  /** The loop leaves every entry but the ids' as it was. */
  lemma {:induction false} MergeKeeps<V>(state: map<string, V>, ids: seq<string>, entries: seq<V>, key: string)
    requires |ids| == |entries| && key !in IdSet(ids) && key in state
    ensures key in Merge(state, ids, entries) && Merge(state, ids, entries)[key] == state[key]
  {
    if ids != [] {
      var n := |ids| - 1;
      IdSetSnoc(ids);
      MergeKeeps(state, ids[..n], entries[..n], key);
    }
  }

  /** An id holds its entity's entry unless a later entity has the same id. */
  lemma {:induction false} MergeEntry<V>(state: map<string, V>, ids: seq<string>, entries: seq<V>, k: nat)
    requires |ids| == |entries| && k < |ids|
    requires forall l :: k < l < |ids| ==> ids[l] != ids[k]
    ensures ids[k] in Merge(state, ids, entries) && Merge(state, ids, entries)[ids[k]] == entries[k]
  {
    var n := |ids| - 1;
    if k < n {
      assert ids[..n][k] == ids[k] && entries[..n][k] == entries[k];
      assert forall l :: k < l < n ==> ids[..n][l] == ids[l];
      MergeEntry(state, ids[..n], entries[..n], k);
    }
  }

  /** CaptureState's result over `state`: the version entry, then each
      entity's entry under its id, then the scene entry. */
  function Captured<V>(state: map<string, V>, ids: seq<string>, entries: seq<V>, version: V, scene: V): map<string, V>
    requires |ids| == |entries|
  {
    Merge(state[VersionKey := version], ids, entries)[SceneKey := scene]
  }

  /** The merge Save performs: the saved dictionary holds the loaded keys, the
      two reserved keys and every id; it records the version (unless an
      entity's id is the version key) and the scene; each id holds its
      entity's entry (unless a later entity reuses the id or the id is the
      scene key); and the entries of entities absent from the scene survive. */
  lemma CapturedContents<V>(state: map<string, V>, ids: seq<string>, entries: seq<V>, version: V, scene: V)
    requires |ids| == |entries|
    ensures Captured(state, ids, entries, version, scene).Keys == state.Keys + {VersionKey, SceneKey} + IdSet(ids)
    ensures Captured(state, ids, entries, version, scene)[SceneKey] == scene
    ensures VersionKey !in IdSet(ids) ==> Captured(state, ids, entries, version, scene)[VersionKey] == version
    ensures forall key :: key in state && key != VersionKey && key != SceneKey && key !in IdSet(ids) ==>
              Captured(state, ids, entries, version, scene)[key] == state[key]
    ensures forall k :: 0 <= k < |ids| && ids[k] != SceneKey && (forall l :: k < l < |ids| ==> ids[l] != ids[k]) ==>
              Captured(state, ids, entries, version, scene)[ids[k]] == entries[k]
  {
    var versioned := state[VersionKey := version];
    MergeKeys(versioned, ids, entries);
    if VersionKey !in IdSet(ids) {
      MergeKeeps(versioned, ids, entries, VersionKey);
    }
    forall key | key in state && key != VersionKey && key != SceneKey && key !in IdSet(ids)
      ensures Captured(state, ids, entries, version, scene)[key] == state[key]
    {
      MergeKeeps(versioned, ids, entries, key);
    }
    forall k | 0 <= k < |ids| && ids[k] != SceneKey && (forall l :: k < l < |ids| ==> ids[l] != ids[k])
      ensures Captured(state, ids, entries, version, scene)[ids[k]] == entries[k]
    {
      MergeEntry(versioned, ids, entries, k);
    }
  }

  /** A file saved with the current version loads back whole: its version
      passes the gate. */
  lemma SavedFileLoads<V>(files: map<string, map<string, V>>, path: string, state: map<string, V>,
                          ids: seq<string>, entries: seq<V>, version: V, scene: V,
                          versions: Versions, asInt: V -> Option<int>)
    requires |ids| == |entries| && VersionKey !in IdSet(ids) && asInt(version) == Some(versions.current)
    ensures LoadFile(files[path := Captured(state, ids, entries, version, scene)], path, versions, asInt) ==
            Some(Captured(state, ids, entries, version, scene))
  {
    CapturedContents(state, ids, entries, version, scene);
  }

  /** LoadLastScene's choice of scene: the saved build index when the file has
      one (None when the cast throws), else the active scene. */
  function ChosenScene<V>(state: map<string, V>, activeBuildIndex: int, asInt: V -> Option<int>): (r: Option<int>)
    ensures SceneKey !in state ==> r == Some(activeBuildIndex)
    ensures SceneKey in state ==> r == asInt(state[SceneKey])
  {
    if SceneKey in state then asInt(state[SceneKey]) else Some(activeBuildIndex)
  }

  /** A saved file sends LoadLastScene back to the scene it was saved in. */
  lemma SavedSceneChosen<V>(state: map<string, V>, ids: seq<string>, entries: seq<V>, version: V, scene: V,
                            activeBuildIndex: int, asInt: V -> Option<int>)
    requires |ids| == |entries|
    ensures ChosenScene(Captured(state, ids, entries, version, scene), activeBuildIndex, asInt) == asInt(scene)
  {
  }

  /** RestoreState restores an entity exactly when its id is not blank and the
      dictionary has an entry for it. */
  predicate Selected<V>(state: map<string, V>, id: string)
  {
    !IsBlank(id) && id in state
  }
}
