// internal/bpf/mapManager.go and internal/dpcnisyncerserver/server.go: the map manager and the
// syncer server as objects, proved against BpfMaps.

module MapManagers {
  import opened Options
  import opened BpfMaps
  import opened Constants

  /** The part of the node's file system that the managers use. */
  class FileSystem {
    var paths: set<string>
    var mounts: set<string>

    constructor (fs: Fs)
      ensures View() == fs
    {
      paths := fs.paths;
      mounts := fs.mounts;
    }

    function View(): Fs
      reads this
    {
      Fs(paths, mounts)
    }
  }

  class MapManager {
    const name: string
    const bpffsPath: string
    const files: FileSystem
    /** None is Go's nil map. */
    var maps: Option<map<string, string>>

    /** CreateMapManager always makes the map. */
    constructor (name: string, files: FileSystem)
      ensures this.name == name && this.files == files
      ensures bpffsPath == PIN_MAP_BASE_DIR + name + "/" && maps == Some(map[])
    {
      this.name := name;
      this.files := files;
      bpffsPath := PIN_MAP_BASE_DIR + name + "/";
      maps := Some(map[]);
    }

    /** The first of at most five random names that does not exist. */
    method GenerateRandomBpffsName(trial: Trial) returns (path: Option<string>)
      ensures path == if trial.baseOk then PickName(files.View(), bpffsPath, trial.uuid, 0) else None
    {
      if !trial.baseOk {
        return None;
      }
      var count := 0;
      while true
        invariant count <= NAME_ATTEMPTS
        invariant PickName(files.View(), bpffsPath, trial.uuid, 0)
               == PickName(files.View(), bpffsPath, trial.uuid, count)
        decreases NAME_ATTEMPTS - count
      {
        if count >= NAME_ATTEMPTS {
          return None;
        }
        var bpffspath := bpffsPath + trial.uuid(count);
        if bpffspath !in files.paths {
          return Some(bpffspath);
        }
        count := count + 1;
      }
    }

    method CreateBPFFS(trial: Trial) returns (path: Option<string>)
      modifies files
      ensures var creation := Create(old(files.View()), bpffsPath, trial);
              files.View() == creation.fs && path == creation.path
      ensures !trial.baseOk || !trial.mkdir
              || (forall i: nat | i < NAME_ATTEMPTS :: bpffsPath + trial.uuid(i) in old(files.paths)) ==>
                path == None && files.paths == old(files.paths) && files.mounts == old(files.mounts)
      ensures forall i: nat | && i < NAME_ATTEMPTS && bpffsPath + trial.uuid(i) !in old(files.paths)
                              && (forall j: nat | j < i :: bpffsPath + trial.uuid(j) in old(files.paths))
                              && trial.baseOk && trial.mkdir ::
        var made := bpffsPath + trial.uuid(i);
        && files.paths == old(files.paths) + {made}
        && files.mounts == old(files.mounts) + (if trial.permissions && trial.mount then {made} else {})
        && path == if trial.permissions && trial.mount && trial.share then Some(made) else None
    {
      forall i: nat | && i < NAME_ATTEMPTS && bpffsPath + trial.uuid(i) !in files.paths
                      && forall j: nat | j < i :: bpffsPath + trial.uuid(j) in files.paths
        ensures PickName(files.View(), bpffsPath, trial.uuid, 0) == Some(bpffsPath + trial.uuid(i))
      {
        PicksFirst(files.View(), bpffsPath, trial.uuid, 0, i);
      }
      var picked := GenerateRandomBpffsName(trial);
      if picked.None? || !trial.mkdir {
        return None;
      }
      files.paths := files.paths + {picked.value};
      if !trial.permissions {
        return None;
      }
      if !trial.mount {
        return None;
      }
      files.mounts := files.mounts + {picked.value};
      if !trial.share {
        return None;
      }
      return picked;
    }

    method AddMap(dev: string, path: string)
      requires maps.Some?
      modifies this`maps
      ensures maps == Some(old(maps.value)[dev := path])
    {
      maps := Some(maps.value[dev := path]);
    }

    /** The nil test is inverted: an existing map is the error case. */
    method GetMaps() returns (r: Option<map<string, string>>, failed: bool)
      ensures failed <==> maps.Some?
      ensures r == None
    {
      if maps.Some? {
        return None, true;
      }
      return maps, false;
    }

    /** Looks the device up in the error case, so it succeeds exactly for the devices in the map. */
    method GetBPFFS(dev: string) returns (path: Option<string>)
      requires maps.Some?
      ensures path == if dev in maps.value then Some(maps.value[dev]) else None
    {
      var _, failed := GetMaps();
      if failed {
        if dev in maps.value {
          return Some(maps.value[dev]);
        }
      }
      return None;
    }

    /** The map entry stays. */
    method DeleteBPFFS(dev: string, removal: Removal) returns (ok: bool)
      requires maps.Some?
      modifies files
      ensures var path := if dev in maps.value then Some(maps.value[dev]) else None;
              var deletion := Delete(old(files.View()), path, removal);
              files.View() == deletion.fs && ok == deletion.ok
      ensures var unmounted := dev in maps.value && maps.value[dev] in old(files.paths)
                               && maps.value[dev] in old(files.mounts) && removal.unmount;
        && (ok <==> unmounted && removal.remove)
        && files.mounts == (if unmounted then old(files.mounts) - {maps.value[dev]} else old(files.mounts))
        && files.paths == (if ok then old(files.paths) - {maps.value[dev]} else old(files.paths))
    {
      var bpffs := GetBPFFS(dev);
      if bpffs.None? {
        return false;
      }
      if bpffs.value !in files.paths {
        return false;
      }
      if bpffs.value !in files.mounts || !removal.unmount {
        return false;
      }
      files.mounts := files.mounts - {bpffs.value};
      if !removal.remove {
        return false;
      }
      files.paths := files.paths - {bpffs.value};
      return true;
    }
  }

  /** The names in order of first registration. */
  function Registered(names: seq<string>): (r: seq<string>)
    ensures forall n :: n in r <==> n in names
    ensures forall i, j | 0 <= i < j < |r| :: r[i] != r[j]
  {
    if names == [] then []
    else
      var before := Registered(names[..|names| - 1]);
      if names[|names| - 1] in before then before else before + [names[|names| - 1]]
  }

  /** Every manager is registered exactly when the pools have different names. */
  lemma {:induction false} AllRegistered(names: seq<string>)
    ensures Registered(names) == names <==> forall i, j | 0 <= i < j < |names| :: names[i] != names[j]
    ensures |Registered(names)| <= |names|
  {
    if names != [] {
      var init, last := names[..|names| - 1], names[|names| - 1];
      AllRegistered(init);
      assert names == init + [last];
    }
  }

  class SyncerServer {
    const files: FileSystem
    var mapManagers: seq<MapManager>
    var bpfMapPinEnable: bool

    constructor (files: FileSystem)
      ensures this.files == files && mapManagers == [] && !bpfMapPinEnable
    {
      this.files := files;
      mapManagers := [];
      bpfMapPinEnable := false;
    }

    ghost predicate Valid()
      reads this, mapManagers
    {
      forall m | 0 <= m < |mapManagers| :: mapManagers[m].files == files && mapManagers[m].maps.Some?
    }

    static function NamesOf(managers: seq<MapManager>): (names: seq<string>)
      ensures |names| == |managers| && forall m | 0 <= m < |names| :: names[m] == managers[m].name
    {
      if managers == [] then [] else [managers[0].name] + NamesOf(managers[1..])
    }

    static ghost function MapsOf(managers: seq<MapManager>): (maps: seq<map<string, string>>)
      requires forall m | 0 <= m < |managers| :: managers[m].maps.Some?
      reads managers
      ensures |maps| == |managers| && forall m | 0 <= m < |maps| :: maps[m] == managers[m].maps.value
    {
      if managers == [] then [] else [managers[0].maps.value] + MapsOf(managers[1..])
    }

    ghost function Maps(): seq<map<string, string>>
      requires Valid()
      reads this, mapManagers
    {
      MapsOf(mapManagers)
    }

    /** Keeps the managers in order of registration, one for each name. */
    method RegisterMapManager(b: MapManager, ghost names: seq<string>)
      requires Valid() && b.files == files && b.maps.Some?
      requires NamesOf(mapManagers) == Registered(names)
      modifies this`mapManagers
      ensures Valid()
      ensures NamesOf(mapManagers) == Registered(names + [b.name])
      ensures mapManagers == if b.name in names then old(mapManagers) else old(mapManagers) + [b]
    {
      assert (names + [b.name])[..|names|] == names;
      for i := 0 to |mapManagers|
        invariant forall j | 0 <= j < i :: NamesOf(mapManagers)[j] != b.name
      {
        if mapManagers[i].name == b.name {
          assert NamesOf(mapManagers)[i] == b.name;
          return;
        }
      }
      mapManagers := mapManagers + [b];
      assert NamesOf(mapManagers) == Registered(names) + [b.name];
    }

    /** Deletes the BPF file system of a device through the first manager that knows it. */
    method DelNetDev(netDevName: string, removal: Removal) returns (ok: bool)
      requires Valid()
      modifies files
      ensures Valid() && Maps() == old(Maps())
      ensures var deletion := if bpfMapPinEnable then Delete(old(files.View()), PathOf(Maps(), netDevName), removal)
                              else Deletion(old(files.View()), false);
              files.View() == deletion.fs && ok == deletion.ok
    {
      if !bpfMapPinEnable {
        return false;
      }
      var found := false;
      var pm := 0;
      while pm < |mapManagers|
        invariant 0 <= pm <= |mapManagers| && !found && files.View() == old(files.View())
        invariant forall m | 0 <= m < pm :: netDevName !in Maps()[m]
      {
        var path := mapManagers[pm].GetBPFFS(netDevName);
        if path.Some? {
          found := true;
          break;
        }
        pm := pm + 1;
      }
      LookupFirst(Maps(), netDevName, pm);
      if !found {
        return false;
      }
      assert Maps()[pm] == mapManagers[pm].maps.value;
      ok := mapManagers[pm].DeleteBPFFS(netDevName, removal);
    }
  }
}
