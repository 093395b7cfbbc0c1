// internal/deviceplugin/poolManager.go: the pool manager object and its Allocate, proved against
// Allocation.

module PoolManagers {
  import opened Options
  import opened Text
  import opened Constants
  import opened PoolModel
  import opened Networking
  import opened DevicePlugin
  import opened BpfMaps
  import opened MapManagers
  import opened UdsServer
  import opened Allocation

  class PoolManager {
    const name: string
    const mode: Mode
    const devices: map<string, Device>
    const udsServerDisable: bool
    const bpfMapPinningEnable: bool
    const manager: MapManager

    /** NewPoolManager, with the map manager that Init attaches. */
    constructor (config: PoolConfig, manager: MapManager)
      ensures name == config.name && mode == config.mode && devices == config.devices
      ensures udsServerDisable == config.udsServerDisable && bpfMapPinningEnable == config.bpfMapPinningEnable
      ensures this.manager == manager
    {
      name := config.name;
      mode := config.mode;
      devices := config.devices;
      udsServerDisable := config.udsServerDisable;
      bpfMapPinningEnable := config.bpfMapPinningEnable;
      this.manager := manager;
    }

    /** Devices are keyed by their names, and the name of a subfunction holds its number. */
    ghost predicate Valid()
      reads this, manager
    {
      && manager.maps.Some?
      && forall n | n in devices :: devices[n].name == n && (devices[n].IsPrimary() || Contains(n, "sf"))
    }

    static function ViewOf(device: Device): View
      reads device
    {
      View(device.primary.name, device.mode, device.driver)
    }

    function Views(): map<string, View>
      reads devices.Values
    {
      map n | n in devices :: ViewOf(devices[n])
    }

    function SettingsFor(udsPath: string): Settings {
      Settings(name, mode, !udsServerDisable, udsPath, bpfMapPinningEnable, manager.bpffsPath)
    }

    /** The state of an allocation in progress. */
    ghost function Now(server: Server?, mounts: seq<Mount>, error: Option<AllocateError>): Progress
      requires manager.maps.Some?
      reads manager, manager.files, server
    {
      Progress(if server == null then map[] else server.devices, manager.files.View(), manager.maps.value, mounts,
               error)
    }

    /** The checks and the activation that precede cycling the device. */
    method ActivateDevice(device: Device, host: Host, n: nat) returns (error: Option<AllocateError>)
      requires device.IsPrimary() || Contains(device.name, "sf")
      ensures error == Activate(SettingsFor(""), host, n, device.name, ViewOf(device))
      ensures device.mode != mode ==> error == Some(WrongMode)
      ensures device.mode == mode == Primary ==> error == None
      ensures device.mode == mode == Cdq && (device.name == device.primary.name || device.driver !in CDQ_DRIVERS) ==>
                error == Some(ActivationRefused)
      ensures device.mode == mode == Cdq && device.name != device.primary.name && device.driver in CDQ_DRIVERS ==>
                error == if host.activation(n).present == Some(true) then None
                         else if host.activation(n).pci.None? || host.activation(n).pfnum.None?
                                 || !host.activation(n).created then Some(ActivationFailed)
                         else None
      ensures device.mode == mode && mode != Primary && mode != Cdq ==> error == Some(AllocateError.UnsupportedMode)
    {
      if device.mode != mode {
        return Some(WrongMode);
      }
      match mode {
        case Primary =>
          return None;
        case Cdq =>
          var r := device.ActivateCdqSubfunction(host.activation(n));
          if r.IsAPrimary? || r.NoCdqDriver? || r.NotInCdqMode? {
            return Some(ActivationRefused);
          }
          if r.Failed() {
            return Some(ActivationFailed);
          }
          return None;
        case _ =>
          return Some(AllocateError.UnsupportedMode);
      }
    }

    /** The outcome of loading and pinning: the error, the file system, the map entry and the mount of the map. */
    ghost predicate LoadedAndPinned(devName: string, host: Host, n: nat, mounts: seq<Mount>, mounts': seq<Mount>,
                                    error: Option<AllocateError>, creation: Creation, files: Fs,
                                    maps: map<string, string>)
      reads manager, manager.files
    {
      && (!udsServerDisable && host.descriptor(n) <= 0 ==>
            && error == Some(NoProgram) && manager.files.View() == files && manager.maps == Some(maps)
            && mounts' == mounts)
      && (udsServerDisable || host.descriptor(n) > 0 ==>
            if !bpfMapPinningEnable then
              error == None && manager.files.View() == files && manager.maps == Some(maps) && mounts' == mounts
            else
              && manager.files.View() == creation.fs
              && (error == None <==> creation.path.Some? && host.pins(n))
              && (creation.path.None? ==> error == Some(NoBpffs))
              && (creation.path.Some? && !host.pins(n) ==> error == Some(NotPinned))
              && (error == None ==>
                    && manager.maps == Some(maps[devName := creation.path.value])
                    && mounts' == mounts + [Mount(creation.path.value + XSK_MAP,
                                                  BPF_MAP_POD_PATH + devName + XSK_MAP)])
              && (error != None ==> manager.maps == Some(maps) && mounts' == mounts))
    }

    /** Loads the program on a cycled device, hands its descriptor to the server and pins its map. */
    method LoadAndPin(devName: string, host: Host, n: nat, server: Server?, udsPath: string, mounts: seq<Mount>)
      returns (mounts': seq<Mount>, error: Option<AllocateError>)
      requires Valid() && (server == null <==> udsServerDisable)
      modifies server, manager`maps, manager.files
      ensures Valid()
      ensures Now(server, mounts', error)
           == LoadPin(SettingsFor(udsPath), host, n, devName, old(Now(server, mounts, None)))
      ensures LoadedAndPinned(devName, host, n, mounts, mounts', error, Create(old(manager.files.View()),
                              manager.bpffsPath, host.trial(n)), old(manager.files.View()), old(manager.maps.value))
      ensures server != null ==>
                server.devices == if host.descriptor(n) <= 0 then old(server.devices)
                                  else old(server.devices)[devName := host.descriptor(n)]
    {
      mounts' := mounts;
      if !udsServerDisable {
        var fd := host.descriptor(n);
        if fd <= 0 {
          return mounts', Some(NoProgram);
        }
        server.AddDevice(devName, fd);
      }
      if bpfMapPinningEnable {
        var pinPath := manager.CreateBPFFS(host.trial(n));
        if pinPath.None? {
          return mounts', Some(NoBpffs);
        }
        if !host.pins(n) {
          return mounts', Some(NotPinned);
        }
        manager.AddMap(devName, pinPath.value);
        mounts' := mounts' + [Mount(pinPath.value + XSK_MAP, BPF_MAP_POD_PATH + devName + XSK_MAP)];
      }
      error := None;
    }

    /** The body of the device loop. */
    method AllocateOne(devName: string, host: Host, n: nat, server: Server?, udsPath: string, mounts: seq<Mount>)
      returns (mounts': seq<Mount>, error: Option<AllocateError>)
      requires Valid() && devName in devices && (server == null <==> udsServerDisable)
      modifies server, manager`maps, manager.files
      ensures Valid()
      ensures Now(server, mounts', error)
           == AllocateDevice(SettingsFor(udsPath), host, n, devName, ViewOf(devices[devName]),
                             old(Now(server, mounts, None)))
      ensures var sockets := if udsServerDisable then [] else [Mount(udsPath, POD_PATH + devName + SOCK_NAME)];
        && mounts + sockets <= mounts'
        && (!host.cycles(n) ==>
              && mounts' == mounts + sockets && manager.files.View() == old(manager.files.View())
              && manager.maps == old(manager.maps) && (server != null ==> server.devices == old(server.devices)))
    {
      var device := devices[devName];
      mounts' := mounts;
      if !udsServerDisable {
        mounts' := mounts' + [Mount(udsPath, POD_PATH + device.name + SOCK_NAME)];
      }
      error := ActivateDevice(device, host, n);
      if error.None? && host.cycles(n) {
        mounts', error := LoadAndPin(device.name, host, n, server, udsPath, mounts');
      }
    }

    /** The first i devices are done, and the others lead to the result. */
    ghost predicate DevicesLeft(result: Progress, ids: seq<string>, i: nat, host: Host, n: nat, server: Server?,
                                udsPath: string, mounts: seq<Mount>, known: map<string, View>)
      reads this, manager, manager.files, server
    {
      && manager.maps.Some? && Known(known, ids) && i <= |ids|
      && result == AllocateDevices(SettingsFor(udsPath), known, host, n + i, ids[i..], Now(server, mounts, None))
    }

    /** One round of the device loop; `result` is what the loop has to do. */
    method AllocateNth(ids: seq<string>, i: nat, host: Host, n: nat, server: Server?, udsPath: string,
                       mounts: seq<Mount>, ghost known: map<string, View>, ghost result: Progress)
      returns (mounts': seq<Mount>, error: Option<AllocateError>)
      requires Valid() && Views() == known && Known(known, ids) && i < |ids| && (server == null <==> udsServerDisable)
      requires DevicesLeft(result, ids, i, host, n, server, udsPath, mounts, known)
      modifies server, manager`maps, manager.files
      ensures Valid() && Views() == known
      ensures error.Some? ==> result == Now(server, mounts', error)
      ensures error.None? ==> DevicesLeft(result, ids, i + 1, host, n, server, udsPath, mounts', known)
    {
      DevicesFrom(SettingsFor(udsPath), known, host, n, ids, i, Now(server, mounts, None));
      mounts', error := AllocateOne(ids[i], host, n + i, server, udsPath, mounts);
    }

    /** The device loop of one container. */
    method AllocateContainer(ids: seq<string>, host: Host, n: nat, server: Server?, udsPath: string,
                             ghost known: map<string, View>)
      returns (mounts: seq<Mount>, error: Option<AllocateError>)
      requires Valid() && Views() == known && Known(known, ids) && (server == null <==> udsServerDisable)
      modifies server, manager`maps, manager.files
      ensures Valid() && Views() == known
      ensures Now(server, mounts, error)
           == AllocateDevices(SettingsFor(udsPath), known, host, n, ids, old(Now(server, [], None)))
    {
      mounts, error := [], None;
      ghost var result := AllocateDevices(SettingsFor(udsPath), known, host, n, ids, Now(server, [], None));
      assert ids[0..] == ids;
      for i := 0 to |ids|
        invariant Valid() && error.None? && Views() == known
        invariant DevicesLeft(result, ids, i, host, n, server, udsPath, mounts, known)
      {
        mounts, error := AllocateNth(ids, i, host, n, server, udsPath, mounts, known, result);
        if error.Some? {
          return;
        }
      }
    }

    /** The first i containers are done, with n devices, and the others lead to the total. */
    ghost predicate ContainersLeft(total: Total, requests: seq<seq<string>>, i: nat, host: Host, n: nat,
                                   server: Server?, udsPath: string, responses: seq<ContainerResponse>,
                                   mounts: seq<Mount>, known: map<string, View>)
      reads this, manager, manager.files, server
    {
      && manager.maps.Some? && AllKnown(known, requests) && i <= |requests|
      && total == Continued(responses, AllocateContainers(SettingsFor(udsPath), known, host, n, requests[i..],
                                                          Now(server, mounts, None)))
    }

    /** One round of the container loop; `n` counts the devices before it and `total` is what the loop has to do. */
    method AllocateNthContainer(requests: seq<seq<string>>, i: nat, host: Host, n: nat, server: Server?,
                                udsPath: string,
                                responses: seq<ContainerResponse>, ghost mounts: seq<Mount>,
                                ghost known: map<string, View>, ghost total: Total)
      returns (responses': seq<ContainerResponse>, error: Option<AllocateError>, ghost mounts': seq<Mount>, n': nat)
      requires Valid() && Views() == known && AllKnown(known, requests) && i < |requests|
      requires server == null <==> udsServerDisable
      requires ContainersLeft(total, requests, i, host, n, server, udsPath, responses, mounts, known)
      modifies server, manager`maps, manager.files
      ensures Valid() && Views() == known
      ensures error.Some? ==> total == Total(Now(server, mounts', error), responses')
      ensures error.None? ==>
                ContainersLeft(total, requests, i + 1, host, n', server, udsPath, responses', mounts', known)
    {
      ContinuedFrom(SettingsFor(udsPath), known, host, n, requests, i, Now(server, mounts, None), responses);
      var found;
      found, error := AllocateContainer(requests[i], host, n, server, udsPath, known);
      mounts' := found;
      n' := n + |requests[i]|;
      if error.Some? {
        return responses, error, mounts', n';
      }
      var envs := map[ENV_VAR_PREFIX + Upper(name) := Join(requests[i], " ")];
      responses' := responses + [ContainerResponse(found, envs)];
    }

    /** The container loop. */
    method AllocateRequests(requests: seq<seq<string>>, host: Host, server: Server?, udsPath: string,
                            ghost known: map<string, View>)
      returns (responses: seq<ContainerResponse>, error: Option<AllocateError>, ghost mounts: seq<Mount>)
      requires Valid() && Views() == known && AllKnown(known, requests) && (server == null <==> udsServerDisable)
      modifies server, manager`maps, manager.files
      ensures Valid()
      ensures Total(Now(server, mounts, error), responses)
           == AllocateContainers(SettingsFor(udsPath), known, host, 0, requests, old(Now(server, [], None)))
    {
      responses, error, mounts := [], None, [];
      ghost var total := AllocateContainers(SettingsFor(udsPath), known, host, 0, requests, Now(server, [], None));
      var n: nat := 0;
      ContinuedFromStart(SettingsFor(udsPath), known, host, requests, Now(server, [], None));
      for i := 0 to |requests|
        invariant Valid() && error.None? && Views() == known
        invariant ContainersLeft(total, requests, i, host, n, server, udsPath, responses, mounts, known)
      {
        responses, error, mounts, n := AllocateNthContainer(requests, i, host, n, server, udsPath, responses, mounts,
                                                            known, total);
        if error.Some? {
          return;
        }
      }
      ContinuedToEnd(SettingsFor(udsPath), known, host, n, requests, Now(server, mounts, None), responses);
    }

    /** The server of a request, unless the pool has none; null is CreateServer's error as well. */
    method MakeServer(udsPath: Option<string>, outside: Outside) returns (server: Server?)
      ensures server == null <==> udsServerDisable || udsPath.None?
      ensures server != null ==>
                && fresh(server) && server.devices == map[] && server.outside == outside
                && server.deviceType == DEVICE_PREFIX + "/" + name
    {
      server := null;
      if !udsServerDisable && udsPath.Some? {
        server := new Server(DEVICE_PREFIX + "/" + name, outside);
      }
    }

    /** The request once its server, if it has one, has been made. */
    method AllocateWith(requests: seq<seq<string>>, host: Host, server: Server?, udsPath: string)
      returns (responses: seq<ContainerResponse>, error: Option<AllocateError>)
      requires Valid() && AllKnown(Views(), requests)
      requires (server == null <==> udsServerDisable) && (server != null ==> server.devices == map[])
      modifies server, manager`maps, manager.files
      ensures Valid() && VariablesNamed(responses, requests, name)
      ensures var t := AllocateAll(SettingsFor(udsPath), old(Views()), host, requests, old(manager.files.View()),
                                   old(manager.maps.value));
        && responses == t.responses && error == t.progress.error
        && manager.files.View() == t.progress.fs && manager.maps == Some(t.progress.maps)
        && (server != null ==> server.devices == t.progress.served)
    {
      ghost var mounts;
      ghost var known := Views();
      responses, error, mounts := AllocateRequests(requests, host, server, udsPath, known);
      AllVariablesNamed(SettingsFor(udsPath), known, host, requests, old(manager.files.View()),
                        old(manager.maps.value));
    }

    /** `udsPath` is the socket path CreateServer makes, None its error; the server, if any, is to be started. */
    method Allocate(requests: seq<seq<string>>, host: Host, udsPath: Option<string>, outside: Outside)
      returns (responses: seq<ContainerResponse>, error: Option<AllocateError>, server: Server?)
      requires Valid() && AllKnown(Views(), requests)
      modifies manager`maps, manager.files
      ensures Valid()
      ensures !udsServerDisable && udsPath.None? ==>
                && error == Some(NoServer) && responses == [] && server == null
                && manager.maps == old(manager.maps) && manager.files.View() == old(manager.files.View())
      ensures udsServerDisable || udsPath.Some? ==>
                var path := if udsPath.Some? then udsPath.value else "";
                var t := AllocateAll(SettingsFor(path), Views(), host, requests,
                                     old(manager.files.View()), old(manager.maps.value));
                && responses == t.responses && error == t.progress.error
                && manager.files.View() == t.progress.fs && manager.maps == Some(t.progress.maps)
                && (server == null <==> udsServerDisable || error.Some?)
                && (server != null ==>
                      && fresh(server) && server.outside == outside
                      && server.deviceType == DEVICE_PREFIX + "/" + name && server.devices == t.progress.served)
      ensures VariablesNamed(responses, requests, name)
    {
      server := MakeServer(udsPath, outside);
      if !udsServerDisable && server == null {
        return [], Some(NoServer), null;
      }
      var path := if udsPath.Some? then udsPath.value else "";
      responses, error := AllocateWith(requests, host, server, path);
      if error.Some? {
        server := null;
      }
    }

    /** A pool that GetPoolConfigs emitted meets what Allocate requires, and its guards cannot fire. */
    lemma EmittedPoolIsPrepared(config: PoolConfig, udsPath: string)
      requires name == config.name && mode == config.mode && devices == config.devices && manager.maps.Some?
      requires forall n | n in config.devices :: Ready(config.devices[n], n, config.mode)
      ensures Valid() && Prepared(SettingsFor(udsPath), Views())
    {
      forall n | n in devices ensures devices[n].IsPrimary() || Contains(n, "sf") {
        assert Ready(devices[n], n, mode);
        if mode == Cdq {
          var i: nat :| 1 <= i <= SECONDARY_MAX && n == SfName(devices[n].primary.name, i);
          assert OccursAt(n, "sf", |devices[n].primary.name|);
        }
      }
      forall n | n in Views() ensures var v := Views()[n];
        && v.mode == mode && (mode == Primary || mode == Cdq)
        && (mode == Cdq ==> v.driver in CDQ_DRIVERS && v.primary != n)
      {
        assert Ready(devices[n], n, mode);
      }
    }
  }
}
