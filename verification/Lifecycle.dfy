// What pool assignment means for the mounts and the servers of the pools: where the parts of the plugin rely on each
// other.

module Lifecycle {
  import opened PoolModel
  import opened PoolRuns
  import opened BpfMaps
  import opened DevicePlugin
  import opened Allocation
  import opened PoolManagers

  /** The device names of every pool. */
  function PoolNames(runs: seq<PoolRun>): (pools: seq<set<string>>)
    ensures |pools| == |runs| && forall k | 0 <= k < |runs| :: pools[k] == runs[k].out.Keys
  {
    seq(|runs|, k requires 0 <= k < |runs| => runs[k].out.Keys)
  }

  function ConfigNames(configs: seq<PoolConfig>): (pools: seq<set<string>>)
    ensures |pools| == |configs| && forall k | 0 <= k < |configs| :: pools[k] == configs[k].devices.Keys
  {
    seq(|configs|, k requires 0 <= k < |configs| => configs[k].devices.Keys)
  }

  /** Every history of mounts over the pools keeps to one pool for each device. */
  ghost predicate KeepsDevicesApart(pools: seq<set<string>>) {
    forall run: seq<Entry> | BpfMaps.Run(run) && FromPools(run, pools) :: OwnedDevices(run)
  }

  /**
   On a given host, no configuration, iteration order and history of allocations and deletions ever serves one device
   from two pools if and only if no host device is named like another's subfunction.
   */
  lemma DevicesApartExactly(node: Node, start: World)
    requires PoolModel.Fresh(start)
    ensures (forall runs: seq<PoolRun> | ValidRun(node, start, runs) :: KeepsDevicesApart(PoolNames(runs)))
            <==> !exists host: string, i: nat :: Clash(start, host, i)
  {
    NamesExclusiveExactly(node, start);
    forall runs: seq<PoolRun> | ValidRun(node, start, runs)
      ensures KeepsDevicesApart(PoolNames(runs)) <==> NamesExclusive(runs)
    {
      OwnedExactly(PoolNames(runs));
    }
  }

  /** The same for the pools that the engine emitted. */
  lemma EmittedPoolsOwn(engine: Engine, start: World, configs: seq<PoolConfig>, runs: seq<PoolRun>, at: seq<nat>,
                        history: seq<Entry>)
    requires engine.SoFar(start, configs, runs, at) && PoolModel.Fresh(start)
    requires !exists host: string, i: nat :: Clash(start, host, i)
    requires FromPools(history, ConfigNames(configs))
    ensures OwnedDevices(history)
  {
    var pools := ConfigNames(configs);
    forall i, j | 0 <= i < j < |pools| ensures pools[i] !! pools[j] {
      engine.ConfigNamesExclusive(start, configs, runs, at, i, j);
    }
    DisjointPoolsOwn(history, pools);
  }

  /** A request that a pool's manager serves keeps the history within the emitted pools. */
  lemma RequestKeepsOwned(engine: Engine, start: World, configs: seq<PoolConfig>, runs: seq<PoolRun>, at: seq<nat>,
                          manager: PoolManager, pool: nat, udsPath: string, host: Host, requests: seq<seq<string>>,
                          history: seq<Entry>, sys: Sys)
    returns (entries: seq<Entry>)
    requires engine.SoFar(start, configs, runs, at) && PoolModel.Fresh(start)
    requires !exists host: string, i: nat :: Clash(start, host, i)
    requires pool < |configs| && manager.devices == configs[pool].devices && AllKnown(manager.Views(), requests)
    requires pool < |sys.maps| == |sys.bases| && sys.bases[pool] == manager.manager.bpffsPath
    requires BpfMaps.Run(history) && if history == [] then Started(sys) else sys == SysAt(history, |history|)
    requires FromPools(history, ConfigNames(configs))
    ensures BpfMaps.Run(history + entries) && OwnedDevices(history + entries)
    ensures FromPools(history + entries, ConfigNames(configs))
    ensures var q := AllocateAll(manager.SettingsFor(udsPath), manager.Views(), host, requests, sys.fs,
                                 sys.maps[pool]).progress;
      if history + entries == [] then sys == At(sys, pool, q)
      else SysAt(history + entries, |history + entries|) == At(sys, pool, q)
  {
    entries := AllocationContinuesRun(manager.SettingsFor(udsPath), manager.Views(), host, requests, history, sys,
                                      pool);
    RequestStaysInPool(manager.Views(), requests, history, entries, pool, ConfigNames(configs));
    EmittedPoolsOwn(engine, start, configs, runs, at, history + entries);
  }

  /**
   The servers of two emitted pools can get to know a common device if and only if the pools share a name; on a host
   without a clash they never do.
   */
  lemma EmittedServersApart(engine: Engine, start: World, configs: seq<PoolConfig>, runs: seq<PoolRun>, at: seq<nat>,
                            i: nat, j: nat, one: PoolManager, two: PoolManager, path: string, path': string)
    requires engine.SoFar(start, configs, runs, at) && PoolModel.Fresh(start) && i < j < |configs|
    requires ManagerOf(one, configs[i]) && ManagerOf(two, configs[j])
    requires !one.udsServerDisable && !two.udsServerDisable
    ensures (forall host, requests, fs, maps, host', requests', fs', maps' |
               AllKnown(one.Views(), requests) && AllKnown(two.Views(), requests') ::
               Served(one.SettingsFor(path), one.Views(), host, requests, fs, maps)
               !! Served(two.SettingsFor(path'), two.Views(), host', requests', fs', maps'))
            <==> configs[i].devices.Keys !! configs[j].devices.Keys
    ensures (!exists h: string, num: nat :: Clash(start, h, num)) ==>
              configs[i].devices.Keys !! configs[j].devices.Keys
  {
    ManagerIsPrepared(engine, start, configs, runs, at, i, one, path);
    ManagerIsPrepared(engine, start, configs, runs, at, j, two, path');
    ServersApartExactly(one.SettingsFor(path), one.Views(), two.SettingsFor(path'), two.Views());
    if !exists h: string, num: nat :: Clash(start, h, num) {
      engine.ConfigNamesExclusive(start, configs, runs, at, i, j);
    }
  }

  ghost predicate ManagerOf(m: PoolManager, config: PoolConfig)
    reads m.manager
  {
    m.name == config.name && m.mode == config.mode && m.devices == config.devices && m.manager.maps.Some?
  }

  lemma ManagerIsPrepared(engine: Engine, start: World, configs: seq<PoolConfig>, runs: seq<PoolRun>, at: seq<nat>,
                          k: nat, m: PoolManager, path: string)
    requires engine.SoFar(start, configs, runs, at) && PoolModel.Fresh(start) && k < |configs|
    requires ManagerOf(m, configs[k])
    ensures Prepared(m.SettingsFor(path), m.Views()) && m.Views().Keys == configs[k].devices.Keys
  {
    forall n | n in configs[k].devices ensures Ready(configs[k].devices[n], n, configs[k].mode) {
      engine.ConfigReady(start, configs, runs, at, k, n);
    }
    m.EmittedPoolIsPrepared(configs[k], path);
  }
}
