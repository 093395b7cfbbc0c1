// internal/deviceplugin/config.go: building the device pools from the configuration.

module DevicePlugin {
  import opened Options
  import opened Text
  import opened Constants
  import opened Tools
  import opened PoolModel
  import opened PoolTheorems
  import opened PoolRuns
  import opened Networking

  /** configFile_Pool: GetPoolConfigs rewrites its devices, drivers and timeout. */
  class ConfigPool {
    const name: string
    const mode: Mode
    const nodes: seq<ConfigNode>
    const requiresUnprivilegedBpf: bool
    const udsServerDisable: bool
    const bpfMapPinningEnable: bool
    var devices: seq<ConfigDevice>
    var drivers: seq<ConfigDriver>
    var udsTimeout: int

    constructor (pool: Pool)
      ensures Snapshot() == pool
    {
      name := pool.name;
      mode := pool.mode;
      nodes := pool.nodes;
      requiresUnprivilegedBpf := pool.requiresUnprivilegedBpf;
      udsServerDisable := pool.udsServerDisable;
      bpfMapPinningEnable := pool.bpfMapPinningEnable;
      devices := pool.devices;
      drivers := pool.drivers;
      udsTimeout := pool.udsTimeout;
    }

    function Snapshot(): Pool
      reads this
    {
      Pool(name, mode, devices, drivers, nodes, udsTimeout, requiresUnprivilegedBpf, udsServerDisable,
           bpfMapPinningEnable)
    }
  }

  datatype PoolConfig = PoolConfig(
    name: string, mode: Mode, devices: map<string, Device>,
    udsServerDisable: bool, bpfMapPinningEnable: bool, udsTimeout: int)

  /** What Allocate relies on when it is handed a device of a pool. */
  ghost predicate Ready(dev: Device, name: string, mode: Mode)
    reads dev
  {
    && dev.name == name && dev.fullyAssigned && dev.mode == mode
    && (mode == Primary || mode == Cdq)
    && (mode == Primary ==> dev.IsPrimary())
    && (mode == Cdq ==> dev.driver in CDQ_DRIVERS && !dev.IsPrimary()
                        && exists i: nat :: 1 <= i <= SECONDARY_MAX && name == SfName(dev.primary.name, i))
  }

  /** getDeviceList and getExcludedDeviceList. */
  method DeviceNames(entries: seq<ConfigDevice>) returns (list: seq<string>)
    ensures |list| == |entries| && forall k | 0 <= k < |entries| :: list[k] == entries[k].DeviceName()
    ensures forall n :: n in list <==> Listed(entries, n)
  {
    list := [];
    for i := 0 to |entries|
      invariant |list| == i && forall k | 0 <= k < i :: list[k] == entries[k].DeviceName()
    {
      list := list + [entries[i].DeviceName()];
    }
  }

  /**
   The host devices after discovery, and the operations of the plugin on them. `world` and `subs` are
   the specification's view: the assignment state and the subfunction objects of every host device.
   */
  class Engine {
    const hostDevices: map<string, Device>
    const node: Node
    ghost var world: World
    ghost var subs: map<string, seq<Device>>
    ghost var repr: set<Device>

    ghost predicate DeviceOk(n: string)
      requires n in hostDevices && n in world && n in subs
      reads this, repr
    {
      var d := hostDevices[n];
      && d in repr && (forall i | 0 <= i < |subs[n]| :: subs[n][i] in repr)
      && d.secondaries == subs[n]
      && d.name == n && d.View() == world[n] && d.Valid()
    }

    /** Every subfunction belongs to its own host device, so different devices share no objects. */
    static ghost predicate Owned(hostDevices: map<string, Device>, subs: map<string, seq<Device>>) {
      && subs.Keys == hostDevices.Keys
      && (forall n | n in hostDevices :: hostDevices[n].name == n && hostDevices[n].primary == hostDevices[n])
      && (forall n, i | n in subs && 0 <= i < |subs[n]| ::
            subs[n][i].primary == hostDevices[n] && subs[n][i] != hostDevices[n])
    }

    static lemma OwnedUpdate(hostDevices: map<string, Device>, subs: map<string, seq<Device>>, h: string,
                             s: seq<Device>)
      requires Owned(hostDevices, subs) && h in hostDevices
      requires forall i | 0 <= i < |s| :: s[i].primary == hostDevices[h] && s[i] != hostDevices[h]
      ensures Owned(hostDevices, subs[h := s])
    {
    }

    ghost predicate Valid()
      reads this, repr
    {
      && Owned(hostDevices, subs)
      && world.Keys == hostDevices.Keys == subs.Keys
      && forall n | n in hostDevices :: DeviceOk(n)
    }

    /** Wraps the devices that discovery found. */
    constructor (hostDevices: map<string, Device>, node: Node)
      requires forall n | n in hostDevices ::
                 hostDevices[n].name == n && hostDevices[n].Valid() && hostDevices[n].mode == Unset
      ensures this.hostDevices == hostDevices && this.node == node
      ensures Valid() && Fresh(world)
      ensures repr == hostDevices.Values
    {
      this.hostDevices := hostDevices;
      this.node := node;
      world := map n | n in hostDevices :: hostDevices[n].View();
      subs := map n | n in hostDevices :: [];
      repr := hostDevices.Values;
    }

    /** Subfunctions, once created, stay. */
    static ghost predicate Kept(before: map<string, seq<Device>>, after: map<string, seq<Device>>) {
      forall n | n in before :: n in after && (before[n] == [] || after[n] == before[n])
    }

    static lemma KeptUpdate(before: map<string, seq<Device>>, h: string, s: seq<Device>)
      requires h in before && (before[h] == [] || before[h] == s)
      ensures Kept(before, before[h := s])
    {
    }

    static lemma KeptTransitive(a: map<string, seq<Device>>, b: map<string, seq<Device>>, c: map<string, seq<Device>>)
      requires Kept(a, b) && Kept(b, c)
      ensures Kept(a, c)
    {
    }

    /** The object a slot stands for. */
    ghost predicate Denotes(subs: map<string, seq<Device>>, dev: Device, s: Slot) {
      && s.host in hostDevices && s.host in subs
      && match s
         case Whole(h) => dev == hostDevices[h]
         case Sub(h, i) => 1 <= i <= |subs[h]| && dev == subs[h][i - 1]
    }

    /** A pool's device map holds the objects its slots stand for. */
    ghost predicate MapDenotes(subs: map<string, seq<Device>>, devices: map<string, Device>, out: map<string, Slot>) {
      && devices.Keys == out.Keys
      && forall n | n in devices :: Denotes(subs, devices[n], out[n])
    }

    /** Subfunctions already handed out keep denoting the same objects. */
    lemma StillDenotes(before: map<string, seq<Device>>, after: map<string, seq<Device>>,
                       devices: map<string, Device>, out: map<string, Slot>)
      requires MapDenotes(before, devices, out) && Kept(before, after)
      ensures MapDenotes(after, devices, out)
    {
      forall n | n in devices ensures Denotes(after, devices[n], out[n]) {
        assert Denotes(before, devices[n], out[n]);
      }
    }

    lemma WorldOk()
      requires Valid()
      ensures Inv(world) && Bounded(world)
    {
      forall h | h in world ensures PrimOk(world[h]) {
        assert DeviceOk(h);
      }
    }

    /** The specification's view agrees with the fields of the host devices. */
    lemma HostView()
      requires Valid()
      ensures world.Keys == hostDevices.Keys
      ensures forall h | h in hostDevices ::
                && world[h].driver == hostDevices[h].driver && world[h].fully == hostDevices[h].fullyAssigned
                && world[h].mode == hostDevices[h].mode
    {
      forall h | h in hostDevices ensures world[h] == hostDevices[h].View() {
        assert DeviceOk(h);
      }
    }

    static twostate predicate Untouched(d: Device)
      reads d
    {
      unchanged(d)
    }

    /** An operation on one host device and its subfunctions leaves all other devices as they were. */
    twostate lemma OthersOk(h: string)
      requires old(Valid()) && h in hostDevices && unchanged(this)
      requires forall d | d in repr && d != hostDevices[h] && d !in subs[h] :: Untouched(d)
      ensures forall n | n in hostDevices && n != h :: DeviceOk(n)
    {
      forall n | n in hostDevices && n != h ensures DeviceOk(n) {
        var d := hostDevices[n];
        assert old(DeviceOk(n));
        assert Untouched(d);
      }
    }

    /** Records the new state of one host device whose subfunction objects are the same as before. */
    ghost method Observe(h: string)
      requires h in hostDevices && world.Keys == hostDevices.Keys && Owned(hostDevices, subs)
      requires forall n | n in hostDevices && n != h :: DeviceOk(n)
      requires hostDevices[h] in repr && (forall i | 0 <= i < |subs[h]| :: subs[h][i] in repr)
      requires hostDevices[h].secondaries == subs[h] && hostDevices[h].Valid()
      modifies this`world
      ensures Valid()
      ensures world == old(world)[h := hostDevices[h].View()]
    {
      world := world[h := hostDevices[h].View()];
      forall n | n in hostDevices && n != h ensures DeviceOk(n) {
        assert old(DeviceOk(n));
      }
    }

    /** Records the subfunction objects of one host device after an operation on it. */
    ghost method AdoptObjects(h: string)
      requires h in hostDevices && world.Keys == hostDevices.Keys && Owned(hostDevices, subs)
      requires forall n | n in hostDevices && n != h :: DeviceOk(n)
      requires hostDevices[h] in repr && hostDevices[h].Valid()
      modifies this`subs, this`repr
      ensures Owned(hostDevices, subs) && forall n | n in hostDevices && n != h :: DeviceOk(n)
      ensures forall i | 0 <= i < |subs[h]| :: subs[h][i] in repr
      ensures subs == old(subs)[h := hostDevices[h].secondaries]
      ensures repr == old(repr) + set i | 0 <= i < |hostDevices[h].secondaries| :: hostDevices[h].secondaries[i]
    {
      var d := hostDevices[h];
      forall i | 0 <= i < |d.secondaries| ensures d.secondaries[i].primary == d && d.secondaries[i] != d {
        assert d.SecondaryOk(i);
      }
      OwnedUpdate(hostDevices, subs, h, d.secondaries);
      subs := subs[h := d.secondaries];
      repr := repr + set i | 0 <= i < |d.secondaries| :: d.secondaries[i];
      forall n | n in hostDevices && n != h ensures DeviceOk(n) {
        assert old(DeviceOk(n));
      }
    }

    /** Brings the specification's view of one host device up to date after an operation on it. */
    ghost method Adopt(h: string)
      requires h in hostDevices && world.Keys == hostDevices.Keys && Owned(hostDevices, subs)
      requires forall n | n in hostDevices && n != h :: DeviceOk(n)
      requires hostDevices[h] in repr && hostDevices[h].Valid()
      modifies this`world, this`subs, this`repr
      ensures Valid()
      ensures world == old(world)[h := hostDevices[h].View()]
      ensures subs == old(subs)[h := hostDevices[h].secondaries]
      ensures repr == old(repr) + set i | 0 <= i < |hostDevices[h].secondaries| :: hostDevices[h].secondaries[i]
    {
      AdoptObjects(h);
      Observe(h);
    }

    /** Whether a pool may use a device; with a driver, whether the driver's scan may pick it. */
    method ValidateDevice(device: Device, driver: Option<ConfigDriver>, pool: ConfigPool) returns (ok: bool)
      requires Valid() && (device.name in hostDevices ==> hostDevices[device.name] == device)
      ensures ok <==>
                && device.name in hostDevices && !device.fullyAssigned
                && (forall p | p in PROHIBITED :: !(p <= device.name))
                && (device.mode == Unset || device.mode == pool.mode)
                && (driver.Some? ==>
                      && (forall i | 0 <= i < |pool.devices| ::
                            (if pool.devices[i].name != "" then pool.devices[i].name else pool.devices[i].resolved)
                            != device.name)
                      && (forall i | 0 <= i < |driver.value.exclude| ::
                            (if driver.value.exclude[i].name != "" then driver.value.exclude[i].name
                             else driver.value.exclude[i].resolved) != device.name)
                      && (driver.value.excludeAddressed ==> device.name !in node.addressed))
      ensures device.name !in hostDevices ==> !ok
      ensures driver.None? ==> (ok <==> Admissible(world, pool.mode, device.name))
      ensures driver.Some? ==>
                (ok <==> && Admissible(world, pool.mode, device.name)
                         && !Listed(pool.devices, device.name)
                         && !Listed(driver.value.exclude, device.name)
                         && !(driver.value.excludeAddressed && device.name in node.addressed))
    {
      if device.name !in hostDevices {
        return false;
      }
      assert DeviceOk(device.name);
      if device.fullyAssigned {
        return false;
      }
      PrefixedExactly(PROHIBITED, device.name);
      var prohibited := ArrayContainsPrefix(PROHIBITED, device.name);
      if prohibited {
        return false;
      }
      if driver.Some? {
        var deviceList := DeviceNames(pool.devices);
        var configured := ArrayContains(deviceList, device.name);
        if configured {
          return false;
        }
        var excludedList := DeviceNames(driver.value.exclude);
        var excluded := ArrayContains(excludedList, device.name);
        if excluded {
          return false;
        }
        if driver.value.excludeAddressed && device.name in node.addressed {
          return false;
        }
      }
      if device.mode != Unset && device.mode != pool.mode {
        return false;
      }
      return true;
    }

    /** Looks up (and caches) the driver of one host device; an error yields the empty string. */
    method DriverOf(hostDev: Device) returns (driver: string)
      requires Valid() && hostDev.name in hostDevices && hostDevices[hostDev.name] == hostDev
      modifies this`world, hostDev`driver
      ensures Valid()
      ensures hostDev.name in world && driver == world[hostDev.name].driver
      ensures CacheOnly(old(world), world)
      ensures forall n | n in world && n != hostDev.name :: world[n] == old(world)[n]
    {
      var h := hostDev.name;
      assert DeviceOk(h);
      driver := hostDev.DriverOrEmpty();
      OthersOk(h);
      CacheOne(world, h, driver);
      Observe(h);
    }

    /** The loop body of the scan: may this device be picked? */
    method ScanOne(hostDev: Device, driver: ConfigDriver, pool: ConfigPool) returns (take: bool)
      requires Valid() && hostDev.name in hostDevices && hostDevices[hostDev.name] == hostDev
      modifies this`world, hostDev`driver
      ensures Valid() && CacheOnly(old(world), world)
      ensures forall n | n in world && n != hostDev.name :: world[n] == old(world)[n]
      ensures take <==> Scannable(node, world, pool.mode, pool.devices, driver, hostDev.name)
    {
      var hostDevDriver := DriverOf(hostDev);
      if hostDevDriver != driver.name {
        return false;
      }
      take := ValidateDevice(hostDev, Some(driver), pool);
    }

    /** One round of the scan: visits some device that is left and appends it to the list if it may be picked. */
    method ScanNext(driver: ConfigDriver, pool: ConfigPool, remaining: set<string>, devices: seq<ConfigDevice>,
                    ghost start: World)
      returns (rest: set<string>, devices': seq<ConfigDevice>, taken: bool)
      requires Valid() && remaining != {}
      requires Scanning(start, node, world, pool.mode, pool.devices, driver, remaining, devices)
      modifies this`world, hostDevices.Values`driver
      ensures Valid() && Scanning(start, node, world, pool.mode, pool.devices, driver, rest, devices')
      ensures rest < remaining && |devices'| == |devices| + if taken then 1 else 0
    {
      ghost var w := world;
      var name :| name in remaining;
      rest := remaining - {name};
      var hostDev := hostDevices[name];
      assert hostDev.name == name;
      taken := ScanOne(hostDev, driver, pool);
      ScanRound(start, node, w, world, pool.mode, pool.devices, driver, remaining, name, devices, taken);
      devices' := if taken then devices + [ConfigDevice(hostDev.name, "", driver.secondary)] else devices;
    }

    /** The result of a scan in terms of the device objects. */
    lemma ScannedDevices(driver: ConfigDriver, pool: ConfigPool, devices: seq<ConfigDevice>)
      requires Valid()
      requires ScanResult(devices, Eligible(node, world, pool.mode, pool.devices, driver), driver.primary,
                          driver.secondary)
      ensures driver.primary > 0 ==> |devices| <= driver.primary
      ensures forall j | 0 <= j < |devices| ::
        var h := devices[j].name;
        && devices[j] == ConfigDevice(h, "", driver.secondary)
        && h in hostDevices && hostDevices[h].driver == driver.name && !hostDevices[h].fullyAssigned
        && (hostDevices[h].mode == Unset || hostDevices[h].mode == pool.mode)
        && (forall p | p in PROHIBITED :: !(p <= h))
        && (forall i | 0 <= i < |pool.devices| ::
              (if pool.devices[i].name != "" then pool.devices[i].name else pool.devices[i].resolved) != h)
        && (forall i | 0 <= i < |driver.exclude| ::
              (if driver.exclude[i].name != "" then driver.exclude[i].name else driver.exclude[i].resolved) != h)
        && (driver.excludeAddressed ==> h !in node.addressed)
      ensures driver.primary <= 0 || |devices| < driver.primary ==>
        forall h |
          && h in hostDevices && hostDevices[h].driver == driver.name && !hostDevices[h].fullyAssigned
          && (hostDevices[h].mode == Unset || hostDevices[h].mode == pool.mode)
          && (forall p | p in PROHIBITED :: !(p <= h))
          && (forall i | 0 <= i < |pool.devices| ::
                (if pool.devices[i].name != "" then pool.devices[i].name else pool.devices[i].resolved) != h)
          && (forall i | 0 <= i < |driver.exclude| ::
                (if driver.exclude[i].name != "" then driver.exclude[i].name else driver.exclude[i].resolved) != h)
          && (driver.excludeAddressed ==> h !in node.addressed) ::
            exists j | 0 <= j < |devices| :: devices[j].name == h
    {
      HostView();
      PickedOnly(node, world, pool.mode, pool.devices, driver, devices);
      if driver.primary <= 0 || |devices| < driver.primary {
        PickedAll(node, world, pool.mode, pool.devices, driver, devices);
      }
    }

    /** The scanning loop. */
    method ScanHost(driver: ConfigDriver, pool: ConfigPool) returns (devices: seq<ConfigDevice>)
      requires Valid()
      modifies this`world, hostDevices.Values`driver
      ensures Valid() && CacheOnly(old(world), world)
      ensures ScanResult(devices, Eligible(node, world, pool.mode, pool.devices, driver), driver.primary,
                         driver.secondary)
    {
      devices := [];
      var deviceLimit := driver.primary;
      var deviceCount := 0;
      var counting := deviceLimit > 0;
      var remaining := hostDevices.Keys;
      while remaining != {}
        invariant Valid() && Scanning(old(world), node, world, pool.mode, pool.devices, driver, remaining, devices)
        invariant deviceCount == |devices| && (counting ==> deviceCount < deviceLimit)
        decreases remaining
      {
        var taken;
        remaining, devices, taken := ScanNext(driver, pool, remaining, devices, old(world));
        if !taken {
          continue;
        }
        deviceCount := deviceCount + 1;
        if counting && deviceCount >= deviceLimit {
          break;
        }
      }
      ScanFinished(node, world, pool.mode, pool.devices, driver, remaining, devices);
    }

    /** Scans the host map in an arbitrary order for devices of a driver. */
    method GetDeviceListOfDriverType(driver: ConfigDriver, pool: ConfigPool) returns (devices: seq<ConfigDevice>)
      requires Valid()
      modifies this`world, hostDevices.Values`driver
      ensures Valid() && CacheOnly(old(world), world)
      ensures ScanResult(devices, Eligible(node, world, pool.mode, pool.devices, driver), driver.primary,
                         driver.secondary)
      ensures driver.primary > 0 ==> |devices| <= driver.primary
      ensures forall j | 0 <= j < |devices| ::
        var h := devices[j].name;
        && devices[j] == ConfigDevice(h, "", driver.secondary)
        && h in hostDevices && hostDevices[h].driver == driver.name && !hostDevices[h].fullyAssigned
        && (hostDevices[h].mode == Unset || hostDevices[h].mode == pool.mode)
        && (forall p | p in PROHIBITED :: !(p <= h))
        && (forall i | 0 <= i < |pool.devices| ::
              (if pool.devices[i].name != "" then pool.devices[i].name else pool.devices[i].resolved) != h)
        && (forall i | 0 <= i < |driver.exclude| ::
              (if driver.exclude[i].name != "" then driver.exclude[i].name else driver.exclude[i].resolved) != h)
        && (driver.excludeAddressed ==> h !in node.addressed)
      ensures driver.primary <= 0 || |devices| < driver.primary ==>
        forall h |
          && h in hostDevices && hostDevices[h].driver == driver.name && !hostDevices[h].fullyAssigned
          && (hostDevices[h].mode == Unset || hostDevices[h].mode == pool.mode)
          && (forall p | p in PROHIBITED :: !(p <= h))
          && (forall i | 0 <= i < |pool.devices| ::
                (if pool.devices[i].name != "" then pool.devices[i].name else pool.devices[i].resolved) != h)
          && (forall i | 0 <= i < |driver.exclude| ::
                (if driver.exclude[i].name != "" then driver.exclude[i].name else driver.exclude[i].resolved) != h)
          && (driver.excludeAddressed ==> h !in node.addressed) ::
            exists j | 0 <= j < |devices| :: devices[j].name == h
    {
      devices := ScanHost(driver, pool);
      ScannedDevices(driver, pool, devices);
    }

    // ---------- Making a pool's devices real ----------

    /** Assigns a whole host device; null is the incompatible-mode error. */
    method AssignPrimaryEntry(h: string) returns (dev: Device?)
      requires Valid() && h in hostDevices
      modifies this`world, hostDevices[h]
      ensures Valid() && h in old(world)
      ensures match AsPrimary(old(world)[h])
              case None => dev == null && world == old(world)
              case Some(p) => dev == hostDevices[h] && world == old(world)[h := p]
    {
      assert DeviceOk(h);
      UpdateSame(world, h);
      dev := hostDevices[h].AssignAsPrimary();
      OthersOk(h);
      Observe(h);
    }

    /** Assigns subfunctions of a host device; None is an error. */
    method AssignCdqEntry(h: string, limit: int) returns (sfs: Option<seq<Device>>)
      requires Valid() && h in hostDevices
      modifies this, hostDevices[h], hostDevices[h].secondaries
      ensures Valid() && Kept(old(subs), subs)
      ensures old(repr) <= repr && forall o | o in repr && o !in old(repr) :: fresh(o)
      ensures h in old(world) && h in subs && old(world)[h].taken <= SECONDARY_MAX
      ensures match AsCdq(old(world)[h], limit)
              case None => sfs == None && world == old(world)
              case Some(p) =>
                && world == old(world)[h := p] && p.taken <= |subs[h]|
                && sfs == Some(subs[h][old(world)[h].taken..p.taken])
    {
      assert DeviceOk(h);
      var d := hostDevices[h];
      assert PrimOk(d.View());
      UpdateSame(world, h);
      sfs := d.AssignCdqSecondaries(limit);
      KeptUpdate(subs, h, d.secondaries);
      OthersOk(h);
      Adopt(h);
    }

    lemma AddsSub(subs: map<string, seq<Device>>, devices: map<string, Device>, out: map<string, Slot>, h: string,
                  first: nat, i: nat, sf: Device)
      requires h in hostDevices && h in subs && first <= i < |subs[h]| && sf == subs[h][i]
      requires sf.name == SfName(h, i + 1) && MapDenotes(subs, devices, AddSubs(out, h, first, i))
      ensures MapDenotes(subs, devices[sf.name := sf], AddSubs(out, h, first, i + 1))
    {
      var before := AddSubs(out, h, first, i);
      assert AddSubs(out, h, first, i + 1) == before[sf.name := Sub(h, i + 1)];
      forall n | n in devices ensures Denotes(subs, devices[n], before[n]) {
      }
    }

    /** Adds the newly assigned subfunctions to the device map, keyed by their names. */
    method AddDevices(secondaryDevices: map<string, Device>, sfs: seq<Device>, ghost subs: map<string, seq<Device>>,
                      ghost out: map<string, Slot>, ghost h: string, ghost first: nat, ghost last: nat)
      returns (devices: map<string, Device>)
      requires h in hostDevices && h in subs && first <= last <= |subs[h]| && sfs == subs[h][first..last]
      requires forall i | 0 <= i < |subs[h]| :: subs[h][i].name == SfName(h, i + 1)
      requires Valid() && MapDenotes(subs, secondaryDevices, out)
      ensures Valid() && MapDenotes(subs, devices, AddSubs(out, h, first, last))
    {
      devices := secondaryDevices;
      for i := 0 to |sfs|
        invariant MapDenotes(subs, devices, AddSubs(out, h, first, first + i))
      {
        var sf := sfs[i];
        AddsSub(subs, devices, out, h, first, first + i, sf);
        devices := devices[sf.name := sf];
      }
    }

    lemma AddsWhole(subs: map<string, seq<Device>>, devices: map<string, Device>, out: map<string, Slot>, h: string)
      requires h in hostDevices && h in subs && MapDenotes(subs, devices, out)
      ensures MapDenotes(subs, devices[h := hostDevices[h]], out[h := Whole(h)])
    {
      forall n | n in devices ensures Denotes(subs, devices[n], out[n]) {
      }
    }

    method AddPrimary(h: string, secondaryDevices: map<string, Device>, ghost out: map<string, Slot>)
      returns (devices: map<string, Device>, ghost out': map<string, Slot>)
      requires Valid() && h in hostDevices && MapDenotes(subs, secondaryDevices, out)
      modifies this`world, hostDevices[h]
      ensures Valid() && Bounded(old(world)) && MapDenotes(subs, devices, out')
      ensures Assigned(world, out') == AssignOne(Assigned(old(world), out), Primary, ConfigDevice(h, "", 0))
    {
      WorldOk();
      var dev := AssignPrimaryEntry(h);
      if dev == null {
        return secondaryDevices, out;
      }
      devices := secondaryDevices[dev.name := dev];
      out' := out[h := Whole(h)];
      AddsWhole(subs, secondaryDevices, out, h);
    }

    /** Takes subfunctions of a host device; what the pool already holds stays as it is. */
    method TakeSubfunctions(h: string, limit: int, ghost held: map<string, Device>, ghost out: map<string, Slot>)
      returns (sfs: Option<seq<Device>>)
      requires Valid() && h in hostDevices && MapDenotes(subs, held, out)
      modifies this, hostDevices[h], hostDevices[h].secondaries
      ensures Valid() && Kept(old(subs), subs) && MapDenotes(subs, held, out)
      ensures old(repr) <= repr && forall o | o in repr && o !in old(repr) :: fresh(o)
      ensures h in old(world) && old(world)[h].taken <= SECONDARY_MAX && h in subs
      ensures forall i | 0 <= i < |subs[h]| :: subs[h][i].name == SfName(h, i + 1)
      ensures match AsCdq(old(world)[h], limit)
              case None => sfs == None && world == old(world)
              case Some(p) =>
                && world == old(world)[h := p] && p.taken <= |subs[h]|
                && sfs == Some(subs[h][old(world)[h].taken..p.taken])
    {
      WorldOk();
      sfs := AssignCdqEntry(h, limit);
      StillDenotes(old(subs), subs, held, out);
      assert DeviceOk(h);
      forall i | 0 <= i < |subs[h]| ensures subs[h][i].name == SfName(h, i + 1) {
        assert hostDevices[h].SecondaryOk(i);
      }
    }

    method AddCdq(h: string, limit: int, secondaryDevices: map<string, Device>, ghost out: map<string, Slot>)
      returns (devices: map<string, Device>, ghost out': map<string, Slot>)
      requires Valid() && h in hostDevices && MapDenotes(subs, secondaryDevices, out)
      modifies this, hostDevices[h], hostDevices[h].secondaries
      ensures Valid() && Kept(old(subs), subs)
      ensures old(repr) <= repr && forall o | o in repr && o !in old(repr) :: fresh(o)
      ensures Bounded(old(world)) && MapDenotes(subs, devices, out')
      ensures Assigned(world, out') == AssignOne(Assigned(old(world), out), Cdq, ConfigDevice(h, "", limit))
    {
      WorldOk();
      var sfs := TakeSubfunctions(h, limit, secondaryDevices, out);
      if sfs.None? {
        return secondaryDevices, out;
      }
      ghost var first, last := old(world)[h].taken, world[h].taken;
      out' := AddSubs(out, h, first, last);
      devices := AddDevices(secondaryDevices, sfs.value, subs, out, h, first, last);
    }

    /** Processes one entry of the pool; `a` is what the specification has computed so far. */
    method AssignEntry(entry: ConfigDevice, mode: Mode, secondaryDevices: map<string, Device>, ghost a: Assigned)
      returns (devices: map<string, Device>, ghost b: Assigned)
      requires Valid() && Bounded(a.world)
      requires a.world == world && MapDenotes(subs, secondaryDevices, a.out)
      modifies this, repr
      ensures Valid() && Kept(old(subs), subs)
      ensures old(repr) <= repr && forall o | o in repr && o !in old(repr) :: fresh(o)
      ensures b == AssignOne(a, mode, entry) && b.world == world && MapDenotes(subs, devices, b.out)
    {
      devices, b := secondaryDevices, a;
      if entry.name in hostDevices {
        var h := entry.name;
        assert DeviceOk(h);
        ghost var out := a.out;
        match mode {
          case Primary =>
            devices, out := AddPrimary(h, devices, out);
          case Cdq =>
            devices, out := AddCdq(h, entry.secondary, devices, out);
          case _ =>
        }
        b := Assigned(world, out);
      }
    }

    /** Turns the pool's entries into device objects. */
    method GetSecondaryDevices(pool: ConfigPool) returns (secondaryDevices: map<string, Device>,
                               ghost out: map<string, Slot>)
      requires Valid()
      modifies this, repr
      ensures Valid() && Kept(old(subs), subs)
      ensures old(repr) <= repr && forall o | o in repr && o !in old(repr) :: fresh(o)
      ensures Bounded(old(world)) && AssignAll(old(world), pool.mode, pool.devices) == Assigned(world, out)
      ensures MapDenotes(subs, secondaryDevices, out)
    {
      secondaryDevices := map[];
      WorldOk();
      var entries := pool.devices;
      ghost var a := AssignAll(world, pool.mode, []);
      for i := 0 to |entries|
        invariant Valid() && Kept(old(subs), subs)
        invariant old(repr) <= repr && forall o | o in repr && o !in old(repr) :: fresh(o)
        invariant a == AssignAll(old(world), pool.mode, entries[..i])
        invariant a.world == world && MapDenotes(subs, secondaryDevices, a.out)
      {
        ghost var kept := subs;
        AssignAllStep(old(world), pool.mode, entries, i);
        secondaryDevices, a := AssignEntry(entries[i], pool.mode, secondaryDevices, a);
        KeptTransitive(old(subs), kept, subs);
      }
      assert entries[..|entries|] == entries;
      out := a.out;
    }

    // ---------- The pool loop ----------

    /** The node-specific devices and drivers replace the pool's own. */
    method ApplyNodeConfig(pool: ConfigPool)
      modifies pool`devices, pool`drivers
      ensures pool.devices == DevicesFor(old(pool.Snapshot()), node)
      ensures pool.drivers == DriversFor(old(pool.Snapshot()), node)
      ensures (forall k | 0 <= k < |pool.nodes| :: pool.nodes[k].hostname != node.hostname) ==>
                pool.devices == old(pool.devices) && pool.drivers == old(pool.drivers)
      ensures forall k | 0 <= k < |pool.nodes| && pool.nodes[k].hostname == node.hostname
                         && forall j | 0 <= j < k :: pool.nodes[j].hostname != node.hostname ::
                pool.devices == pool.nodes[k].devices && pool.drivers == pool.nodes[k].drivers
    {
      for i := 0 to |pool.nodes|
        invariant pool.devices == old(pool.devices) && pool.drivers == old(pool.drivers)
        invariant NodeConfig(pool.nodes, node.hostname) == NodeConfig(pool.nodes[i..], node.hostname)
        invariant forall k | 0 <= k < i :: pool.nodes[k].hostname != node.hostname
      {
        assert pool.nodes[i..][1..] == pool.nodes[i + 1..];
        if pool.nodes[i].hostname == node.hostname {
          pool.devices := pool.nodes[i].devices;
          pool.drivers := pool.nodes[i].drivers;
          return;
        }
      }
    }

    /** The body of the loop over the configured devices: is the device kept? */
    method IsConfigured(device: ConfigDevice, pool: ConfigPool) returns (ok: bool)
      requires Valid()
      ensures ok <==> device.DeviceName() != "" && Admissible(world, pool.mode, device.name)
      ensures ok <==>
                && (device.name != "" || device.resolved != "")
                && device.name in hostDevices && !hostDevices[device.name].fullyAssigned
                && (forall p | p in PROHIBITED :: !(p <= device.name))
                && (hostDevices[device.name].mode == Unset || hostDevices[device.name].mode == pool.mode)
    {
      ok := false;
      if device.DeviceName() != "" && device.name in hostDevices {
        assert DeviceOk(device.name);
        ok := ValidateDevice(hostDevices[device.name], None, pool);
      }
    }

    /** Keeps the explicitly configured devices that exist and may be used. */
    method ConfiguredDevices(pool: ConfigPool) returns (validDevices: seq<ConfigDevice>)
      requires Valid()
      ensures validDevices == ValidExplicit(world, pool.mode, pool.devices)
      ensures forall device :: device in validDevices <==>
                && device in pool.devices && (device.name != "" || device.resolved != "")
                && device.name in hostDevices && !hostDevices[device.name].fullyAssigned
                && (forall p | p in PROHIBITED :: !(p <= device.name))
                && (hostDevices[device.name].mode == Unset || hostDevices[device.name].mode == pool.mode)
    {
      validDevices := [];
      var entries := pool.devices;
      for i := 0 to |entries|
        invariant validDevices == ValidExplicit(world, pool.mode, entries[..i])
      {
        ValidExplicitStep(world, pool.mode, entries, i);
        var ok := IsConfigured(entries[i], pool);
        validDevices := validDevices + if ok then [entries[i]] else [];
      }
      assert entries[..|entries|] == entries;
      HostView();
      ExplicitExactly(world, pool.mode, entries);
    }

    /** The first n drivers of the pool have been scanned, as recorded. */
    ghost predicate Scanned(pool: ConfigPool, drivers: seq<ConfigDriver>, n: nat,
                            worlds: seq<World>, lists: seq<seq<ConfigDevice>>)
      reads this, repr, pool
    {
      && Valid()
      && DriverChain(node, pool.mode, drivers, n, worlds, lists)
      && worlds[n] == world && lists[n] == pool.devices
    }

    /** Scans for one driver and appends the result to the pool's devices. */
    method AppendScan(driver: ConfigDriver, pool: ConfigPool)
      requires Valid()
      modifies this`world, hostDevices.Values`driver, pool`devices
      ensures Valid()
      ensures DriverStep(node, pool.mode, driver, old(world), old(pool.devices), world, pool.devices)
    {
      var devices := GetDeviceListOfDriverType(driver, pool);
      MakeDriverStep(node, pool.mode, driver, old(world), pool.devices, world, devices);
      pool.devices := pool.devices + devices;
    }

    /** One scan, with the record kept of the scans before it. */
    method ScanDriver(drivers: seq<ConfigDriver>, i: nat, pool: ConfigPool,
                      ghost worlds: seq<World>, ghost lists: seq<seq<ConfigDevice>>)
      returns (ghost worlds': seq<World>, ghost lists': seq<seq<ConfigDevice>>)
      requires Scanned(pool, drivers, i, worlds, lists) && i < |drivers|
      modifies this`world, hostDevices.Values`driver, pool`devices
      ensures Scanned(pool, drivers, i + 1, worlds', lists')
      ensures worlds'[0] == worlds[0] && lists'[0] == lists[0]
    {
      AppendScan(drivers[i], pool);
      ExtendChain(node, pool.mode, drivers, i, worlds, lists, world, pool.devices);
      worlds', lists' := worlds + [world], lists + [pool.devices];
    }

    /** Scans for the pool's drivers one after the other, appending to its devices. */
    method ScanDrivers(pool: ConfigPool) returns (ghost worlds: seq<World>, ghost lists: seq<seq<ConfigDevice>>)
      requires Valid()
      modifies this`world, hostDevices.Values`driver, pool`devices
      ensures Scanned(pool, pool.drivers, |pool.drivers|, worlds, lists)
      ensures worlds[0] == old(world) && lists[0] == old(pool.devices)
    {
      worlds, lists := [world], [pool.devices];
      var drivers := pool.drivers;
      for i := 0 to |drivers|
        invariant Scanned(pool, drivers, i, worlds, lists)
        invariant worlds[0] == old(world) && lists[0] == old(pool.devices)
      {
        worlds, lists := ScanDriver(drivers, i, pool, worlds, lists);
      }
    }

    ghost predicate ConfigMatches(subs: map<string, seq<Device>>, config: PoolConfig, pool: Pool,
                                  out: map<string, Slot>) {
      && config.name == pool.name && config.mode == pool.mode
      && config.udsTimeout == TimeoutFor(pool.udsTimeout)
      && config.udsServerDisable == pool.udsServerDisable && config.bpfMapPinningEnable == pool.bpfMapPinningEnable
      && MapDenotes(subs, config.devices, out)
    }

    lemma HostInRepr()
      requires Valid()
      ensures hostDevices.Values <= repr
    {
      forall n | n in hostDevices ensures hostDevices[n] in repr {
        assert DeviceOk(n);
      }
    }

    /** Keeps the pool's validated entries only. */
    method KeepConfigured(pool: ConfigPool)
      requires Valid()
      modifies pool`devices
      ensures Valid() && pool.devices == ValidExplicit(world, pool.mode, old(pool.devices))
    {
      var validDevices := ConfiguredDevices(pool);
      pool.devices := validDevices;
    }

    /** Replaces the pool's entries by the validated ones and those its drivers' scans add. */
    method SelectDevices(pool: ConfigPool, ghost snapshot: Pool)
      returns (ghost worlds: seq<World>, ghost lists: seq<seq<ConfigDevice>>)
      requires Valid() && pool.Snapshot() == snapshot.(udsTimeout := pool.udsTimeout)
      modifies this`world, hostDevices.Values`driver, pool`devices, pool`drivers
      ensures Scanned(pool, DriversFor(snapshot, node), |DriversFor(snapshot, node)|, worlds, lists)
      ensures worlds[0] == old(world)
      ensures lists[0] == ValidExplicit(old(world), snapshot.mode, DevicesFor(snapshot, node))
    {
      ApplyNodeConfig(pool);
      KeepConfigured(pool);
      worlds, lists := ScanDrivers(pool);
    }

    /** Selects, validates and assigns the devices of a pool that is not skipped. */
    method BuildDevices(pool: ConfigPool, ghost snapshot: Pool) returns (devices: map<string, Device>, ghost r: PoolRun)
      requires Valid() && !Skipped(snapshot, node)
      requires pool.Snapshot() == snapshot.(udsTimeout := pool.udsTimeout)
      modifies this, repr, pool`devices, pool`drivers
      ensures Valid() && Kept(old(subs), subs)
      ensures old(repr) <= repr && forall o | o in repr && o !in old(repr) :: fresh(o)
      ensures r.pool == snapshot && r.pre == old(world) && r.post == world
      ensures ValidPoolRun(node, r) && MapDenotes(subs, devices, r.out)
    {
      HostInRepr();
      ghost var worlds, lists := SelectDevices(pool, snapshot);
      WorldOk();
      ghost var out;
      devices, out := GetSecondaryDevices(pool);
      MakeRun(node, snapshot, old(world), worlds, lists, world, out);
      r := PoolRun(snapshot, old(world), worlds, lists, world, out);
    }

    /** -1 disables the timeout, 0 asks for the default. */
    method ResolveTimeout(pool: ConfigPool)
      modifies pool`udsTimeout
      ensures pool.udsTimeout == TimeoutFor(old(pool.udsTimeout))
      ensures old(pool.udsTimeout) != -1 && old(pool.udsTimeout) != 0 ==> pool.udsTimeout == old(pool.udsTimeout)
      ensures old(pool.udsTimeout) == 0 ==> pool.udsTimeout == UDS_MIN_TIMEOUT
      ensures ValidTimeout(old(pool.udsTimeout)) ==>
                && (pool.udsTimeout == 0 <==> old(pool.udsTimeout) == -1)
                && (pool.udsTimeout != 0 ==> UDS_MIN_TIMEOUT <= pool.udsTimeout <= UDS_MAX_TIMEOUT)
    {
      if pool.udsTimeout == -1 {
        pool.udsTimeout := 0;
      } else if pool.udsTimeout == 0 {
        pool.udsTimeout := UDS_MIN_TIMEOUT;
      }
    }

    /** The body of the pool loop; None when the pool is skipped or ends up without devices. */
    method ProcessPool(pool: ConfigPool) returns (config: Option<PoolConfig>, ghost r: PoolRun)
      requires Valid()
      modifies this, repr, pool
      ensures Valid() && Kept(old(subs), subs)
      ensures old(repr) <= repr && forall o | o in repr && o !in old(repr) :: fresh(o)
      ensures r.pool == old(pool.Snapshot()) && r.pre == old(world) && r.post == world
      ensures ValidPoolRun(node, r)
      ensures config.Some? <==> r.Emitted()
      ensures config.Some? ==> ConfigMatches(subs, config.value, r.pool, r.out)
      ensures pool.requiresUnprivilegedBpf && !node.unprivilegedBpf ==>
                config.None? && world == old(world) && subs == old(subs) && repr == old(repr)
    {
      if pool.requiresUnprivilegedBpf && !node.unprivilegedBpf {
        r := PoolRun(pool.Snapshot(), world, [], [], world, map[]);
        return None, r;
      }
      ghost var snapshot := pool.Snapshot();
      ResolveTimeout(pool);
      var devices;
      devices, r := BuildDevices(pool, snapshot);
      if |devices| == 0 {
        return None, r;
      }
      config := Some(PoolConfig(pool.name, pool.mode, devices, pool.udsServerDisable, pool.bpfMapPinningEnable,
                                pool.udsTimeout));
    }

    /** The emitted configurations mirror the emitted pools of the run. */
    ghost predicate Mirrors(subs: map<string, seq<Device>>, configs: seq<PoolConfig>, runs: seq<PoolRun>,
                            at: seq<nat>) {
      && Tracks(runs, at) && |configs| == |at|
      && forall k | 0 <= k < |at| :: ConfigMatches(subs, configs[k], runs[at[k]].pool, runs[at[k]].out)
    }

    lemma StillMirrors(before: map<string, seq<Device>>, after: map<string, seq<Device>>,
                       configs: seq<PoolConfig>, runs: seq<PoolRun>, at: seq<nat>)
      requires Mirrors(before, configs, runs, at) && Kept(before, after)
      ensures Mirrors(after, configs, runs, at)
    {
      forall k | 0 <= k < |at| ensures ConfigMatches(after, configs[k], runs[at[k]].pool, runs[at[k]].out) {
        assert ConfigMatches(before, configs[k], runs[at[k]].pool, runs[at[k]].out);
        StillDenotes(before, after, configs[k].devices, runs[at[k]].out);
      }
    }

    /** The run from `start` to `now` and the configurations emitted in it. */
    ghost predicate History(start: World, now: World, subs: map<string, seq<Device>>,
                            configs: seq<PoolConfig>, runs: seq<PoolRun>, at: seq<nat>)
    {
      && ValidRun(node, start, runs) && now == WorldAt(start, runs, |runs|)
      && Mirrors(subs, configs, runs, at)
    }

    ghost predicate SoFar(start: World, configs: seq<PoolConfig>, runs: seq<PoolRun>, at: seq<nat>)
      reads this, repr
    {
      Valid() && History(start, world, subs, configs, runs, at)
    }

    static function WithConfig(configs: seq<PoolConfig>, config: Option<PoolConfig>): seq<PoolConfig> {
      if config.None? then configs else configs + [config.value]
    }

    static function WithPlace(at: seq<nat>, config: Option<PoolConfig>, place: nat): seq<nat> {
      if config.None? then at else at + [place]
    }

    /** The record after one more pool. */
    lemma RecordPool(start: World, before: map<string, seq<Device>>, after: map<string, seq<Device>>,
                     configs: seq<PoolConfig>, runs: seq<PoolRun>, at: seq<nat>, config: Option<PoolConfig>, r: PoolRun)
      requires History(start, r.pre, before, configs, runs, at) && ValidPoolRun(node, r) && Kept(before, after)
      requires config.Some? <==> r.Emitted()
      requires config.Some? ==> ConfigMatches(after, config.value, r.pool, r.out)
      ensures History(start, r.post, after, WithConfig(configs, config), runs + [r], WithPlace(at, config, |runs|))
    {
      StillMirrors(before, after, configs, runs, at);
      ExtendRun(node, start, runs, r);
      ExtendTracks(runs, at, r);
    }

    /** One iteration of the pool loop, with the record kept of the iterations before it. */
    method AppendPool(pool: ConfigPool, ghost start: World, configs: seq<PoolConfig>, ghost runs: seq<PoolRun>,
                      ghost at: seq<nat>)
      returns (configs': seq<PoolConfig>, ghost runs': seq<PoolRun>, ghost at': seq<nat>)
      requires SoFar(start, configs, runs, at)
      modifies this, repr, pool
      ensures SoFar(start, configs', runs', at')
      ensures old(repr) <= repr && forall o | o in repr && o !in old(repr) :: fresh(o)
      ensures |runs'| == |runs| + 1 && runs'[..|runs|] == runs && runs'[|runs|].pool == old(pool.Snapshot())
    {
      var config, r := ProcessPool(pool);
      RecordPool(start, old(subs), subs, configs, runs, at, config, r);
      configs' := WithConfig(configs, config);
      runs', at' := runs + [r], WithPlace(at, config, |runs|);
    }

    /** Builds all pools: the engine performs one run of the specification. */
    method BuildPools(pools: seq<ConfigPool>)
      returns (configs: seq<PoolConfig>, ghost runs: seq<PoolRun>, ghost at: seq<nat>)
      requires Valid()
      requires forall i, j | 0 <= i < j < |pools| :: pools[i] != pools[j]
      modifies this, repr, pools
      ensures SoFar(old(world), configs, runs, at)
      ensures |runs| == |pools| && forall k | 0 <= k < |pools| :: runs[k].pool == old(pools[k].Snapshot())
    {
      configs, runs, at := [], [], [];
      for p := 0 to |pools|
        invariant SoFar(old(world), configs, runs, at)
        invariant old(repr) <= repr && forall o | o in repr && o !in old(repr) :: fresh(o)
        invariant forall k | p <= k < |pools| :: pools[k].Snapshot() == old(pools[k].Snapshot())
        invariant |runs| == p && forall k | 0 <= k < p :: runs[k].pool == old(pools[k].Snapshot())
      {
        configs, runs, at := AppendPool(pools[p], old(world), configs, runs, at);
      }
    }

    // ---------- What the pools guarantee ----------

    /** Different slots stand for different objects. */
    lemma SlotOfDevice(dev: Device, s: Slot, t: Slot)
      requires Valid() && Denotes(subs, dev, s) && Denotes(subs, dev, t)
      ensures s == t
    {
      assert DeviceOk(s.host) && DeviceOk(t.host);
      if s.Sub? {
        assert hostDevices[s.host].SecondaryOk(s.num - 1);
      }
      if t.Sub? {
        assert hostDevices[t.host].SecondaryOk(t.num - 1);
      }
      if s.Sub? && t.Sub? {
        SfNameInjective(s.host, s.num, t.host, t.num);
      }
    }

    lemma MapsApart(d: map<string, Device>, e: map<string, Device>, s: map<string, Slot>, t: map<string, Slot>)
      requires Valid() && MapDenotes(subs, d, s) && MapDenotes(subs, e, t) && s.Values !! t.Values
      ensures d.Values !! e.Values
    {
      forall m, n | m in d && n in e ensures d[m] != e[n] {
        assert s[m] in s.Values && t[n] in t.Values;
        if d[m] == e[n] {
          SlotOfDevice(d[m], s[m], t[n]);
        }
      }
    }

    lemma ObjectsExclusive(start: World, configs: seq<PoolConfig>, runs: seq<PoolRun>, at: seq<nat>, i: nat, j: nat)
      requires SoFar(start, configs, runs, at) && Fresh(start) && i < j < |configs|
      ensures configs[i].devices.Values !! configs[j].devices.Values
    {
      var p, q := at[i], at[j];
      SlotsExclusive(node, start, runs, p, q);
      assert ConfigMatches(subs, configs[i], runs[p].pool, runs[p].out);
      assert ConfigMatches(subs, configs[j], runs[q].pool, runs[q].out);
      MapsApart(configs[i].devices, configs[j].devices, runs[p].out, runs[q].out);
    }

    lemma ConfigNamesExclusive(start: World, configs: seq<PoolConfig>, runs: seq<PoolRun>, at: seq<nat>, i: nat, j: nat)
      requires SoFar(start, configs, runs, at) && Fresh(start) && i < j < |configs|
      requires !exists host: string, num: nat :: Clash(start, host, num)
      ensures configs[i].devices.Keys !! configs[j].devices.Keys
    {
      NamesExclusiveExactly(node, start);
      assert NamesExclusive(runs);
      assert ConfigMatches(subs, configs[i], runs[at[i]].pool, runs[at[i]].out);
      assert ConfigMatches(subs, configs[j], runs[at[j]].pool, runs[at[j]].out);
      assert runs[at[i]].out.Keys !! runs[at[j]].out.Keys;
    }

    lemma ConfigReady(start: World, configs: seq<PoolConfig>, runs: seq<PoolRun>, at: seq<nat>, k: nat, n: string)
      requires SoFar(start, configs, runs, at) && Fresh(start)
      requires k < |configs| && n in configs[k].devices
      ensures Ready(configs[k].devices[n], n, configs[k].mode)
    {
      var p := at[k];
      assert ConfigMatches(subs, configs[k], runs[p].pool, runs[p].out);
      SlotsReady(node, start, runs, p, n);
      var s, dev := runs[p].out[n], configs[k].devices[n];
      assert Denotes(subs, dev, s);
      assert DeviceOk(s.host);
      SlotMode(node, start, runs, p, n);
      if s.Sub? {
        assert hostDevices[s.host].SecondaryOk(s.num - 1);
      }
    }

    /** A pool that requires unprivileged BPF on a node that forbids it is not emitted and changes nothing. */
    lemma NotAllowed(start: World, configs: seq<PoolConfig>, runs: seq<PoolRun>, at: seq<nat>, k: nat)
      requires SoFar(start, configs, runs, at) && k < |runs|
      requires runs[k].pool.requiresUnprivilegedBpf && !node.unprivilegedBpf
      ensures k !in at && runs[k].post == runs[k].pre
    {
      assert ValidPoolRun(node, runs[k]);
      assert !runs[k].Emitted();
    }

    /** The names in a device map whose objects are subfunctions of a host device. */
    static ghost function HeldOf(devices: map<string, Device>, d: Device): set<string> {
      set n | n in devices && devices[n] != d && devices[n].primary == d
    }

    /** How many subfunctions of the device the first k pools hold. */
    static ghost function HeldIn(configs: seq<PoolConfig>, k: nat, d: Device): nat
      requires k <= |configs|
    {
      if k == 0 then 0 else HeldIn(configs, k - 1, d) + |HeldOf(configs[k - 1].devices, d)|
    }

    lemma HeldAreSlots(devices: map<string, Device>, out: map<string, Slot>, h: string)
      requires Valid() && h in hostDevices && MapDenotes(subs, devices, out)
      ensures HeldOf(devices, hostDevices[h]) == SubNames(out, h)
    {
      var d := hostDevices[h];
      forall n | n in devices
        ensures devices[n] != d && devices[n].primary == d <==> out[n].Sub? && out[n].host == h
      {
        assert Denotes(subs, devices[n], out[n]);
        assert hostDevices[out[n].host].name == out[n].host && hostDevices[h].name == h;
      }
    }

    static lemma {:induction false} SameSums(configs: seq<PoolConfig>, runs: seq<PoolRun>, at: seq<nat>, k: nat,
                                             d: Device, h: string)
      requires |configs| == |at| && (forall i | 0 <= i < |at| :: at[i] < |runs|) && k <= |configs|
      requires forall i | 0 <= i < |at| :: HeldOf(configs[i].devices, d) == SubNames(runs[at[i]].out, h)
      ensures HeldIn(configs, k, d) == EmittedSubs(runs, at, k, h)
      decreases k
    {
      if k > 0 {
        SameSums(configs, runs, at, k - 1, d, h);
      }
    }

    lemma HeldAreEmitted(configs: seq<PoolConfig>, runs: seq<PoolRun>, at: seq<nat>, h: string)
      requires Valid() && Mirrors(subs, configs, runs, at) && h in hostDevices
      ensures HeldIn(configs, |configs|, hostDevices[h]) == EmittedSubs(runs, at, |at|, h)
    {
      forall i | 0 <= i < |at| ensures HeldOf(configs[i].devices, hostDevices[h]) == SubNames(runs[at[i]].out, h) {
        assert ConfigMatches(subs, configs[i], runs[at[i]].pool, runs[at[i]].out);
        HeldAreSlots(configs[i].devices, runs[at[i]].out, h);
      }
      SameSums(configs, runs, at, |configs|, hostDevices[h], h);
    }

    /** The subfunction objects in the emitted pools and the unassigned ones add up to what was created. */
    ghost predicate Conserved(configs: seq<PoolConfig>, h: string)
      requires h in hostDevices
      reads hostDevices[h]
    {
      var d := hostDevices[h];
      HeldIn(configs, |configs|, d) + Unassigned(d.View()) == if d.mode == Cdq then SECONDARY_MAX else 0
    }

    lemma ObjectsConserved(start: World, configs: seq<PoolConfig>, runs: seq<PoolRun>, at: seq<nat>, h: string)
      requires SoFar(start, configs, runs, at) && Fresh(start) && h in hostDevices
      ensures Conserved(configs, h)
    {
      StartKeys(start, runs);
      SubfunctionsConserved(node, start, runs, h);
      EmittedSubsUpTo(runs, at, |at|, h);
      HeldAreEmitted(configs, runs, at, h);
      assert DeviceOk(h);
    }

    lemma StartKeys(start: World, runs: seq<PoolRun>)
      requires Valid() && Fresh(start) && ValidRun(node, start, runs) && world == WorldAt(start, runs, |runs|)
      ensures start.Keys == hostDevices.Keys
    {
      RunEffects(node, start, runs);
      RunGrows(start, runs, 0, |runs|);
    }

    /** A host device is fully assigned exactly if an emitted pool holds the object itself. */
    lemma WholeObjects(start: World, configs: seq<PoolConfig>, runs: seq<PoolRun>, at: seq<nat>, h: string)
      requires SoFar(start, configs, runs, at) && Fresh(start) && h in hostDevices
      ensures hostDevices[h].fullyAssigned
              <==> exists k | 0 <= k < |configs| :: hostDevices[h] in configs[k].devices.Values
    {
      StartKeys(start, runs);
      WholeDevicesConserved(node, start, runs, h);
      assert DeviceOk(h);
      forall k | 0 <= k < |configs| && hostDevices[h] in configs[k].devices.Values
        ensures HoldsWhole(runs[at[k]], h)
      {
        assert ConfigMatches(subs, configs[k], runs[at[k]].pool, runs[at[k]].out);
        var n :| n in configs[k].devices && configs[k].devices[n] == hostDevices[h];
        SlotOfDevice(hostDevices[h], runs[at[k]].out[n], Whole(h));
      }
      forall p: nat | p < |runs| && HoldsWhole(runs[p], h)
        ensures exists k | 0 <= k < |configs| :: hostDevices[h] in configs[k].devices.Values
      {
        HoldingPool(start, configs, runs, at, p, h);
      }
    }

    lemma HoldingPool(start: World, configs: seq<PoolConfig>, runs: seq<PoolRun>, at: seq<nat>, p: nat, h: string)
      requires SoFar(start, configs, runs, at) && p < |runs| && HoldsWhole(runs[p], h) && h in hostDevices
      ensures exists k | 0 <= k < |configs| :: hostDevices[h] in configs[k].devices.Values
    {
      var n :| n in runs[p].out && runs[p].out[n] == Whole(h);
      assert runs[p].Emitted();
      var k :| 0 <= k < |at| && at[k] == p;
      assert ConfigMatches(subs, configs[k], runs[p].pool, runs[p].out);
      assert Denotes(subs, configs[k].devices[n], runs[p].out[n]);
    }

    /**
     The pools of one plugin run: a run of the specification (so everything proved about runs holds), pools that
     share no device object, no shared name unless the host itself has a clash, devices Allocate can rely on, and no
     subfunction lost or made up.
     */
    method GetPoolConfigs(pools: seq<ConfigPool>)
      returns (configs: seq<PoolConfig>, ghost runs: seq<PoolRun>, ghost at: seq<nat>)
      requires Valid() && Fresh(world)
      requires forall i, j | 0 <= i < j < |pools| :: pools[i] != pools[j]
      modifies this, repr, pools
      ensures SoFar(old(world), configs, runs, at)
      ensures |runs| == |pools| && forall k | 0 <= k < |pools| :: runs[k].pool == old(pools[k].Snapshot())
      ensures forall i, j | 0 <= i < j < |configs| :: configs[i].devices.Values !! configs[j].devices.Values
      ensures (!exists host: string, num: nat :: Clash(old(world), host, num)) ==>
                forall i, j | 0 <= i < j < |configs| :: configs[i].devices.Keys !! configs[j].devices.Keys
      ensures forall k, n | 0 <= k < |configs| && n in configs[k].devices ::
                Ready(configs[k].devices[n], n, configs[k].mode)
      ensures forall h | h in hostDevices :: Conserved(configs, h)
      ensures forall k | 0 <= k < |pools| && pools[k].requiresUnprivilegedBpf && !node.unprivilegedBpf ::
                k !in at && runs[k].post == runs[k].pre
    {
      ghost var start := world;
      configs, runs, at := BuildPools(pools);
      forall i, j | 0 <= i < j < |configs| ensures configs[i].devices.Values !! configs[j].devices.Values {
        ObjectsExclusive(start, configs, runs, at, i, j);
      }
      if !exists host: string, num: nat :: Clash(start, host, num) {
        forall i, j | 0 <= i < j < |configs| ensures configs[i].devices.Keys !! configs[j].devices.Keys {
          ConfigNamesExclusive(start, configs, runs, at, i, j);
        }
      }
      forall k, n | 0 <= k < |configs| && n in configs[k].devices
        ensures Ready(configs[k].devices[n], n, configs[k].mode)
      {
        ConfigReady(start, configs, runs, at, k, n);
      }
      forall h | h in hostDevices ensures Conserved(configs, h) {
        ObjectsConserved(start, configs, runs, at, h);
      }
      forall k | 0 <= k < |pools| && pools[k].requiresUnprivilegedBpf && !node.unprivilegedBpf
        ensures k !in at && runs[k].post == runs[k].pre
      {
        NotAllowed(start, configs, runs, at, k);
      }
    }
  }
}
