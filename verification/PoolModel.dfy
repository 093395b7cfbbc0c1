// The pool assignment of internal/deviceplugin/config.go on values: what one run over
// the configured pools may do to the host's devices, for every order in which Go may
// iterate the host map. The imperative engine is proved against this specification.

module PoolModel {
  import opened Options
  import opened Text
  import opened Constants
  import opened Tools

  // ---------- Devices ----------

  /** The mode strings: "", "primary" and "cdq"; any other text is unsupported. */
  datatype Mode = Unset | Primary | Cdq | Unsupported(text: string)

  /**
   The assignment state of one host device. Subfunctions are created all 64 at once
   (`made`) and the first `taken` of them are assigned.
   */
  datatype Prim = Prim(mode: Mode, fully: bool, driver: string, made: bool, taken: nat)

  type World = map<string, Prim>

  /** What a pool receives: a whole host device, or subfunction `num` of one. */
  datatype Slot = Whole(host: string) | Sub(host: string, num: nat)

  function SlotName(s: Slot): string {
    match s
    case Whole(host) => host
    case Sub(host, num) => SfName(host, num)
  }

  predicate PrimOk(p: Prim) {
    && !p.mode.Unsupported?
    && (p.fully <==> p.mode == Primary)
    && (p.made <==> p.mode == Cdq)
    && p.taken <= SECONDARY_MAX
    && (p.made ==> p.driver in CDQ_DRIVERS)
    && (!p.made ==> p.taken == 0)
  }

  ghost predicate Inv(w: World) { forall h | h in w :: PrimOk(w[h]) }

  /** The host devices as discovery leaves them. */
  ghost predicate Fresh(w: World) {
    forall h | h in w :: w[h] == Prim(Unset, false, w[h].driver, false, 0)
  }

  /** Mode is write-once, and assignments are never taken back. */
  ghost predicate Grows(v: World, w: World) {
    && v.Keys == w.Keys
    && forall h | h in v ::
         && (v[h].mode != Unset ==> w[h].mode == v[h].mode)
         && (v[h].fully ==> w[h].fully)
         && (v[h].made ==> w[h].made)
         && v[h].taken <= w[h].taken
         && (v[h].driver != "" ==> w[h].driver == v[h].driver)
  }

  /** Only the cached driver of some devices was filled in. */
  ghost predicate CacheOnly(v: World, w: World) {
    && v.Keys == w.Keys
    && forall h | h in v ::
         && w[h] == v[h].(driver := w[h].driver)
         && (v[h].driver != "" ==> w[h].driver == v[h].driver)
  }

  // ---------- Assigning one device ----------

  function AsPrimary(p: Prim): Option<Prim> {
    if p.mode == Unset || p.mode == Primary then Some(p.(mode := Primary, fully := true)) else None
  }

  /** How many subfunctions a call with this limit hands out. */
  function GrantSize(p: Prim, limit: int): nat
    requires p.taken <= SECONDARY_MAX
  {
    if 0 < limit < SECONDARY_MAX - p.taken then limit else SECONDARY_MAX - p.taken
  }

  /** The call hands out subfunctions p.taken + 1 up to the result's `taken`. */
  function AsCdq(p: Prim, limit: int): Option<Prim>
    requires p.taken <= SECONDARY_MAX
  {
    if p.driver !in CDQ_DRIVERS then None
    else if p.mode != Unset && p.mode != Cdq then None
    else Some(p.(mode := Cdq, made := true, taken := p.taken + GrantSize(p, limit)))
  }

  /** The device map after adding subfunctions first + 1 .. last, keyed by their names. */
  function AddSubs(out: map<string, Slot>, host: string, first: nat, last: nat): map<string, Slot> {
    if last <= first then out
    else AddSubs(out, host, first, last - 1)[SfName(host, last) := Sub(host, last)]
  }

  datatype Assigned = Assigned(world: World, out: map<string, Slot>)

  function AssignOne(a: Assigned, mode: Mode, entry: ConfigDevice): Assigned
    requires Bounded(a.world)
  {
    if entry.name !in a.world then a
    else if mode == Primary then
      match AsPrimary(a.world[entry.name]) {
        case None => a
        case Some(p) => Assigned(a.world[entry.name := p], a.out[entry.name := Whole(entry.name)])
      }
    else if mode == Cdq then
      match AsCdq(a.world[entry.name], entry.secondary) {
        case None => a
        case Some(p) =>
          Assigned(a.world[entry.name := p],
                   AddSubs(a.out, entry.name, a.world[entry.name].taken, p.taken))
      }
    else a
  }

  predicate Bounded(w: World) { forall h | h in w :: w[h].taken <= SECONDARY_MAX }

  /** getSecondaryDevices over a pool's device entries. */
  function AssignAll(w: World, mode: Mode, entries: seq<ConfigDevice>): (a: Assigned)
    requires Bounded(w)
    ensures Bounded(a.world)
  {
    if entries == [] then Assigned(w, map[])
    else AssignOne(AssignAll(w, mode, entries[..|entries| - 1]), mode, entries[|entries| - 1])
  }

  // ---------- Configuration ----------

  /** `resolved` is the name the MAC or PCI lookup yields for an entry without a name. */
  datatype ConfigDevice = ConfigDevice(name: string, resolved: string, secondary: int) {
    function DeviceName(): string { if name != "" then name else resolved }
  }

  datatype ConfigDriver = ConfigDriver(
    name: string, primary: int, secondary: int, exclude: seq<ConfigDevice>, excludeAddressed: bool)

  datatype ConfigNode = ConfigNode(hostname: string, devices: seq<ConfigDevice>, drivers: seq<ConfigDriver>)

  datatype Pool = Pool(
    name: string, mode: Mode, devices: seq<ConfigDevice>, drivers: seq<ConfigDriver>,
    nodes: seq<ConfigNode>, udsTimeout: int, requiresUnprivilegedBpf: bool,
    udsServerDisable: bool, bpfMapPinningEnable: bool)

  /**
   The node: its host name, whether it allows unprivileged BPF, and the devices whose
   address lookup yields a list (the abstract test behind ExcludeAddressed).
   */
  datatype Node = Node(hostname: string, unprivilegedBpf: bool, addressed: set<string>)

  function NodeConfig(nodes: seq<ConfigNode>, hostname: string): Option<ConfigNode> {
    if nodes == [] then None
    else if nodes[0].hostname == hostname then Some(nodes[0])
    else NodeConfig(nodes[1..], hostname)
  }

  function DevicesFor(pool: Pool, node: Node): seq<ConfigDevice> {
    match NodeConfig(pool.nodes, node.hostname)
    case None => pool.devices
    case Some(n) => n.devices
  }

  function DriversFor(pool: Pool, node: Node): seq<ConfigDriver> {
    match NodeConfig(pool.nodes, node.hostname)
    case None => pool.drivers
    case Some(n) => n.drivers
  }

  function TimeoutFor(udsTimeout: int): int {
    if udsTimeout == -1 then 0 else if udsTimeout == 0 then UDS_MIN_TIMEOUT else udsTimeout
  }

  /** The timeouts that configuration validation lets through. */
  predicate ValidTimeout(udsTimeout: int) {
    udsTimeout == -1 || udsTimeout == 0 || UDS_MIN_TIMEOUT <= udsTimeout <= UDS_MAX_TIMEOUT
  }

  predicate Skipped(pool: Pool, node: Node) {
    pool.requiresUnprivilegedBpf && !node.unprivilegedBpf
  }

  predicate Listed(entries: seq<ConfigDevice>, name: string) {
    exists k | 0 <= k < |entries| :: entries[k].DeviceName() == name
  }

  // ---------- Selecting devices ----------

  predicate Admissible(w: World, mode: Mode, name: string) {
    && name in w
    && !w[name].fully
    && !PrefixedByAny(PROHIBITED, name)
    && (w[name].mode == Unset || w[name].mode == mode)
  }

  predicate Scannable(node: Node, w: World, mode: Mode, list: seq<ConfigDevice>, driver: ConfigDriver, name: string) {
    && Admissible(w, mode, name)
    && w[name].driver == driver.name
    && !Listed(list, name)
    && !Listed(driver.exclude, name)
    && !(driver.excludeAddressed && name in node.addressed)
  }

  function Eligible(node: Node, w: World, mode: Mode, list: seq<ConfigDevice>, driver: ConfigDriver): set<string> {
    set h | h in w && Scannable(node, w, mode, list, driver, h)
  }

  /** The explicitly configured entries that survive validation, in order. */
  function ValidExplicit(w: World, mode: Mode, entries: seq<ConfigDevice>): seq<ConfigDevice> {
    if entries == [] then []
    else
      var last := entries[|entries| - 1];
      ValidExplicit(w, mode, entries[..|entries| - 1])
      + if last.DeviceName() != "" && Admissible(w, mode, last.name) then [last] else []
  }

  function DeviceCount(eligible: nat, limit: int): nat {
    if 0 < limit < eligible then limit else eligible
  }

  /** What a driver scan may return, whatever the iteration order of the host map. */
  ghost predicate ScanResult(picked: seq<ConfigDevice>, eligible: set<string>, limit: int, secondary: int) {
    && (forall k | 0 <= k < |picked| ::
          picked[k].name in eligible && picked[k] == ConfigDevice(picked[k].name, "", secondary))
    && (forall i, j | 0 <= i < j < |picked| :: picked[i].name != picked[j].name)
    && |picked| == DeviceCount(|eligible|, limit)
  }

  ghost predicate DriverStep(node: Node, mode: Mode, driver: ConfigDriver,
                             w: World, list: seq<ConfigDevice>, w': World, list': seq<ConfigDevice>)
  {
    && CacheOnly(w, w')
    && |list| <= |list'| && list'[..|list|] == list
    && ScanResult(list'[|list|..], Eligible(node, w', mode, list, driver), driver.primary, driver.secondary)
  }

  /** The worlds and entry lists before the first n driver scans, between them and after them. */
  ghost predicate DriverChain(node: Node, mode: Mode, drivers: seq<ConfigDriver>, n: nat,
                              worlds: seq<World>, lists: seq<seq<ConfigDevice>>)
  {
    && |worlds| == |lists| == n + 1 && n <= |drivers|
    && forall k | 0 <= k < n ::
         DriverStep(node, mode, drivers[k], worlds[k], lists[k], worlds[k + 1], lists[k + 1])
  }

  // ---------- Whole runs ----------

  /** The record of processing one pool; worlds and lists are indexed by the drivers already scanned. */
  datatype PoolRun = PoolRun(
    pool: Pool, pre: World, worlds: seq<World>, lists: seq<seq<ConfigDevice>>, post: World, out: map<string, Slot>)
  {
    predicate Emitted() { out != map[] }
  }

  ghost predicate ValidPoolRun(node: Node, r: PoolRun) {
    if Skipped(r.pool, node) then r.post == r.pre && r.out == map[]
    else
      var drivers := DriversFor(r.pool, node);
      && DriverChain(node, r.pool.mode, drivers, |drivers|, r.worlds, r.lists)
      && r.worlds[0] == r.pre
      && r.lists[0] == ValidExplicit(r.pre, r.pool.mode, DevicesFor(r.pool, node))
      && Bounded(r.worlds[|drivers|])
      && AssignAll(r.worlds[|drivers|], r.pool.mode, r.lists[|drivers|]) == Assigned(r.post, r.out)
  }

  function WorldAt(start: World, runs: seq<PoolRun>, k: nat): World
    requires k <= |runs|
  {
    if k == 0 then start else runs[k - 1].post
  }

  ghost predicate ValidRun(node: Node, start: World, runs: seq<PoolRun>) {
    forall k {:trigger ValidPoolRun(node, runs[k])} | 0 <= k < |runs| ::
      runs[k].pre == WorldAt(start, runs, k) && ValidPoolRun(node, runs[k])
  }

  /** A slot that is assigned in w but was not in v. */
  predicate NewIn(v: World, w: World, s: Slot) {
    && s.host in v && s.host in w
    && match s
       case Whole(h) => !v[h].fully && w[h].fully
       case Sub(h, i) => v[h].taken < i <= w[h].taken
  }

  /** `out` holds exactly the slots assigned between v and w, each under its own name. */
  ghost predicate ExactDiff(v: World, w: World, out: map<string, Slot>) {
    && (forall n | n in out :: SlotName(out[n]) == n && NewIn(v, w, out[n]))
    && (forall s: Slot | NewIn(v, w, s) :: SlotName(s) in out && out[SlotName(s)] == s)
  }

  /** The slots of a pool's device map are of the kind its mode asks for. */
  ghost predicate KindsMatch(mode: Mode, out: map<string, Slot>) {
    forall n | n in out ::
      && (out[n].Whole? ==> mode == Primary)
      && (out[n].Sub? ==> mode == Cdq)
      && !PrefixedByAny(PROHIBITED, out[n].host)
  }
}
