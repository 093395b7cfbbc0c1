// PoolManager.Allocate of internal/deviceplugin/poolManager.go on values: what one request does
// for every outcome of the operations on the host, and what a successful response promises.

module Allocation {
  import opened Options
  import opened Sequences
  import opened Text
  import opened Constants
  import opened PoolModel
  import opened Networking
  import opened BpfMaps
  import opened Handshake
  import opened Admission

  // ---------- Requests, answers and the host ----------

  /** What Allocate and ActivateCdqSubfunction read of a device. */
  datatype View = View(primary: string, mode: Mode, driver: string)

  /** The outcomes of the operations for the n-th device of the request. */
  datatype Host = Host(
    activation: nat -> ActivationHost, cycles: nat -> bool, descriptor: nat -> int, trial: nat -> Trial,
    pins: nat -> bool)

  /** A pool manager's settings; `base` is where its map manager makes directories. */
  datatype Settings = Settings(name: string, mode: Mode, serves: bool, udsPath: string, pins: bool, base: string)

  datatype AllocateError =
    | NoServer | WrongMode | UnsupportedMode | ActivationRefused | ActivationFailed | NoProgram | NoBpffs | NotPinned

  datatype Mount = Mount(host: string, container: string)

  datatype ContainerResponse = ContainerResponse(mounts: seq<Mount>, envs: map<string, string>)

  /** The server's devices, the file system and device map, the mounts of the current container, the error. */
  datatype Progress = Progress(
    served: map<string, int>, fs: Fs, maps: map<string, string>, mounts: seq<Mount>, error: Option<AllocateError>)

  function SocketMount(udsPath: string, name: string): Mount { Mount(udsPath, POD_PATH + name + SOCK_NAME) }

  function MapMount(pinPath: string, name: string): Mount { Mount(pinPath + XSK_MAP,
                    BPF_MAP_POD_PATH + name + XSK_MAP) }

  function Upper(s: string): string {
    if s == "" then "" else [if 'a' <= s[0] <= 'z' then (s[0] as int - 32) as char else s[0]] + Upper(s[1..])
  }

  function EnvName(pool: string): string { ENV_VAR_PREFIX + Upper(pool) }

  // ---------- One device ----------

  /** The three checks at the start of ActivateCdqSubfunction. */
  predicate Refuses(name: string, v: View) {
    name == v.primary || v.driver !in CDQ_DRIVERS || v.mode != Cdq
  }

  predicate HostFails(a: ActivationHost) {
    a.present != Some(true) && (a.pci.None? || a.pfnum.None? || !a.created)
  }

  function Activate(s: Settings, host: Host, n: nat, name: string, v: View): Option<AllocateError> {
    if v.mode != s.mode then Some(WrongMode)
    else
      match s.mode
      case Primary => None
      case Cdq =>
        if Refuses(name, v) then Some(ActivationRefused)
        else if HostFails(host.activation(n)) then Some(ActivationFailed)
        else None
      case _ => Some(AllocateError.UnsupportedMode)
  }

  function Load(s: Settings, host: Host, n: nat, name: string, p: Progress): Progress {
    if !s.serves then p
    else if host.descriptor(n) <= 0 then p.(error := Some(NoProgram))
    else p.(served := p.served[name := host.descriptor(n)])
  }

  function Pin(s: Settings, host: Host, n: nat, name: string, p: Progress): Progress {
    if !s.pins then p
    else
      var creation := Create(p.fs, s.base, host.trial(n));
      if creation.path.None? then p.(fs := creation.fs, error := Some(NoBpffs))
      else if !host.pins(n) then p.(fs := creation.fs, error := Some(NotPinned))
      else
        p.(fs := creation.fs, maps := p.maps[name := creation.path.value],
           mounts := p.mounts + [MapMount(creation.path.value, name)])
  }

  function LoadPin(s: Settings, host: Host, n: nat, name: string, p: Progress): Progress {
    var loaded := Load(s, host, n, name, p);
    if loaded.error.Some? then loaded else Pin(s, host, n, name, loaded)
  }

  /** A device whose state cannot be cycled is skipped, after its socket mount was added. */
  function AllocateDevice(s: Settings, host: Host, n: nat, name: string, v: View, p: Progress): Progress {
    var q := if s.serves then p.(mounts := p.mounts + [SocketMount(s.udsPath, name)]) else p;
    var activation := Activate(s, host, n, name, v);
    if activation.Some? then q.(error := activation)
    else if !host.cycles(n) then q
    else LoadPin(s, host, n, name, q)
  }

  predicate Known(known: map<string, View>, ids: seq<string>) {
    forall k | 0 <= k < |ids| :: ids[k] in known
  }

  function AllocateDevices(s: Settings, known: map<string, View>, host: Host, n: nat, ids: seq<string>,
                           p: Progress): Progress
    requires Known(known, ids)
    decreases |ids|
  {
    if ids == [] then p
    else
      var q := AllocateDevice(s, host, n, ids[0], known[ids[0]], p);
      if q.error.Some? then q else AllocateDevices(s, known, host, n + 1, ids[1..], q)
  }

  // ---------- Whole requests ----------

  datatype Total = Total(progress: Progress, responses: seq<ContainerResponse>)

  predicate AllKnown(known: map<string, View>, requests: seq<seq<string>>) {
    forall c | 0 <= c < |requests| :: Known(known, requests[c])
  }

  function Response(s: Settings, ids: seq<string>, mounts: seq<Mount>): ContainerResponse {
    ContainerResponse(mounts, map[EnvName(s.name) := Join(ids, " ")])
  }

  /** The containers one after the other; the first error ends the request. */
  function AllocateContainers(s: Settings, known: map<string, View>, host: Host, n: nat, requests: seq<seq<string>>,
                              p: Progress): Total
    requires AllKnown(known, requests)
    decreases |requests|
  {
    if requests == [] then Total(p, [])
    else
      var q := AllocateDevices(s, known, host, n, requests[0], p.(mounts := []));
      if q.error.Some? then Total(q, [])
      else
        var rest := AllocateContainers(s, known, host, n + |requests[0]|, requests[1..], q);
        rest.(responses := [Response(s, requests[0], q.mounts)] + rest.responses)
  }

  function AllocateAll(s: Settings, known: map<string, View>, host: Host, requests: seq<seq<string>>, fs: Fs,
                       maps: map<string, string>): Total
    requires AllKnown(known, requests)
  {
    AllocateContainers(s, known, host, 0, requests, Progress(map[], fs, maps, [], None))
  }

  /** A total with the responses of earlier containers in front. */
  function Continued(earlier: seq<ContainerResponse>, t: Total): Total {
    Total(t.progress, earlier + t.responses)
  }

  lemma ContinuedBy(earlier: seq<ContainerResponse>, next: ContainerResponse, t: Total)
    ensures Continued(earlier, t.(responses := [next] + t.responses)) == Continued(earlier + [next], t)
  {
    ConcatAssoc(earlier, [next], t.responses);
  }

  /** The loops step by step. */
  lemma DevicesFrom(s: Settings, known: map<string, View>, host: Host, n: nat, ids: seq<string>, i: nat, p: Progress)
    requires Known(known, ids) && i < |ids|
    ensures var q := AllocateDevice(s, host, n + i, ids[i], known[ids[i]], p);
      AllocateDevices(s, known, host, n + i, ids[i..], p)
      == if q.error.Some? then q else AllocateDevices(s, known, host, n + (i + 1), ids[i + 1..], q)
  {
    assert ids[i..][1..] == ids[i + 1..];
  }

  lemma ContainersFrom(s: Settings, known: map<string, View>, host: Host, n: nat, requests: seq<seq<string>>, i: nat,
                       p: Progress)
    requires AllKnown(known, requests) && i < |requests|
    ensures var q := AllocateDevices(s, known, host, n, requests[i], p.(mounts := []));
      AllocateContainers(s, known, host, n, requests[i..], p)
      == if q.error.Some? then Total(q, [])
         else
           var rest := AllocateContainers(s, known, host, n + |requests[i]|, requests[i + 1..], q);
           rest.(responses := [Response(s, requests[i], q.mounts)] + rest.responses)
  {
    assert requests[i..][1..] == requests[i + 1..];
  }

  /** The same with the responses of the containers before. */
  lemma ContinuedFrom(s: Settings, known: map<string, View>, host: Host, n: nat, requests: seq<seq<string>>, i: nat,
                      p: Progress, earlier: seq<ContainerResponse>)
    requires AllKnown(known, requests) && i < |requests|
    ensures var q := AllocateDevices(s, known, host, n, requests[i], p.(mounts := []));
      Continued(earlier, AllocateContainers(s, known, host, n, requests[i..], p))
      == if q.error.Some? then Total(q, earlier)
         else Continued(earlier + [Response(s, requests[i], q.mounts)],
                        AllocateContainers(s, known, host, n + |requests[i]|, requests[i + 1..], q))
  {
    ContainersFrom(s, known, host, n, requests, i, p);
    var q := AllocateDevices(s, known, host, n, requests[i], p.(mounts := []));
    if q.error.Some? {
      assert earlier + [] == earlier;
    } else {
      ContinuedBy(earlier, Response(s, requests[i], q.mounts),
                  AllocateContainers(s, known, host, n + |requests[i]|, requests[i + 1..], q));
    }
  }

  /** Before the first container, and after the last. */
  lemma ContinuedFromStart(s: Settings, known: map<string, View>, host: Host, requests: seq<seq<string>>, p: Progress)
    requires AllKnown(known, requests)
    ensures Continued([], AllocateContainers(s, known, host, 0, requests[0..], p))
         == AllocateContainers(s, known, host, 0, requests, p)
  {
    var t := AllocateContainers(s, known, host, 0, requests, p);
    assert requests[0..] == requests && [] + t.responses == t.responses;
  }

  lemma ContinuedToEnd(s: Settings, known: map<string, View>, host: Host, n: nat, requests: seq<seq<string>>,
                       p: Progress, responses: seq<ContainerResponse>)
    requires AllKnown(known, requests)
    ensures Continued(responses, AllocateContainers(s, known, host, n, requests[|requests|..], p))
         == Total(p, responses)
  {
    assert responses + [] == responses;
  }

  // ---------- Emitted pools make the guards unreachable ----------

  /** What GetPoolConfigs guarantees of the devices of a pool. */
  ghost predicate Prepared(s: Settings, known: map<string, View>) {
    forall n | n in known ::
      && known[n].mode == s.mode && (s.mode == Primary || s.mode == Cdq)
      && (s.mode == Cdq ==> known[n].driver in CDQ_DRIVERS && known[n].primary != n)
  }

  predicate HostError(e: Option<AllocateError>) {
    e.Some? ==> e.value == ActivationFailed || e.value == NoProgram || e.value == NoBpffs || e.value == NotPinned
  }

  lemma {:induction false} DevicesNeverRefused(s: Settings, known: map<string, View>, host: Host, n: nat,
                                               ids: seq<string>, p: Progress)
    requires Prepared(s, known) && Known(known, ids) && p.error.None?
    ensures HostError(AllocateDevices(s, known, host, n, ids, p).error)
    decreases |ids|
  {
    if ids != [] {
      var q := AllocateDevice(s, host, n, ids[0], known[ids[0]], p);
      if q.error.None? {
        DevicesNeverRefused(s, known, host, n + 1, ids[1..], q);
      }
    }
  }

  /** For a pool that GetPoolConfigs emitted, only the host can make Allocate fail. */
  lemma {:induction false} GuardsUnreachable(s: Settings, known: map<string, View>, host: Host, n: nat,
                                             requests: seq<seq<string>>, p: Progress)
    requires Prepared(s, known) && AllKnown(known, requests) && p.error.None?
    ensures HostError(AllocateContainers(s, known, host, n, requests, p).progress.error)
    decreases |requests|
  {
    if requests != [] {
      var q := AllocateDevices(s, known, host, n, requests[0], p.(mounts := []));
      DevicesNeverRefused(s, known, host, n, requests[0], p.(mounts := []));
      if q.error.None? {
        GuardsUnreachable(s, known, host, n + |requests[0]|, requests[1..], q);
      }
    }
  }

  // ---------- The response mirrors the request ----------

  /** A mount of the server's socket, as opposed to one of a pinned map. */
  predicate IsSocket(m: Mount) {
    |SOCK_NAME| <= |m.container| && m.container[|m.container| - |SOCK_NAME|..] == SOCK_NAME
  }

  function Sockets(mounts: seq<Mount>): seq<Mount> {
    if mounts == [] then []
    else Sockets(mounts[..|mounts| - 1]) + if IsSocket(mounts[|mounts| - 1]) then [mounts[|mounts| - 1]] else []
  }

  function SocketMounts(s: Settings, ids: seq<string>): (mounts: seq<Mount>)
    ensures |mounts| == |ids| && forall k | 0 <= k < |ids| :: mounts[k] == SocketMount(s.udsPath, ids[k])
  {
    if ids == [] then [] else [SocketMount(s.udsPath, ids[0])] + SocketMounts(s, ids[1..])
  }

  lemma SocketsAppend(mounts: seq<Mount>, m: Mount)
    ensures Sockets(mounts + [m]) == Sockets(mounts) + if IsSocket(m) then [m] else []
  {
    assert (mounts + [m])[..|mounts|] == mounts;
  }

  lemma MountKinds(path: string, name: string)
    ensures IsSocket(SocketMount(path, name)) && !IsSocket(MapMount(path, name))
  {
    var text := BPF_MAP_POD_PATH + name + XSK_MAP;
    assert (POD_PATH + name + SOCK_NAME)[|POD_PATH + name|..] == SOCK_NAME;
    assert text[|text| - 1] == XSK_MAP[|XSK_MAP| - 1] != SOCK_NAME[|SOCK_NAME| - 1];
    assert text[|text| - |SOCK_NAME|..][|SOCK_NAME| - 1] == text[|text| - 1];
  }

  /** Different devices get different socket paths in the container. */
  lemma SocketPathsDiffer(a: string, b: string)
    requires POD_PATH + a + SOCK_NAME == POD_PATH + b + SOCK_NAME
    ensures a == b
  {
    var text := POD_PATH + a + SOCK_NAME;
    assert text[|POD_PATH|..|text| - |SOCK_NAME|] == a;
    assert text[|POD_PATH|..|text| - |SOCK_NAME|] == b;
  }

  /** The devices among `ids`, counted from n, whose state could be cycled. */
  function Cycled(host: Host, n: nat, ids: seq<string>): set<string> {
    set k | 0 <= k < |ids| && host.cycles(n + k) :: ids[k]
  }

  lemma CycledCons(host: Host, n: nat, ids: seq<string>)
    requires ids != []
    ensures Cycled(host, n, ids) == (if host.cycles(n) then {ids[0]} else {}) + Cycled(host, n + 1, ids[1..])
  {
    forall x | x in Cycled(host, n, ids)
      ensures x in (if host.cycles(n) then {ids[0]} else {}) + Cycled(host, n + 1, ids[1..])
    {
      var k :| 0 <= k < |ids| && host.cycles(n + k) && x == ids[k];
      if k > 0 {
        assert ids[1..][k - 1] == x && host.cycles(n + 1 + (k - 1));
      }
    }
    forall x | x in Cycled(host, n + 1, ids[1..]) ensures x in Cycled(host, n, ids) {
      var k :| 0 <= k < |ids| - 1 && host.cycles(n + 1 + k) && x == ids[1..][k];
      assert ids[k + 1] == x && host.cycles(n + (k + 1));
    }
  }

  /** The devices the server gets to know. */
  function ServedFrom(s: Settings, host: Host, n: nat, ids: seq<string>): set<string> {
    if s.serves then Cycled(host, n, ids) else {}
  }

  predicate AllPositive(served: map<string, int>) { forall d | d in served :: served[d] > 0 }

  /** Pinning adds no socket mount and leaves the server's devices alone. */
  lemma PinEffect(s: Settings, host: Host, n: nat, name: string, p: Progress)
    requires Pin(s, host, n, name, p).error.None?
    ensures var q := Pin(s, host, n, name, p); Sockets(q.mounts) == Sockets(p.mounts) && q.served == p.served
  {
    if s.pins {
      var path := Create(p.fs, s.base, host.trial(n)).path.value;
      MountKinds(path, name);
      SocketsAppend(p.mounts, MapMount(path, name));
    }
  }

  /** One device that goes through: its socket mount, and its place among the server's devices. */
  lemma DeviceSockets(s: Settings, host: Host, n: nat, name: string, v: View, p: Progress)
    requires p.error.None? && AllocateDevice(s, host, n, name, v, p).error.None?
    ensures Sockets(AllocateDevice(s, host, n, name, v, p).mounts)
         == Sockets(p.mounts) + if s.serves then [SocketMount(s.udsPath, name)] else []
  {
    MountKinds(s.udsPath, name);
    SocketsAppend(p.mounts, SocketMount(s.udsPath, name));
    if host.cycles(n) {
      var q := if s.serves then p.(mounts := p.mounts + [SocketMount(s.udsPath, name)]) else p;
      PinEffect(s, host, n, name, Load(s, host, n, name, q));
    }
  }

  lemma DeviceServed(s: Settings, host: Host, n: nat, name: string, v: View, p: Progress)
    requires p.error.None? && AllocateDevice(s, host, n, name, v, p).error.None?
    ensures var q := AllocateDevice(s, host, n, name, v, p);
      && q.served.Keys == p.served.Keys + (if s.serves && host.cycles(n) then {name} else {})
      && (AllPositive(p.served) ==> AllPositive(q.served))
  {
    if host.cycles(n) {
      var q := if s.serves then p.(mounts := p.mounts + [SocketMount(s.udsPath, name)]) else p;
      PinEffect(s, host, n, name, Load(s, host, n, name, q));
    }
  }

  lemma {:induction false} DevicesEffect(s: Settings, known: map<string, View>, host: Host, n: nat, ids: seq<string>,
                                         p: Progress)
    requires Known(known, ids) && p.error.None? && AllocateDevices(s, known, host, n, ids, p).error.None?
    ensures var q := AllocateDevices(s, known, host, n, ids, p);
      && Sockets(q.mounts) == Sockets(p.mounts) + (if s.serves then SocketMounts(s, ids) else [])
      && q.served.Keys == p.served.Keys + ServedFrom(s, host, n, ids)
      && (AllPositive(p.served) ==> AllPositive(q.served))
    decreases |ids|
  {
    if ids != [] {
      var q := AllocateDevice(s, host, n, ids[0], known[ids[0]], p);
      DeviceSockets(s, host, n, ids[0], known[ids[0]], p);
      DeviceServed(s, host, n, ids[0], known[ids[0]], p);
      DevicesEffect(s, known, host, n + 1, ids[1..], q);
      CycledCons(host, n, ids);
      if s.serves {
        ConcatAssoc(Sockets(p.mounts), [SocketMount(s.udsPath, ids[0])], SocketMounts(s, ids[1..]));
      }
    }
  }

  lemma CycledAppend(host: Host, n: nat, a: seq<string>, b: seq<string>)
    ensures Cycled(host, n, a + b) == Cycled(host, n, a) + Cycled(host, n + |a|, b)
  {
    forall x | x in Cycled(host, n, a + b) ensures x in Cycled(host, n, a) + Cycled(host, n + |a|, b) {
      var k :| 0 <= k < |a + b| && host.cycles(n + k) && x == (a + b)[k];
      if k >= |a| {
        assert b[k - |a|] == x && host.cycles(n + |a| + (k - |a|));
      }
    }
    forall x | x in Cycled(host, n, a) ensures x in Cycled(host, n, a + b) {
      var k :| 0 <= k < |a| && host.cycles(n + k) && x == a[k];
      assert (a + b)[k] == x;
    }
    forall x | x in Cycled(host, n + |a|, b) ensures x in Cycled(host, n, a + b) {
      var k :| 0 <= k < |b| && host.cycles(n + |a| + k) && x == b[k];
      assert (a + b)[|a| + k] == x && host.cycles(n + (|a| + k));
    }
  }

  /** The response to one container's request. */
  predicate Mirrors(s: Settings, ids: seq<string>, r: ContainerResponse) {
    && r.envs == map[EnvName(s.name) := Join(ids, " ")]
    && Sockets(r.mounts) == if s.serves then SocketMounts(s, ids) else []
  }

  predicate AllMirror(s: Settings, requests: seq<seq<string>>, responses: seq<ContainerResponse>) {
    |responses| == |requests| && forall c | 0 <= c < |requests| :: Mirrors(s, requests[c], responses[c])
  }

  lemma UnionAssoc(a: set<string>, b: set<string>, c: set<string>)
    ensures (a + b) + c == a + (b + c)
    ensures (a + {}) + {} == a + {}
  {
  }

  lemma ServedTogether(s: Settings, host: Host, n: nat, a: seq<string>, b: seq<string>, before: set<string>)
    ensures before + ServedFrom(s, host, n, a) + ServedFrom(s, host, n + |a|, b)
         == before + ServedFrom(s, host, n, a + b)
  {
    if s.serves {
      CycledAppend(host, n, a, b);
      UnionAssoc(before, Cycled(host, n, a), Cycled(host, n + |a|, b));
    } else {
      UnionAssoc(before, {}, {});
    }
  }

  /** The server got to know exactly `more`. */
  predicate Grown(before: set<string>, after: set<string>, more: set<string>) { after == before + more }

  /** The devices of one container: its response, and what the server gets to know. */
  lemma RequestMirrors(s: Settings, known: map<string, View>, host: Host, n: nat, ids: seq<string>, p: Progress)
    requires Known(known, ids) && p.error.None?
    requires AllocateDevices(s, known, host, n, ids, p.(mounts := [])).error.None?
    ensures Mirrors(s, ids, Response(s, ids, AllocateDevices(s, known, host, n, ids, p.(mounts := [])).mounts))
  {
    DevicesEffect(s, known, host, n, ids, p.(mounts := []));
    assert [] + SocketMounts(s, ids) == SocketMounts(s, ids);
  }

  lemma RequestServed(s: Settings, known: map<string, View>, host: Host, n: nat, ids: seq<string>, p: Progress)
    requires Known(known, ids) && p.error.None?
    requires AllocateDevices(s, known, host, n, ids, p.(mounts := [])).error.None?
    ensures var q := AllocateDevices(s, known, host, n, ids, p.(mounts := []));
      && Grown(p.served.Keys, q.served.Keys, ServedFrom(s, host, n, ids))
      && (AllPositive(p.served) ==> AllPositive(q.served))
  {
    DevicesEffect(s, known, host, n, ids, p.(mounts := []));
  }

  lemma AllMirrorCons(s: Settings, requests: seq<seq<string>>, first: ContainerResponse, rest: seq<ContainerResponse>)
    requires requests != [] && Mirrors(s, requests[0], first) && AllMirror(s, requests[1..], rest)
    ensures AllMirror(s, requests, [first] + rest)
  {
  }

  lemma {:induction false} ContainersMirror(s: Settings, known: map<string, View>, host: Host, n: nat,
                                            requests: seq<seq<string>>, p: Progress)
    requires AllKnown(known, requests) && p.error.None?
    requires AllocateContainers(s, known, host, n, requests, p).progress.error.None?
    ensures AllMirror(s, requests, AllocateContainers(s, known, host, n, requests, p).responses)
    decreases |requests|
  {
    if requests != [] {
      var q := AllocateDevices(s, known, host, n, requests[0], p.(mounts := []));
      RequestMirrors(s, known, host, n, requests[0], p);
      ContainersMirror(s, known, host, n + |requests[0]|, requests[1..], q);
      AllMirrorCons(s, requests, Response(s, requests[0], q.mounts),
                    AllocateContainers(s, known, host, n + |requests[0]|, requests[1..], q).responses);
    }
  }

  lemma ServedStep(s: Settings, host: Host, n: nat, a: seq<string>, b: seq<string>, p: set<string>, q: set<string>,
                   r: set<string>)
    requires Grown(p, q, ServedFrom(s, host, n, a)) && Grown(q, r, ServedFrom(s, host, n + |a|, b))
    ensures Grown(p, r, ServedFrom(s, host, n, a + b))
  {
    ServedTogether(s, host, n, a, b, p);
  }

  /** The first container goes through, and the rest leads to the same end. */
  lemma FirstContainer(s: Settings, known: map<string, View>, host: Host, n: nat, requests: seq<seq<string>>,
                       p: Progress)
    returns (q: Progress)
    requires AllKnown(known, requests) && requests != []
    requires AllocateContainers(s, known, host, n, requests, p).progress.error.None?
    ensures q == AllocateDevices(s, known, host, n, requests[0], p.(mounts := [])) && q.error.None?
    ensures AllocateContainers(s, known, host, n, requests, p).progress
         == AllocateContainers(s, known, host, n + |requests[0]|, requests[1..], q).progress
  {
    q := AllocateDevices(s, known, host, n, requests[0], p.(mounts := []));
  }

  /** The devices that the server knows after the containers. */
  lemma {:induction false} ContainersServed(s: Settings, known: map<string, View>, host: Host, n: nat,
                                            requests: seq<seq<string>>, p: Progress)
    returns (served: set<string>)
    requires AllKnown(known, requests) && p.error.None?
    requires AllocateContainers(s, known, host, n, requests, p).progress.error.None?
    ensures served == AllocateContainers(s, known, host, n, requests, p).progress.served.Keys
    ensures Grown(p.served.Keys, served, ServedFrom(s, host, n, Flat(requests)))
    decreases |requests|
  {
    if requests == [] {
      served := p.served.Keys;
      assert ServedFrom(s, host, n, []) == {};
    } else {
      var q := FirstContainer(s, known, host, n, requests, p);
      RequestServed(s, known, host, n, requests[0], p);
      served := ContainersServed(s, known, host, n + |requests[0]|, requests[1..], q);
      ServedStep(s, host, n, requests[0], Flat(requests[1..]), p.served.Keys, q.served.Keys, served);
    }
  }

  lemma {:induction false} ContainersPositive(s: Settings, known: map<string, View>, host: Host, n: nat,
                                              requests: seq<seq<string>>, p: Progress)
    requires AllKnown(known, requests) && p.error.None? && AllPositive(p.served)
    requires AllocateContainers(s, known, host, n, requests, p).progress.error.None?
    ensures AllPositive(AllocateContainers(s, known, host, n, requests, p).progress.served)
    decreases |requests|
  {
    if requests != [] {
      var q := AllocateDevices(s, known, host, n, requests[0], p.(mounts := []));
      RequestServed(s, known, host, n, requests[0], p);
      ContainersPositive(s, known, host, n + |requests[0]|, requests[1..], q);
    }
  }

  /**
   A successful response mirrors the request: one container response per container, in order; the socket mounts of
   each are those of its devices, in order; its variable splits back into its devices; and the server knows exactly
   the devices that could be cycled, each with a real descriptor.
   */
  lemma ResponseMirrorsRequest(s: Settings, known: map<string, View>, host: Host, requests: seq<seq<string>>, fs: Fs,
                               maps: map<string, string>)
    requires AllKnown(known, requests)
    requires AllocateAll(s, known, host, requests, fs, maps).progress.error.None?
    ensures var t := AllocateAll(s, known, host, requests, fs, maps);
      && |t.responses| == |requests|
      && (forall c | 0 <= c < |requests| ::
            && Sockets(t.responses[c].mounts) == (if s.serves then SocketMounts(s, requests[c]) else [])
            && t.responses[c].envs.Keys == {EnvName(s.name)}
            && (requests[c] != [] && (forall k | 0 <= k < |requests[c]| :: ' ' !in requests[c][k]) ==>
                  Split(t.responses[c].envs[EnvName(s.name)], " ") == requests[c]))
      && t.progress.served.Keys == ServedFrom(s, host, 0, Flat(requests))
      && AllPositive(t.progress.served)
  {
    ContainersMirror(s, known, host, 0, requests, Progress(map[], fs, maps, [], None));
    var served := ContainersServed(s, known, host, 0, requests, Progress(map[], fs, maps, [], None));
    ContainersPositive(s, known, host, 0, requests, Progress(map[], fs, maps, [], None));
    forall c | 0 <= c < |requests| && requests[c] != [] && forall k | 0 <= k < |requests[c]| :: ' ' !in requests[c][k]
      ensures Split(Join(requests[c], " "), " ") == requests[c]
    {
      SplitJoin(requests[c], ' ');
    }
  }

  /** A request that fails is answered with the containers before the failure, and they are answered like any other. */
  lemma {:induction false} ResponsesSoFar(s: Settings, known: map<string, View>, host: Host, n: nat,
                                          requests: seq<seq<string>>, p: Progress)
    requires AllKnown(known, requests) && p.error.None?
    ensures var t := AllocateContainers(s, known, host, n, requests, p);
      && |t.responses| <= |requests| && (|t.responses| == |requests| <==> t.progress.error.None?)
      && AllMirror(s, requests[..|t.responses|], t.responses)
    decreases |requests|
  {
    if requests != [] {
      var q := AllocateDevices(s, known, host, n, requests[0], p.(mounts := []));
      if q.error.None? {
        var rest := AllocateContainers(s, known, host, n + |requests[0]|, requests[1..], q).responses;
        RequestMirrors(s, known, host, n, requests[0], p);
        ResponsesSoFar(s, known, host, n + |requests[0]|, requests[1..], q);
        assert requests[..|rest| + 1][1..] == requests[1..][..|rest|];
        AllMirrorCons(s, requests[..|rest| + 1], Response(s, requests[0], q.mounts), rest);
      }
    }
  }

  // ---------- The variable of a container ----------

  /** Upper-casing works letter by letter and leaves everything else. */
  lemma {:induction false} UpperExactly(s: string)
    ensures |Upper(s)| == |s|
    ensures forall k | 0 <= k < |s| ::
              Upper(s)[k] == if 'a' <= s[k] <= 'z' then (s[k] as int - 32) as char else s[k]
  {
    if s != "" {
      UpperExactly(s[1..]);
      forall k | 0 <= k < |s|
        ensures Upper(s)[k] == if 'a' <= s[k] <= 'z' then (s[k] as int - 32) as char else s[k]
      {
        if k > 0 {
          assert Upper(s)[k] == Upper(s[1..])[k - 1];
        }
      }
    }
  }

  /** A variable is named after the pool: the fixed prefix and the pool's name in capitals. */
  ghost predicate NamedAfter(variable: string, pool: string) {
    && |variable| == |"AFXDP_DEVICES_"| + |pool| && variable[..|"AFXDP_DEVICES_"|] == "AFXDP_DEVICES_"
    && forall k | 0 <= k < |pool| ::
         var c := variable[|"AFXDP_DEVICES_"| + k];
         && !('a' <= c <= 'z')
         && c == if 'a' <= pool[k] <= 'z' then (pool[k] as int - 32) as char else pool[k]
  }

  lemma EnvNamedAfter(pool: string)
    ensures NamedAfter(EnvName(pool), pool)
  {
    UpperExactly(pool);
    assert EnvName(pool) == "AFXDP_DEVICES_" + Upper(pool);
  }

  /** Every container of every answer, also of one that ends in an error, has exactly one variable, and that name. */
  lemma VariableNamedAfterPool(s: Settings, known: map<string, View>, host: Host, requests: seq<seq<string>>, fs: Fs,
                               maps: map<string, string>, c: nat)
    requires AllKnown(known, requests)
    requires c < |AllocateAll(s, known, host, requests, fs, maps).responses|
    ensures var t := AllocateAll(s, known, host, requests, fs, maps);
      && c < |requests|
      && exists variable ::
           NamedAfter(variable, s.name) && t.responses[c].envs == map[variable := Join(requests[c], " ")]
  {
    ResponsesSoFar(s, known, host, 0, requests, Progress(map[], fs, maps, [], None));
    EnvNamedAfter(s.name);
    var responses := AllocateAll(s, known, host, requests, fs, maps).responses;
    assert Mirrors(s, requests[..|responses|][c], responses[c]);
  }

  /** The responses of a request in terms of its pool's name. */
  ghost predicate VariablesNamed(responses: seq<ContainerResponse>, requests: seq<seq<string>>, pool: string) {
    && |responses| <= |requests|
    && forall c | 0 <= c < |responses| ::
         exists variable :: NamedAfter(variable, pool) && responses[c].envs == map[variable := Join(requests[c], " ")]
  }

  lemma AllVariablesNamed(s: Settings, known: map<string, View>, host: Host, requests: seq<seq<string>>, fs: Fs,
                          maps: map<string, string>)
    requires AllKnown(known, requests)
    ensures VariablesNamed(AllocateAll(s, known, host, requests, fs, maps).responses, requests, s.name)
  {
    ResponsesSoFar(s, known, host, 0, requests, Progress(map[], fs, maps, [], None));
    var responses := AllocateAll(s, known, host, requests, fs, maps).responses;
    forall c | 0 <= c < |responses|
      ensures exists variable ::
                NamedAfter(variable, s.name) && responses[c].envs == map[variable := Join(requests[c], " ")]
    {
      VariableNamedAfterPool(s, known, host, requests, fs, maps, c);
    }
  }

  // ---------- Which descriptor, which map ----------

  /** Nothing recorded about other devices than `changed` is different, and no mount has gone. */
  ghost predicate Keeps(p: Progress, q: Progress, changed: seq<string>) {
    && (forall d | d in p.served && d !in changed :: d in q.served && q.served[d] == p.served[d])
    && (forall d | d in p.maps && d !in changed :: d in q.maps && q.maps[d] == p.maps[d])
    && p.fs.mounts <= q.fs.mounts
  }

  /** Device `name`, the n-th of the request, is recorded with its own descriptor and a mounted directory. */
  predicate Recorded(s: Settings, host: Host, n: nat, name: string, q: Progress) {
    host.cycles(n) ==>
      && (s.serves ==> name in q.served && q.served[name] == host.descriptor(n))
      && (s.pins ==> name in q.maps && q.maps[name] in q.fs.mounts)
  }

  ghost predicate AllRecorded(s: Settings, host: Host, n: nat, ids: seq<string>, q: Progress) {
    forall k | 0 <= k < |ids| :: Recorded(s, host, n + k, ids[k], q)
  }

  lemma DeviceRecorded(s: Settings, host: Host, n: nat, name: string, v: View, p: Progress)
    requires AllocateDevice(s, host, n, name, v, p).error.None?
    ensures var q := AllocateDevice(s, host, n, name, v, p); Recorded(s, host, n, name, q) && Keeps(p, q, [name])
  {
  }

  lemma RecordedKept(s: Settings, host: Host, n: nat, name: string, p: Progress, q: Progress, changed: seq<string>)
    requires Recorded(s, host, n, name, p) && Keeps(p, q, changed) && name !in changed
    ensures Recorded(s, host, n, name, q)
  {
  }

  lemma {:induction false} DevicesRecorded(s: Settings, known: map<string, View>, host: Host, n: nat,
                                           ids: seq<string>, p: Progress)
    requires Known(known, ids) && NoDuplicates(ids)
    requires AllocateDevices(s, known, host, n, ids, p).error.None?
    ensures var q := AllocateDevices(s, known, host, n, ids, p); AllRecorded(s, host, n, ids, q) && Keeps(p, q, ids)
    decreases |ids|
  {
    if ids != [] {
      var rest := ids[1..];
      var r := AllocateDevice(s, host, n, ids[0], known[ids[0]], p);
      DeviceRecorded(s, host, n, ids[0], known[ids[0]], p);
      DevicesRecorded(s, known, host, n + 1, rest, r);
      var q := AllocateDevices(s, known, host, n, ids, p);
      RecordedKept(s, host, n, ids[0], r, q, rest);
      forall k | 0 <= k < |ids| ensures Recorded(s, host, n + k, ids[k], q) {
        if k > 0 {
          assert Recorded(s, host, n + 1 + (k - 1), rest[k - 1], q);
        }
      }
      assert forall d | d in rest :: d in ids;
    }
  }

  /** Two consecutive parts of a request. */
  lemma RecordedTogether(s: Settings, host: Host, n: nat, a: seq<string>, b: seq<string>, p: Progress, r: Progress,
                         q: Progress)
    requires NoDuplicates(a + b)
    requires AllRecorded(s, host, n, a, r) && Keeps(p, r, a)
    requires AllRecorded(s, host, n + |a|, b, q) && Keeps(r, q, b)
    ensures AllRecorded(s, host, n, a + b, q) && Keeps(p, q, a + b)
  {
    forall k | 0 <= k < |a + b| ensures Recorded(s, host, n + k, (a + b)[k], q) {
      if k < |a| {
        assert Recorded(s, host, n + k, a[k], r);
        forall j | 0 <= j < |b| ensures b[j] != a[k] {
          assert (a + b)[k] != (a + b)[|a| + j];
        }
        RecordedKept(s, host, n + k, a[k], r, q, b);
      } else {
        assert Recorded(s, host, n + |a| + (k - |a|), b[k - |a|], q);
      }
    }
  }

  lemma PartsHaveNoDuplicates(a: seq<string>, b: seq<string>)
    requires NoDuplicates(a + b)
    ensures NoDuplicates(a) && NoDuplicates(b)
  {
    assert forall k | 0 <= k < |a| :: a[k] == (a + b)[k];
    assert forall k | 0 <= k < |b| :: b[k] == (a + b)[|a| + k];
  }

  lemma {:induction false} ContainersRecorded(s: Settings, known: map<string, View>, host: Host, n: nat,
                                              requests: seq<seq<string>>, p: Progress)
    requires AllKnown(known, requests) && NoDuplicates(Flat(requests))
    requires AllocateContainers(s, known, host, n, requests, p).progress.error.None?
    ensures var q := AllocateContainers(s, known, host, n, requests, p).progress;
            AllRecorded(s, host, n, Flat(requests), q) && Keeps(p, q, Flat(requests))
    decreases |requests|
  {
    if requests != [] {
      var ids, rest := requests[0], Flat(requests[1..]);
      var r := AllocateDevices(s, known, host, n, ids, p.(mounts := []));
      PartsHaveNoDuplicates(ids, rest);
      DevicesRecorded(s, known, host, n, ids, p.(mounts := []));
      ContainersRecorded(s, known, host, n + |ids|, requests[1..], r);
      RecordedTogether(s, host, n, ids, rest, p, r, AllocateContainers(s, known, host, n, requests, p).progress);
    }
  }

  /**
   After a successful request for distinct devices, the server holds each device's own descriptor and the map manager
   a mounted directory for it.
   */
  lemma RequestRecorded(s: Settings, known: map<string, View>, host: Host, requests: seq<seq<string>>, fs: Fs,
                        maps: map<string, string>)
    requires AllKnown(known, requests) && NoDuplicates(Flat(requests))
    requires AllocateAll(s, known, host, requests, fs, maps).progress.error.None?
    ensures var q := AllocateAll(s, known, host, requests, fs, maps).progress;
      forall k: nat | k < |Flat(requests)| && host.cycles(k) ::
        var name := Flat(requests)[k];
        && (s.serves ==> name in q.served && q.served[name] == host.descriptor(k))
        && (s.pins ==> name in q.maps && q.maps[name] in q.fs.mounts)
  {
    ContainersRecorded(s, known, host, 0, requests, Progress(map[], fs, maps, [], None));
    var q := AllocateAll(s, known, host, requests, fs, maps).progress;
    forall k: nat | k < |Flat(requests)| ensures Recorded(s, host, k, Flat(requests)[k], q) {
      assert Recorded(s, host, 0 + k, Flat(requests)[k], q);
    }
  }

  // ---------- The whole mount list ----------

  /** The mounts of a container: the server's socket for every device, and the recorded map of every cycled one. */
  function MountList(s: Settings, host: Host, n: nat, ids: seq<string>, maps: map<string, string>): seq<Mount>
    decreases |ids|
  {
    if ids == [] then []
    else
      (if s.serves then [SocketMount(s.udsPath, ids[0])] else [])
      + (if s.pins && host.cycles(n) && ids[0] in maps then [MapMount(maps[ids[0]], ids[0])] else [])
      + MountList(s, host, n + 1, ids[1..], maps)
  }

  lemma {:induction false} MountListKept(s: Settings, host: Host, n: nat, ids: seq<string>, before: map<string, string>,
                                         after: map<string, string>)
    requires forall k | 0 <= k < |ids| && host.cycles(n + k) && s.pins ::
               ids[k] in before && ids[k] in after && after[ids[k]] == before[ids[k]]
    ensures MountList(s, host, n, ids, after) == MountList(s, host, n, ids, before)
    decreases |ids|
  {
    if ids != [] {
      forall k | 0 <= k < |ids[1..]| && host.cycles(n + 1 + k) && s.pins
        ensures ids[1..][k] in before && ids[1..][k] in after && after[ids[1..][k]] == before[ids[1..][k]]
      {
        assert host.cycles(n + (k + 1));
      }
      MountListKept(s, host, n + 1, ids[1..], before, after);
    }
  }

  lemma DeviceMounts(s: Settings, host: Host, n: nat, name: string, v: View, p: Progress)
    requires AllocateDevice(s, host, n, name, v, p).error.None?
    ensures var q := AllocateDevice(s, host, n, name, v, p);
      q.mounts == p.mounts + ((if s.serves then [SocketMount(s.udsPath, name)] else [])
                              + if s.pins && host.cycles(n) && name in q.maps then [MapMount(q.maps[name], name)]
                                else [])
  {
  }

  lemma {:induction false} DevicesMounts(s: Settings, known: map<string, View>, host: Host, n: nat, ids: seq<string>,
                                         p: Progress)
    requires Known(known, ids) && NoDuplicates(ids)
    requires AllocateDevices(s, known, host, n, ids, p).error.None?
    ensures var q := AllocateDevices(s, known, host, n, ids, p);
      q.mounts == p.mounts + MountList(s, host, n, ids, q.maps)
    decreases |ids|
  {
    if ids == [] {
      assert p.mounts + [] == p.mounts;
    } else {
      var rest, name := ids[1..], ids[0];
      var r := AllocateDevice(s, host, n, name, known[name], p);
      var q := AllocateDevices(s, known, host, n, ids, p);
      DeviceMounts(s, host, n, name, known[name], p);
      DeviceRecorded(s, host, n, name, known[name], p);
      DevicesRecorded(s, known, host, n + 1, rest, r);
      DevicesMounts(s, known, host, n + 1, rest, r);
      FirstMounts(s, host, n, ids, p.mounts, r.maps, q.maps);
    }
  }

  /** The mounts of the first device followed by those of the rest. */
  lemma FirstMounts(s: Settings, host: Host, n: nat, ids: seq<string>, mounts: seq<Mount>, before: map<string, string>,
                    after: map<string, string>)
    requires ids != []
    requires s.pins && host.cycles(n) ==> ids[0] in before && ids[0] in after && before[ids[0]] == after[ids[0]]
    ensures mounts
            + ((if s.serves then [SocketMount(s.udsPath, ids[0])] else [])
               + (if s.pins && host.cycles(n) && ids[0] in before then [MapMount(before[ids[0]], ids[0])] else []))
            + MountList(s, host, n + 1, ids[1..], after)
         == mounts + MountList(s, host, n, ids, after)
  {
    var a := if s.serves then [SocketMount(s.udsPath, ids[0])] else [];
    var b := if s.pins && host.cycles(n) && ids[0] in before then [MapMount(before[ids[0]], ids[0])] else [];
    ConcatAssoc(mounts, a + b, MountList(s, host, n + 1, ids[1..], after));
  }

  /** How many devices the containers before container c request. */
  function Offset(requests: seq<seq<string>>, c: nat): nat
    requires c <= |requests|
  {
    if c == 0 then 0 else |requests[0]| + Offset(requests[1..], c - 1)
  }

  ghost predicate MountsAsListed(s: Settings, host: Host, n: nat, requests: seq<seq<string>>,
                                 responses: seq<ContainerResponse>,
                                 maps: map<string, string>)
  {
    && |responses| == |requests|
    && forall c | 0 <= c < |requests| ::
         responses[c].mounts == MountList(s, host, n + Offset(requests, c), requests[c], maps)
  }

  lemma MountsAsListedCons(s: Settings, host: Host, n: nat, requests: seq<seq<string>>, first: ContainerResponse,
                           rest: seq<ContainerResponse>, maps: map<string, string>)
    requires requests != [] && first.mounts == MountList(s, host, n, requests[0], maps)
    requires MountsAsListed(s, host, n + |requests[0]|, requests[1..], rest, maps)
    ensures MountsAsListed(s, host, n, requests, [first] + rest, maps)
  {
    var all := [first] + rest;
    forall c | 0 <= c < |requests|
      ensures all[c].mounts == MountList(s, host, n + Offset(requests, c), requests[c], maps)
    {
      if c > 0 {
        assert all[c] == rest[c - 1] && requests[c] == requests[1..][c - 1];
      }
    }
  }

  lemma EarlierMapsKept(s: Settings, host: Host, n: nat, ids: seq<string>, rest: seq<string>, q: Progress, r: Progress)
    requires NoDuplicates(ids + rest) && AllRecorded(s, host, n, ids, q) && Keeps(q, r, rest)
    ensures MountList(s, host, n, ids, r.maps) == MountList(s, host, n, ids, q.maps)
  {
    forall k | 0 <= k < |ids| && host.cycles(n + k) && s.pins
      ensures ids[k] in q.maps && ids[k] in r.maps && r.maps[ids[k]] == q.maps[ids[k]]
    {
      assert Recorded(s, host, n + k, ids[k], q);
      forall j | 0 <= j < |rest| ensures rest[j] != ids[k] {
        assert (ids + rest)[k] != (ids + rest)[|ids| + j];
      }
    }
    MountListKept(s, host, n, ids, q.maps, r.maps);
  }

  lemma OwnMounts(s: Settings, known: map<string, View>, host: Host, n: nat, ids: seq<string>, p: Progress)
    requires Known(known, ids) && NoDuplicates(ids)
    requires AllocateDevices(s, known, host, n, ids, p.(mounts := [])).error.None?
    ensures var q := AllocateDevices(s, known, host, n, ids, p.(mounts := []));
      q.mounts == MountList(s, host, n, ids, q.maps) && AllRecorded(s, host, n, ids, q)
  {
    DevicesMounts(s, known, host, n, ids, p.(mounts := []));
    DevicesRecorded(s, known, host, n, ids, p.(mounts := []));
    var list := MountList(s, host, n, ids, AllocateDevices(s, known, host, n, ids, p.(mounts := [])).maps);
    assert [] + list == list;
  }

  /** What the first container's response lists is not changed by the containers after it. */
  lemma FirstContainerMounts(s: Settings, known: map<string, View>, host: Host, n: nat, requests: seq<seq<string>>,
                             p: Progress)
    requires AllKnown(known, requests) && requests != [] && NoDuplicates(Flat(requests))
    requires AllocateContainers(s, known, host, n, requests, p).progress.error.None?
    ensures AllocateDevices(s, known, host, n, requests[0], p.(mounts := [])).mounts
         == MountList(s, host, n, requests[0], AllocateContainers(s, known, host, n, requests, p).progress.maps)
  {
    var q := FirstContainer(s, known, host, n, requests, p);
    PartsHaveNoDuplicates(requests[0], Flat(requests[1..]));
    OwnMounts(s, known, host, n, requests[0], p);
    ContainersRecorded(s, known, host, n + |requests[0]|, requests[1..], q);
    EarlierMapsKept(s, host, n, requests[0], Flat(requests[1..]), q,
                    AllocateContainers(s, known, host, n + |requests[0]|, requests[1..], q).progress);
  }

  lemma {:induction false} ContainersMounts(s: Settings, known: map<string, View>, host: Host, n: nat,
                                            requests: seq<seq<string>>, p: Progress)
    requires AllKnown(known, requests) && NoDuplicates(Flat(requests))
    requires AllocateContainers(s, known, host, n, requests, p).progress.error.None?
    ensures var t := AllocateContainers(s, known, host, n, requests, p);
      MountsAsListed(s, host, n, requests, t.responses, t.progress.maps)
    decreases |requests|
  {
    if requests != [] {
      var ids, rest := requests[0], Flat(requests[1..]);
      var q := AllocateDevices(s, known, host, n, ids, p.(mounts := []));
      var t := AllocateContainers(s, known, host, n + |ids|, requests[1..], q);
      PartsHaveNoDuplicates(ids, rest);
      FirstContainerMounts(s, known, host, n, requests, p);
      ContainersMounts(s, known, host, n + |ids|, requests[1..], q);
      MountsAsListedCons(s, host, n, requests, Response(s, ids, q.mounts), t.responses, t.progress.maps);
    }
  }

  /**
   For distinct devices the mounts of every container are, device by device and in order, the server's socket followed
   by the map of the device's own recorded directory if the device was cycled; nothing else is mounted.
   */
  lemma ResponseMounts(s: Settings, known: map<string, View>, host: Host, requests: seq<seq<string>>, fs: Fs,
                       maps: map<string, string>)
    requires AllKnown(known, requests) && NoDuplicates(Flat(requests))
    requires AllocateAll(s, known, host, requests, fs, maps).progress.error.None?
    ensures var t := AllocateAll(s, known, host, requests, fs, maps);
      && |t.responses| == |requests|
      && forall c | 0 <= c < |requests| ::
           t.responses[c].mounts == MountList(s, host, Offset(requests, c), requests[c], t.progress.maps)
  {
    ContainersMounts(s, known, host, 0, requests, Progress(map[], fs, maps, [], None));
    var t := AllocateAll(s, known, host, requests, fs, maps);
    assert MountsAsListed(s, host, 0, requests, t.responses, t.progress.maps);
  }

  // ---------- From allocation to admission ----------

  /** The devices of an allocation in which every device could be cycled. */
  lemma AllCycled(host: Host, ids: seq<string>)
    requires forall k: nat | k < |ids| :: host.cycles(k)
    ensures Cycled(host, 0, ids) == Elements(ids)
  {
    forall x | x in Elements(ids) ensures x in Cycled(host, 0, ids) {
      var k :| 0 <= k < |ids| && ids[k] == x;
      assert host.cycles(0 + k);
    }
  }

  /** The requested devices whose state could be cycled, in order. */
  function CycledIds(host: Host, n: nat, ids: seq<string>): (cycled: seq<string>)
    decreases |ids|
  {
    if ids == [] then []
    else (if host.cycles(n) then [ids[0]] else []) + CycledIds(host, n + 1, ids[1..])
  }

  lemma ElementsPrepend(x: string, ids: seq<string>)
    ensures Elements([x] + ids) == {x} + Elements(ids)
  {
  }

  lemma {:induction false} CycledIdsElements(host: Host, n: nat, ids: seq<string>)
    ensures Elements(CycledIds(host, n, ids)) == Cycled(host, n, ids)
    decreases |ids|
  {
    if ids == [] {
      assert Cycled(host, n, ids) == {};
    } else {
      CycledIdsElements(host, n + 1, ids[1..]);
      CycledCons(host, n, ids);
      ElementsPrepend(ids[0], CycledIds(host, n + 1, ids[1..]));
    }
  }

  lemma {:induction false} CycledIdsDistinct(host: Host, n: nat, ids: seq<string>)
    requires NoDuplicates(ids)
    ensures NoDuplicates(CycledIds(host, n, ids))
    decreases |ids|
  {
    if ids != [] {
      var rest := CycledIds(host, n + 1, ids[1..]);
      CycledIdsElements(host, n + 1, ids[1..]);
      CycledIdsDistinct(host, n + 1, ids[1..]);
      forall k | 0 <= k < |rest| ensures rest[k] != ids[0] {
        assert rest[k] in Elements(rest);
      }
    }
  }

  lemma {:induction false} AllCycledIds(host: Host, n: nat, ids: seq<string>)
    requires forall m: nat | n <= m < n + |ids| :: host.cycles(m)
    ensures CycledIds(host, n, ids) == ids
    decreases |ids|
  {
    if ids != [] {
      AllCycledIds(host, n + 1, ids[1..]);
    }
  }

  /**
   End to end, whatever the outcome of cycling: after an allocation of distinct devices the server accepts a pod whose
   device lists do not repeat exactly if some device could be cycled and one of the pod's containers holds a
   permutation of the cycled devices.
   */
  lemma AllocatedPodIsAccepted(s: Settings, known: map<string, View>, host: Host, requests: seq<seq<string>>, fs: Fs,
                               maps: map<string, string>, pod: Pod, resource: string)
    requires s.serves && AllKnown(known, requests) && NoDuplicates(Flat(requests))
    requires AllocateAll(s, known, host, requests, fs, maps).progress.error.None?
    requires forall c | 0 <= c < |pod.containers| :: NoDuplicates(IdsFor(pod.containers[c], resource))
    ensures var cycled := CycledIds(host, 0, Flat(requests));
      Accepts(pod, resource, AllocateAll(s, known, host, requests, fs, maps).progress.served.Keys)
      <==> cycled != [] && exists c | 0 <= c < |pod.containers| ::
             multiset(IdsFor(pod.containers[c], resource)) == multiset(cycled)
  {
    var cycled := CycledIds(host, 0, Flat(requests));
    ResponseMirrorsRequest(s, known, host, requests, fs, maps);
    CycledIdsElements(host, 0, Flat(requests));
    CycledIdsDistinct(host, 0, Flat(requests));
    if cycled != [] {
      AcceptsPermutation(pod, resource, cycled);
    } else {
      assert Elements(cycled) == {};
    }
  }

  /** If every requested device could be cycled, the permutation is one of the requested devices. */
  lemma CycledPodIsAccepted(s: Settings, known: map<string, View>, host: Host, requests: seq<seq<string>>, fs: Fs,
                            maps: map<string, string>, pod: Pod, resource: string)
    requires s.serves && AllKnown(known, requests) && NoDuplicates(Flat(requests))
    requires forall k: nat | k < |Flat(requests)| :: host.cycles(k)
    requires AllocateAll(s, known, host, requests, fs, maps).progress.error.None?
    requires forall c | 0 <= c < |pod.containers| :: NoDuplicates(IdsFor(pod.containers[c], resource))
    ensures Accepts(pod, resource, AllocateAll(s, known, host, requests, fs, maps).progress.served.Keys)
            <==> Flat(requests) != [] && exists c | 0 <= c < |pod.containers| ::
                   multiset(IdsFor(pod.containers[c], resource)) == multiset(Flat(requests))
  {
    AllocatedPodIsAccepted(s, known, host, requests, fs, maps, pod, resource);
    AllCycledIds(host, 0, Flat(requests));
  }

  /** If some requested device could not be cycled, no container that holds the requested devices is accepted. */
  lemma SkippedDeviceRejectsPod(s: Settings, known: map<string, View>, host: Host, ids: seq<string>, fs: Fs,
                                maps: map<string, string>, bad: nat)
    requires s.serves && Known(known, ids) && NoDuplicates(ids)
    requires bad < |ids| && !host.cycles(bad)
    requires AllocateAll(s, known, host, [ids], fs, maps).progress.error.None?
    ensures forall list | multiset(list) == multiset(ids) ::
              !Matches(list, AllocateAll(s, known, host, [ids], fs, maps).progress.served.Keys)
  {
    ResponseMirrorsRequest(s, known, host, [ids], fs, maps);
    assert Flat([ids]) == ids;
    var served := AllocateAll(s, known, host, [ids], fs, maps).progress.served.Keys;
    forall k | 0 <= k < |ids| && host.cycles(0 + k) ensures ids[k] != ids[bad] {
      assert k != bad;
    }
    assert ids[bad] !in served;
    forall list | multiset(list) == multiset(ids) ensures !Matches(list, served) {
      assert ids[bad] in multiset(ids);
      assert ids[bad] in list;
    }
  }

  /**
   One request for several containers: a pod that holds exactly what was requested is accepted only if a single
   container requested all the devices.
   */
  lemma SharedServerNeedsOneContainer(s: Settings, known: map<string, View>, host: Host, requests: seq<seq<string>>,
                                      fs: Fs, maps: map<string, string>,
                                      pod: Pod, resource: string)
    requires s.serves && AllKnown(known, requests) && NoDuplicates(Flat(requests))
    requires forall k: nat | k < |Flat(requests)| :: host.cycles(k)
    requires AllocateAll(s, known, host, requests, fs, maps).progress.error.None?
    requires |pod.containers| == |requests|
    requires forall c | 0 <= c < |requests| :: IdsFor(pod.containers[c], resource) == requests[c]
    ensures Accepts(pod, resource, AllocateAll(s, known, host, requests, fs, maps).progress.served.Keys)
            <==> exists c | 0 <= c < |requests| ::
                   requests[c] != [] && forall b | 0 <= b < |requests| && b != c :: requests[b] == []
  {
    ResponseMirrorsRequest(s, known, host, requests, fs, maps);
    AllCycled(host, Flat(requests));
    AcceptsOneContainerOnly(pod, resource, requests);
  }

  /** In every conversation with the server of an allocation, every acknowledgement carries a real descriptor. */
  lemma EveryAckCarriesADescriptor(s: Settings, known: map<string, View>, host: Host, requests: seq<seq<string>>,
                                   fs: Fs, maps: map<string, string>,
                                   o: Outcomes, pods: Option<map<string, Pod>>, resource: string, inbox: seq<Read>)
    requires AllKnown(known, requests)
    requires AllocateAll(s, known, host, requests, fs, maps).progress.error.None?
    ensures var served := AllocateAll(s, known, host, requests, fs, maps).progress.served;
      forall e | e in Serve(o, served, pods, resource, inbox) && e.Sent? && e.text == RESPONSE_FD_ACK ::
        e.fd > 0 && exists d :: d in served && e.fd == served[d]
  {
    ResponseMirrorsRequest(s, known, host, requests, fs, maps);
    var served := AllocateAll(s, known, host, requests, fs, maps).progress.served;
    DescriptorSafety(o, served, pods, resource, inbox);
    var log := Serve(o, served, pods, resource, inbox);
    forall e | e in log && e.Sent? && e.text == RESPONSE_FD_ACK
      ensures e.fd > 0 && exists d :: d in served && e.fd == served[d]
    {
      var k :| 0 <= k < |log| && log[k] == e;
      assert SafeAt(served, log, k);
    }
  }

  /**
   The whole way: the server of an allocation answers a connection request with "/host_ok" exactly if the named pod is
   on the node, some device could be cycled, and one of the pod's containers holds a permutation of the cycled devices.
   */
  lemma AllocatedServerAdmits(s: Settings, known: map<string, View>, host: Host, requests: seq<seq<string>>, fs: Fs,
                              maps: map<string, string>, o: Outcomes, pods: map<string, Pod>, request: string,
                              podName: string)
    requires s.serves && AllKnown(known, requests) && NoDuplicates(Flat(requests))
    requires AllocateAll(s, known, host, requests, fs, maps).progress.error.None?
    requires AsksToConnect(request, podName)
    requires podName in pods ==> forall c | 0 <= c < |pods[podName].containers| ::
               NoDuplicates(IdsFor(pods[podName].containers[c], DEVICE_PREFIX + "/" + s.name))
    ensures var resource := DEVICE_PREFIX + "/" + s.name;
            var served := AllocateAll(s, known, host, requests, fs, maps).progress.served;
            var cycled := CycledIds(host, 0, Flat(requests));
      Greet(o, served, Some(pods), resource, request, 1).events == [Answer(o, 1, RESPONSE_HOST_OK, -1)]
      <==> podName in pods && cycled != [] && exists c | 0 <= c < |pods[podName].containers| ::
             multiset(IdsFor(pods[podName].containers[c], resource)) == multiset(cycled)
  {
    var resource := DEVICE_PREFIX + "/" + s.name;
    var served := AllocateAll(s, known, host, requests, fs, maps).progress.served;
    GreetByName(o, served, pods, resource, request, podName);
    if podName in pods {
      AllocatedPodIsAccepted(s, known, host, requests, fs, maps, pods[podName], resource);
    }
  }

  lemma GreetByName(o: Outcomes, served: map<string, int>, pods: map<string, Pod>, resource: string, request: string,
                    podName: string)
    requires AsksToConnect(request, podName)
    ensures Greet(o, served, Some(pods), resource, request, 1).events == [Answer(o, 1, RESPONSE_HOST_OK, -1)]
            <==> podName in pods && Accepts(pods[podName], resource, served.Keys)
  {
    ConnectGrammar(request, podName);
    PrefixOccurs(request, REQUEST_CONNECT);
    var events := Greet(o, served, Some(pods), resource, request, 1).events;
    assert events[0].text == RESPONSE_HOST_OK || events[0].text == RESPONSE_HOST_NAK;
  }

  /** Pinning the map of one device is an allocation step of the runs in BpfMaps. */
  lemma PinIsAnAllocation(s: Settings, host: Host, n: nat, name: string, p: Progress, sys: Sys, pool: nat)
    requires s.pins && p.error.None?
    requires pool < |sys.maps| == |sys.bases| && sys.bases[pool] == s.base && sys.fs == p.fs && sys.maps[pool] == p.maps
    ensures var q := Pin(s, host, n, name, p);
      BpfMaps.Step(Entry(sys, Op.Allocate(pool, name, host.trial(n), host.pins(n)),
                         Sys(q.fs, sys.bases, sys.maps[pool := q.maps]),
                         Create(p.fs, s.base, host.trial(n)).picked, q.error.None?))
  {
    assert sys.maps[pool := sys.maps[pool]] == sys.maps;
  }

  /** The state of the lifecycle in which one pool has made this progress. */
  function At(sys: Sys, pool: nat, p: Progress): Sys
    requires pool < |sys.maps|
  {
    Sys(p.fs, sys.bases, sys.maps[pool := p.maps])
  }

  predicate Matching(s: Settings, sys: Sys, pool: nat, p: Progress) {
    && pool < |sys.maps| == |sys.bases| && sys.bases[pool] == s.base
    && sys.fs == p.fs && sys.maps[pool] == p.maps
  }

  lemma NothingPinned(s: Settings, sys: Sys, pool: nat, p: Progress, q: Progress)
    requires Matching(s, sys, pool, p) && q.fs == p.fs && q.maps == p.maps
    ensures Segment([], sys, At(sys, pool, q))
  {
    assert sys.maps[pool := sys.maps[pool]] == sys.maps;
  }

  /** Only entries of this pool, for devices of the request. */
  predicate EntriesFor(entries: seq<Entry>, pool: nat, ids: seq<string>) {
    forall k | 0 <= k < |entries| :: entries[k].op.Allocate? && entries[k].op.pool == pool && entries[k].op.dev in ids
  }

  lemma DeviceSegment(s: Settings, host: Host, n: nat, name: string, v: View, p: Progress, sys: Sys, pool: nat)
    returns (entries: seq<Entry>)
    requires Matching(s, sys, pool, p) && p.error.None?
    ensures Segment(entries, sys, At(sys, pool, AllocateDevice(s, host, n, name, v, p)))
    ensures EntriesFor(entries, pool, [name])
  {
    var q := AllocateDevice(s, host, n, name, v, p);
    var r := Load(s, host, n, name, if s.serves then p.(mounts := p.mounts + [SocketMount(s.udsPath, name)]) else p);
    if Activate(s, host, n, name, v).Some? || !host.cycles(n) || r.error.Some? || !s.pins {
      entries := [];
      NothingPinned(s, sys, pool, p, q);
    } else {
      PinIsAnAllocation(s, host, n, name, r, sys, pool);
      var e := Entry(sys, Op.Allocate(pool, name, host.trial(n), host.pins(n)), At(sys, pool, q),
                     Create(p.fs, s.base, host.trial(n)).picked, q.error.None?);
      entries := [e];
      assert Segment(entries[1..], e.post, e.post);
    }
  }

  lemma JoinedAt(a: seq<Entry>, b: seq<Entry>, sys: Sys, pool: nat, q: Progress,
                 r: Progress) returns (entries: seq<Entry>)
    requires pool < |sys.maps|
    requires Segment(a, sys, At(sys, pool, q)) && Segment(b, At(sys, pool, q), At(At(sys, pool, q), pool, r))
    ensures entries == a + b && Segment(entries, sys, At(sys, pool, r))
  {
    assert At(At(sys, pool, q), pool, r) == At(sys, pool, r);
    SegmentAppend(a, b, sys, At(sys, pool, q), At(sys, pool, r));
    entries := a + b;
  }

  lemma {:induction false} DevicesSegment(s: Settings, known: map<string, View>, host: Host, n: nat, ids: seq<string>,
                                          p: Progress, sys: Sys, pool: nat)
    returns (entries: seq<Entry>)
    requires Known(known, ids) && Matching(s, sys, pool, p) && p.error.None?
    ensures Segment(entries, sys, At(sys, pool, AllocateDevices(s, known, host, n, ids, p)))
    ensures EntriesFor(entries, pool, ids)
    decreases |ids|
  {
    if ids == [] {
      entries := [];
      NothingPinned(s, sys, pool, p, p);
    } else {
      var q := AllocateDevice(s, host, n, ids[0], known[ids[0]], p);
      entries := DeviceSegment(s, host, n, ids[0], known[ids[0]], p, sys, pool);
      if q.error.None? {
        var rest := DevicesSegment(s, known, host, n + 1, ids[1..], q, At(sys, pool, q), pool);
        var r := AllocateDevices(s, known, host, n + 1, ids[1..], q);
        entries := JoinedAt(entries, rest, sys, pool, q, r);
      }
    }
  }

  /** The state after the first container, from which the others continue. */
  lemma StillMatching(s: Settings, sys: Sys, pool: nat, p: Progress, q: Progress)
    requires Matching(s, sys, pool, p)
    ensures Matching(s, At(sys, pool, q), pool, q)
  {
  }

  /** Only entries of this pool, for devices that some container requests. */
  predicate EntriesOf(entries: seq<Entry>, pool: nat, requests: seq<seq<string>>) {
    EntriesFor(entries, pool, Flat(requests))
  }

  lemma EntriesOfBoth(a: seq<Entry>, b: seq<Entry>, pool: nat, requests: seq<seq<string>>)
    requires requests != [] && EntriesFor(a, pool, requests[0]) && EntriesOf(b, pool, requests[1..])
    ensures EntriesOf(a, pool, requests) && EntriesOf(a + b, pool, requests)
  {
    assert Flat(requests) == requests[0] + Flat(requests[1..]);
  }

  lemma JoinedContainers(a: seq<Entry>, b: seq<Entry>, sys: Sys, pool: nat, q: Progress, r: Progress,
                         requests: seq<seq<string>>)
    returns (entries: seq<Entry>)
    requires pool < |sys.maps| && requests != []
    requires EntriesFor(a, pool, requests[0]) && EntriesOf(b, pool, requests[1..])
    requires Segment(a, sys, At(sys, pool, q)) && Segment(b, At(sys, pool, q), At(At(sys, pool, q), pool, r))
    ensures Segment(entries, sys, At(sys, pool, r)) && EntriesOf(entries, pool, requests)
  {
    EntriesOfBoth(a, b, pool, requests);
    entries := JoinedAt(a, b, sys, pool, q, r);
  }

  /** The first container: where it leads. */
  lemma FirstSegment(s: Settings, known: map<string, View>, host: Host, n: nat, ids: seq<string>, p: Progress, sys: Sys,
                     pool: nat)
    returns (entries: seq<Entry>, q: Progress)
    requires Known(known, ids) && Matching(s, sys, pool, p) && p.error.None?
    ensures q == AllocateDevices(s, known, host, n, ids, p.(mounts := []))
    ensures Segment(entries, sys, At(sys, pool, q)) && EntriesFor(entries, pool, ids)
    ensures Matching(s, At(sys, pool, q), pool, q)
  {
    q := AllocateDevices(s, known, host, n, ids, p.(mounts := []));
    entries := DevicesSegment(s, known, host, n, ids, p.(mounts := []), sys, pool);
    StillMatching(s, sys, pool, p, q);
  }

  /** The end of the containers in terms of the first one. */
  lemma EndAfterFirst(s: Settings, known: map<string, View>, host: Host, n: nat, requests: seq<seq<string>>,
                      p: Progress, q: Progress)
    requires AllKnown(known, requests) && requests != []
    requires q == AllocateDevices(s, known, host, n, requests[0], p.(mounts := []))
    ensures AllocateContainers(s, known, host, n, requests, p).progress
         == if q.error.Some? then q
            else AllocateContainers(s, known, host, n + |requests[0]|, requests[1..], q).progress
  {
  }

  lemma {:induction false} ContainersSegment(s: Settings, known: map<string, View>, host: Host, n: nat,
                                             requests: seq<seq<string>>, p: Progress, sys: Sys, pool: nat)
    returns (entries: seq<Entry>, end: Progress)
    requires AllKnown(known, requests) && Matching(s, sys, pool, p) && p.error.None?
    ensures end == AllocateContainers(s, known, host, n, requests, p).progress
    ensures Segment(entries, sys, At(sys, pool, end)) && EntriesOf(entries, pool, requests)
    decreases |requests|
  {
    if requests == [] {
      entries, end := [], p;
      NothingPinned(s, sys, pool, p, p);
    } else {
      var first, q := FirstSegment(s, known, host, n, requests[0], p, sys, pool);
      EndAfterFirst(s, known, host, n, requests, p, q);
      if q.error.Some? {
        EntriesOfBoth(first, [], pool, requests);
        entries, end := first, q;
      } else {
        var rest;
        rest, end := ContainersSegment(s, known, host, n + |requests[0]|, requests[1..], q, At(sys, pool, q), pool);
        entries := JoinedContainers(first, rest, sys, pool, q, end, requests);
      }
    }
  }

  /**
   A whole request, successful or not, continues a run of the lifecycle: what holds of all runs holds with Allocate
   requests and deletions in any order.
   */
  lemma AllocationContinuesRun(s: Settings, known: map<string, View>, host: Host, requests: seq<seq<string>>,
                               run: seq<Entry>, sys: Sys, pool: nat)
    returns (entries: seq<Entry>)
    requires AllKnown(known, requests)
    requires pool < |sys.maps| == |sys.bases| && sys.bases[pool] == s.base
    requires BpfMaps.Run(run) && if run == [] then Started(sys) else sys == SysAt(run, |run|)
    ensures BpfMaps.Run(run + entries) && EntriesFor(entries, pool, Flat(requests))
    ensures var q := AllocateAll(s, known, host, requests, sys.fs, sys.maps[pool]).progress;
      if run + entries == [] then sys == At(sys, pool, q) else SysAt(run + entries, |run + entries|) == At(sys, pool, q)
  {
    var p := Progress(map[], sys.fs, sys.maps[pool], [], None);
    var end;
    entries, end := ContainersSegment(s, known, host, 0, requests, p, sys, pool);
    SegmentContinuesRun(run, entries, sys,
                        At(sys, pool, AllocateAll(s, known, host, requests, sys.fs, sys.maps[pool]).progress));
  }

  /** An allocation adds entries for devices of its own pool only, so it keeps a run within the pools. */
  lemma RequestStaysInPool(known: map<string, View>, requests: seq<seq<string>>, run: seq<Entry>, entries: seq<Entry>,
                           pool: nat, pools: seq<set<string>>)
    requires AllKnown(known, requests) && pool < |pools| && known.Keys <= pools[pool]
    requires FromPools(run, pools) && EntriesFor(entries, pool, Flat(requests))
    ensures FromPools(run + entries, pools)
  {
    FlatKnown(known, requests);
    FromPoolsAppend(run, entries, pools);
  }

  lemma {:induction false} FlatKnown(known: map<string, View>, requests: seq<seq<string>>)
    requires AllKnown(known, requests)
    ensures forall id | id in Flat(requests) :: id in known
  {
    if requests != [] {
      FlatKnown(known, requests[1..]);
      assert Flat(requests) == requests[0] + Flat(requests[1..]);
    }
  }

  lemma {:induction false} DevicesServeKnown(s: Settings, known: map<string, View>, host: Host, n: nat,
                                             ids: seq<string>, p: Progress)
    requires Known(known, ids) && p.served.Keys <= known.Keys
    ensures AllocateDevices(s, known, host, n, ids, p).served.Keys <= known.Keys
    decreases |ids|
  {
    if ids != [] {
      var q := AllocateDevice(s, host, n, ids[0], known[ids[0]], p);
      if q.error.None? {
        DevicesServeKnown(s, known, host, n + 1, ids[1..], q);
      }
    }
  }

  /** A server never gets to know a device that is not in its pool, not even when the request fails. */
  lemma {:induction false} ContainersServeKnown(s: Settings, known: map<string, View>, host: Host, n: nat,
                                                requests: seq<seq<string>>, p: Progress)
    requires AllKnown(known, requests) && p.served.Keys <= known.Keys
    ensures AllocateContainers(s, known, host, n, requests, p).progress.served.Keys <= known.Keys
    decreases |requests|
  {
    if requests != [] {
      var q := AllocateDevices(s, known, host, n, requests[0], p.(mounts := []));
      DevicesServeKnown(s, known, host, n, requests[0], p.(mounts := []));
      if q.error.None? {
        ContainersServeKnown(s, known, host, n + |requests[0]|, requests[1..], q);
      }
    }
  }

  function Served(s: Settings, known: map<string, View>, host: Host, requests: seq<seq<string>>, fs: Fs,
                  maps: map<string, string>): set<string>
    requires AllKnown(known, requests)
  {
    AllocateAll(s, known, host, requests, fs, maps).progress.served.Keys
  }

  /** A host on which everything succeeds. */
  function GoodHost(): Host {
    Host(_ => ActivationHost(Some(true), None, None, true), _ => true, _ => 1, _ => Trial(true, _ => "u", true, true,
         true, true), _ => true)
  }

  lemma OneServed(s: Settings, known: map<string, View>, dev: string)
    requires Prepared(s, known) && dev in known && s.serves
    ensures AllKnown(known, [[dev]]) && dev in Served(s, known, GoodHost(), [[dev]], Fs({}, {}), map[])
  {
    var p := Progress(map[], Fs({}, {}), map[], [], None);
    var q := AllocateDevice(s, GoodHost(), 0, dev, known[dev], p);
    assert PickName(Fs({}, {}), s.base, GoodHost().trial(0).uuid, 0).Some?;
    assert q.error.None? && dev in q.served;
    DevicesFrom(s, known, GoodHost(), 0, [dev], 0, p);
    assert AllocateDevices(s, known, GoodHost(), 0, [dev], p) == q;
    ContainersFrom(s, known, GoodHost(), 0, [[dev]], 0, p);
  }

  /**
   Two pools' servers can get to know a common device, on some host and for some requests, if and only if the pools
   share a device.
   */
  lemma ServersApartExactly(s: Settings, known: map<string, View>, s': Settings, known': map<string, View>)
    requires Prepared(s, known) && Prepared(s', known') && s.serves && s'.serves
    ensures (forall host, requests, fs, maps, host', requests', fs', maps' |
               AllKnown(known, requests) && AllKnown(known', requests') ::
               Served(s, known, host, requests, fs, maps) !! Served(s', known', host', requests', fs', maps'))
            <==> known.Keys !! known'.Keys
  {
    forall host, requests, fs, maps | AllKnown(known, requests)
      ensures Served(s, known, host, requests, fs, maps) <= known.Keys
    {
      ContainersServeKnown(s, known, host, 0, requests, Progress(map[], fs, maps, [], None));
    }
    forall host, requests, fs, maps | AllKnown(known', requests)
      ensures Served(s', known', host, requests, fs, maps) <= known'.Keys
    {
      ContainersServeKnown(s', known', host, 0, requests, Progress(map[], fs, maps, [], None));
    }
    if !(known.Keys !! known'.Keys) {
      var dev :| dev in known.Keys && dev in known'.Keys;
      OneServed(s, known, dev);
      OneServed(s', known', dev);
      assert !(Served(s, known, GoodHost(), [[dev]], Fs({}, {}), map[])
               !! Served(s', known', GoodHost(), [[dev]], Fs({}, {}), map[]));
    }
  }
}
