// The per-device BPF file systems of internal/bpf/mapManager.go and their deletion through
// internal/dpcnisyncerserver/server.go, on values: whole runs of allocations and deletions.

module BpfMaps {
  import opened Options

  // ---------- The file system and what may go wrong ----------

  /** The paths that exist and those that are mounted. */
  datatype Fs = Fs(paths: set<string>, mounts: set<string>)

  /** How the steps of one CreateBPFFS go: the checks of the base directory, the random names, the system calls. */
  datatype Trial = Trial(baseOk: bool, uuid: nat -> string, mkdir: bool, permissions: bool, mount: bool, share: bool)

  /** How the system calls of one DeleteBPFFS go when they are possible at all. */
  datatype Removal = Removal(unmount: bool, remove: bool)

  const NAME_ATTEMPTS := 5

  /** generateRandomBpffsName: the first of five random names that does not exist. */
  function PickName(fs: Fs, base: string, uuid: nat -> string, count: nat): (r: Option<string>)
    ensures r.Some? ==> r.value !in fs.paths && exists i: nat | i < NAME_ATTEMPTS :: r.value == base + uuid(i)
    ensures r.None? ==> forall i: nat | count <= i < NAME_ATTEMPTS :: base + uuid(i) in fs.paths
    decreases NAME_ATTEMPTS - count
  {
    if count >= NAME_ATTEMPTS then None
    else if base + uuid(count) !in fs.paths then Some(base + uuid(count))
    else PickName(fs, base, uuid, count + 1)
  }

  /** The first free name in the order of the attempts. */
  lemma {:induction false} PicksFirst(fs: Fs, base: string, uuid: nat -> string, count: nat, i: nat)
    requires count <= i < NAME_ATTEMPTS && base + uuid(i) !in fs.paths
    requires forall j: nat | count <= j < i :: base + uuid(j) in fs.paths
    ensures PickName(fs, base, uuid, count) == Some(base + uuid(i))
    decreases i - count
  {
    if count < i {
      PicksFirst(fs, base, uuid, count + 1, i);
    }
  }

  /** `path` is the returned path, `picked` the name chosen, which may be left behind when a later step fails. */
  datatype Creation = Creation(fs: Fs, picked: Option<string>, path: Option<string>)

  function Create(fs: Fs, base: string, trial: Trial): Creation {
    var picked := if trial.baseOk then PickName(fs, base, trial.uuid, 0) else None;
    if picked.None? || !trial.mkdir then Creation(fs, picked, None)
    else
      var made := fs.(paths := fs.paths + {picked.value});
      if !trial.permissions || !trial.mount then Creation(made, picked, None)
      else
        var mounted := made.(mounts := made.mounts + {picked.value});
        Creation(mounted, picked, if trial.share then picked else None)
  }

  datatype Deletion = Deletion(fs: Fs, ok: bool)

  /** Unmounting needs a mount and removing needs the directory to be free of one. */
  function Delete(fs: Fs, path: Option<string>, removal: Removal): Deletion {
    if path.None? || path.value !in fs.paths then Deletion(fs, false)
    else if path.value !in fs.mounts || !removal.unmount then Deletion(fs, false)
    else
      var unmounted := fs.(mounts := fs.mounts - {path.value});
      if !removal.remove then Deletion(unmounted, false)
      else Deletion(unmounted.(paths := unmounted.paths - {path.value}), true)
  }

  /** The first manager that knows the device, in order of registration. */
  function Lookup(maps: seq<map<string, string>>, dev: string): (r: Option<nat>)
    ensures r.Some? ==> r.value < |maps| && dev in maps[r.value]
    ensures r.Some? ==> forall m | 0 <= m < r.value :: dev !in maps[m]
    ensures r.None? ==> forall m | 0 <= m < |maps| :: dev !in maps[m]
  {
    if maps == [] then None
    else if dev in maps[0] then Some(0)
    else
      match Lookup(maps[1..], dev)
      case None => None
      case Some(m) => Some(m + 1)
  }

  lemma LookupFirst(maps: seq<map<string, string>>, dev: string, m: nat)
    requires m <= |maps| && forall i | 0 <= i < m :: dev !in maps[i]
    ensures m < |maps| && dev in maps[m] ==> Lookup(maps, dev) == Some(m)
    ensures m == |maps| ==> Lookup(maps, dev) == None
  {
  }

  function PathOf(maps: seq<map<string, string>>, dev: string): Option<string> {
    match Lookup(maps, dev)
    case None => None
    case Some(m) => Some(maps[m][dev])
  }

  // ---------- Runs ----------

  /** The base directory and the device map of every registered manager, and the shared file system. */
  datatype Sys = Sys(fs: Fs, bases: seq<string>, maps: seq<map<string, string>>)

  datatype Op =
    | Allocate(pool: nat, dev: string, trial: Trial, pinned: bool)
    | DelNetDev(dev: string, enabled: bool, removal: Removal)

  datatype Entry = Entry(pre: Sys, op: Op, post: Sys, picked: Option<string>, ok: bool) {
    predicate Allocates(dev: string) { op.Allocate? && op.dev == dev && ok }

    predicate Deletes(dev: string) { op.DelNetDev? && op.dev == dev && ok }

    /** A deletion of the device, successful or not, that changed the file system. */
    predicate Disturbs(dev: string) { op.DelNetDev? && op.dev == dev && post != pre }
  }

  ghost predicate Step(e: Entry) {
    match e.op
    case Allocate(pool, dev, trial, pinned) =>
      && pool < |e.pre.maps| == |e.pre.bases|
      && var creation := Create(e.pre.fs, e.pre.bases[pool], trial);
         && e.picked == creation.picked && e.ok == (creation.path.Some? && pinned)
         && e.post == e.pre.(fs := creation.fs,
                             maps := if e.ok then e.pre.maps[pool := e.pre.maps[pool][dev := creation.path.value]]
                                     else e.pre.maps)
    case DelNetDev(dev, enabled, removal) =>
      var deletion := if enabled then Delete(e.pre.fs, PathOf(e.pre.maps, dev), removal) else Deletion(e.pre.fs, false);
      e.picked == None && e.ok == deletion.ok && e.post == e.pre.(fs := deletion.fs)
  }

  predicate Started(s: Sys) {
    && s.fs.mounts <= s.fs.paths
    && |s.maps| == |s.bases| && forall m | 0 <= m < |s.maps| :: s.maps[m] == map[]
  }

  /** The state before entry k, which is the state after the entry before it. */
  function SysAt(run: seq<Entry>, k: nat): Sys
    requires run != [] && k <= |run|
  {
    if k == 0 then run[0].pre else run[k - 1].post
  }

  ghost predicate Run(run: seq<Entry>) {
    && (run != [] ==> Started(run[0].pre))
    && (forall k {:trigger Step(run[k])} | 0 <= k < |run| :: Step(run[k]) && run[k].pre == SysAt(run, k))
  }

  /** Random names never repeat. */
  ghost predicate FreshNames(run: seq<Entry>) {
    forall i, j | 0 <= i < j < |run| && run[i].picked.Some? && run[j].picked.Some? :: run[i].picked != run[j].picked
  }

  /** Every device belongs to one pool. */
  ghost predicate OwnedDevices(run: seq<Entry>) {
    forall i, j | && 0 <= i < |run| && 0 <= j < |run| && run[i].op.Allocate? && run[j].op.Allocate?
                  && run[i].op.dev == run[j].op.dev ::
      run[i].op.pool == run[j].op.pool
  }

  /** Entry j is the latest successful allocation of the device among the first k entries. */
  ghost predicate Latest(run: seq<Entry>, k: nat, dev: string, j: nat)
    requires k <= |run|
  {
    j < k && run[j].Allocates(dev) && forall i | j < i < k :: !run[i].Allocates(dev)
  }

  /** Entry j is the latest successful allocation of the device in pool m among the first k entries. */
  ghost predicate LatestIn(run: seq<Entry>, k: nat, m: int, dev: string, j: nat)
    requires k <= |run|
  {
    && j < k && run[j].Allocates(dev) && run[j].op.pool == m
    && forall i | j < i < k :: !(run[i].Allocates(dev) && run[i].op.pool == m)
  }

  /** Entry j is the device's latest allocation in the first pool, by number, that it was ever allocated in. */
  ghost predicate Found(run: seq<Entry>, k: nat, dev: string, j: nat)
    requires k <= |run|
  {
    && j < k && run[j].op.Allocate? && LatestIn(run, k, run[j].op.pool, dev, j)
    && forall i | 0 <= i < k && run[i].Allocates(dev) :: run[j].op.pool <= run[i].op.pool
  }

  /** No deletion of the device since entry j has changed anything. */
  ghost predicate Undisturbed(run: seq<Entry>, k: nat, dev: string, j: nat)
    requires k <= |run|
  {
    forall i | j < i < k :: !run[i].Disturbs(dev)
  }

  /** The entry of a device map comes from the device's latest allocation in this pool. */
  ghost predicate Explained(run: seq<Entry>, k: nat, m: int, dev: string)
    requires k <= |run|
  {
    exists j: nat :: LatestIn(run, k, m, dev, j)
  }

  /** The path of an allocation is what the map of its pool says. */
  ghost predicate Held(s: Sys, e: Entry)
    requires e.op.Allocate?
  {
    && e.op.pool < |s.maps| && e.picked.Some?
    && e.op.dev in s.maps[e.op.pool] && s.maps[e.op.pool][e.op.dev] == e.picked.value
  }

  /** What the device maps say agrees with the history of the run. */
  ghost predicate MapsAgree(run: seq<Entry>, k: nat)
    requires run != [] && k <= |run|
  {
    var s := SysAt(run, k);
    && s.fs.mounts <= s.fs.paths && |s.maps| == |s.bases|
    && (forall m, dev | 0 <= m < |s.maps| && dev in s.maps[m] :: Explained(run, k, m, dev))
    && (forall m, dev, j: nat | LatestIn(run, k, m, dev, j) :: Held(s, run[j]))
  }

  /** What a deletion would find is still mounted exactly while undisturbed. */
  ghost predicate MountsAgree(run: seq<Entry>, k: nat)
    requires run != [] && k <= |run|
  {
    forall dev, j: nat | Found(run, k, dev, j) :: MountAgrees(run, k, dev, j)
  }

  ghost predicate MountAgrees(run: seq<Entry>, k: nat, dev: string, j: nat)
    requires j < k <= |run|
  {
    run[j].picked.Some? && (run[j].picked.value in SysAt(run, k).fs.mounts <==> Undisturbed(run, k, dev, j))
  }

  lemma LatestInStep(run: seq<Entry>, k: nat, m: int, dev: string, j: nat)
    requires k < |run|
    ensures LatestIn(run, k + 1, m, dev, j) <==>
            if run[k].Allocates(dev) && run[k].op.pool == m then j == k else LatestIn(run, k, m, dev, j)
  {
  }

  /** Only an allocation changes what is found, and only to itself. */
  lemma FoundStep(run: seq<Entry>, k: nat, dev: string, j: nat)
    requires k < |run| && Found(run, k + 1, dev, j) && j < k
    ensures Found(run, k, dev, j)
  {
    LatestInStep(run, k, run[j].op.pool, dev, j);
  }

  lemma UndisturbedStep(run: seq<Entry>, k: nat, dev: string, j: nat)
    requires j < k < |run|
    ensures Undisturbed(run, k + 1, dev, j) <==> Undisturbed(run, k, dev, j) && !run[k].Disturbs(dev)
  {
  }

  /** The facts about the step from k to k + 1 that the invariants need. */
  ghost predicate Stepping(run: seq<Entry>, k: nat) {
    k < |run| && Step(run[k]) && SysAt(run, k) == run[k].pre && SysAt(run, k + 1) == run[k].post
  }

  lemma StepKeepsEntries(run: seq<Entry>, k: nat, m: nat, d: string)
    requires Stepping(run, k) && MapsAgree(run, k)
    requires m < |run[k].post.maps| && d in run[k].post.maps[m]
    ensures Explained(run, k + 1, m, d)
  {
    var e := run[k];
    if e.Allocates(d) && m == e.op.pool {
      LatestInStep(run, k, m, d, k);
    } else {
      assert d in e.pre.maps[m] && Explained(run, k, m, d);
      var j: nat :| LatestIn(run, k, m, d, j);
      LatestInStep(run, k, m, d, j);
    }
  }

  lemma StepKeepsHeld(run: seq<Entry>, k: nat, m: int, d: string, j: nat)
    requires Stepping(run, k) && MapsAgree(run, k) && LatestIn(run, k + 1, m, d, j)
    ensures Held(run[k].post, run[j])
  {
    LatestInStep(run, k, m, d, j);
    if j < k {
      assert Held(run[k].pre, run[j]);
    }
  }

  lemma StepKeepsShape(e: Entry)
    requires Step(e) && e.pre.fs.mounts <= e.pre.fs.paths && |e.pre.maps| == |e.pre.bases|
    ensures e.post.fs.mounts <= e.post.fs.paths && |e.post.maps| == |e.post.bases|
  {
  }

  lemma MapsStep(run: seq<Entry>, k: nat)
    requires Stepping(run, k) && MapsAgree(run, k)
    ensures MapsAgree(run, k + 1)
  {
    var s, n := run[k].post, k + 1;
    StepKeepsShape(run[k]);
    forall m, d | 0 <= m < |s.maps| && d in s.maps[m] ensures Explained(run, n, m, d) {
      StepKeepsEntries(run, k, m, d);
    }
    forall m, d, j: nat | LatestIn(run, n, m, d, j) ensures Held(s, run[j]) {
      StepKeepsHeld(run, k, m, d, j);
    }
  }

  /** The maps agree with the history whatever names are drawn and whichever pools share a device. */
  lemma {:induction false} MapsKept(run: seq<Entry>, k: nat)
    requires Run(run) && run != [] && k <= |run|
    ensures MapsAgree(run, k)
  {
    if k > 0 {
      MapsKept(run, k - 1);
      assert Step(run[k - 1]);
      MapsStep(run, k - 1);
    }
  }

  /** An allocated device has a latest allocation in the pool. */
  lemma {:induction false} SomeLatestIn(run: seq<Entry>, k: nat, i: nat) returns (j: nat)
    requires i < k <= |run| && run[i].op.Allocate? && run[i].ok
    ensures i <= j && LatestIn(run, k, run[i].op.pool, run[i].op.dev, j)
    decreases k
  {
    var m, dev := run[i].op.pool, run[i].op.dev;
    if run[k - 1].Allocates(dev) && run[k - 1].op.pool == m {
      j := k - 1;
    } else {
      j := SomeLatestIn(run, k - 1, i);
    }
    LatestInStep(run, k - 1, m, dev, j);
  }

  /** The entry of the first map that holds the device, and only this one, is found. */
  lemma LookupFinds(run: seq<Entry>, k: nat, dev: string, j: nat)
    requires Run(run) && run != [] && k <= |run| && MapsAgree(run, k)
    requires j < k && run[j].Allocates(dev) && LatestIn(run, k, run[j].op.pool, dev, j)
    ensures Found(run, k, dev, j) <==> Lookup(SysAt(run, k).maps, dev) == Some(run[j].op.pool)
  {
    var maps := SysAt(run, k).maps;
    assert Held(SysAt(run, k), run[j]);
    var m := Lookup(maps, dev).value;
    if m == run[j].op.pool {
      forall i | 0 <= i < k && run[i].Allocates(dev) ensures m <= run[i].op.pool {
        var i' := SomeLatestIn(run, k, i);
        assert Held(SysAt(run, k), run[i']);
      }
    } else {
      assert Explained(run, k, m, dev);
    }
  }

  /** The path DelNetDev finds, whichever pools share the device. */
  lemma FirstPoolPath(run: seq<Entry>, k: nat, dev: string)
    requires Run(run) && run != [] && k <= |run|
    ensures var found := PathOf(SysAt(run, k).maps, dev);
      && (found.Some? <==> exists j: nat :: Found(run, k, dev, j))
      && (forall j: nat | Found(run, k, dev, j) :: run[j].picked == found)
  {
    MapsKept(run, k);
    var maps := SysAt(run, k).maps;
    if Lookup(maps, dev).Some? {
      assert Explained(run, k, Lookup(maps, dev).value, dev);
      var j: nat :| LatestIn(run, k, Lookup(maps, dev).value, dev, j);
      LookupFinds(run, k, dev, j);
    }
    forall j: nat | Found(run, k, dev, j) ensures PathOf(maps, dev) == run[j].picked {
      LookupFinds(run, k, dev, j);
      assert Held(SysAt(run, k), run[j]);
    }
  }

  /** For devices that belong to one pool, what is found is the latest allocation. */
  lemma OwnedFound(run: seq<Entry>, k: nat, dev: string, j: nat)
    requires OwnedDevices(run) && k <= |run|
    ensures Found(run, k, dev, j) <==> Latest(run, k, dev, j)
  {
    if j < k && run[j].Allocates(dev) {
      forall i | 0 <= i < k && run[i].Allocates(dev) ensures run[i].op.pool == run[j].op.pool {
      }
    }
  }

  /** The latest allocation of a device is held by the map of its pool. */
  lemma LatestHeld(run: seq<Entry>, k: nat, dev: string, j: nat)
    requires Run(run) && run != [] && k <= |run| && Latest(run, k, dev, j)
    ensures MapsAgree(run, k) && LatestIn(run, k, run[j].op.pool, dev, j) && Held(SysAt(run, k), run[j])
  {
    MapsKept(run, k);
    assert LatestIn(run, k, run[j].op.pool, dev, j);
  }

  /** What a deletion does, in terms of the path found. */
  lemma DeletionStep(e: Entry)
    requires Step(e) && e.op.DelNetDev?
    ensures var path := PathOf(e.pre.maps, e.op.dev);
      && e.post.maps == e.pre.maps && e.picked == None
      && (e.post != e.pre <==>
            e.op.enabled && path.Some? && path.value in e.pre.fs.paths * e.pre.fs.mounts && e.op.removal.unmount)
      && (e.post != e.pre ==> e.post.fs.mounts == e.pre.fs.mounts - {path.value})
      && (e.ok <==> e.post != e.pre && e.op.removal.remove)
      && e.post.fs.paths == if e.ok then e.pre.fs.paths - {path.value} else e.pre.fs.paths
  {
    var path := PathOf(e.pre.maps, e.op.dev);
    if path.Some? && path.value in e.pre.fs.mounts {
      assert path.value !in e.pre.fs.mounts - {path.value};
    }
  }

  lemma AllocateKeepsMount(run: seq<Entry>, k: nat, d: string, j: nat)
    requires Stepping(run, k) && FreshNames(run) && run[k].op.Allocate? && MountsAgree(run, k)
    requires Found(run, k + 1, d, j)
    ensures MountAgrees(run, k + 1, d, j)
  {
    if j < k {
      FoundStep(run, k, d, j);
      assert MountAgrees(run, k, d, j);
      UndisturbedStep(run, k, d, j);
      assert run[k].picked != run[j].picked;
    }
  }

  lemma DeleteKeepsMount(run: seq<Entry>, k: nat, d: string, j: nat)
    requires Stepping(run, k) && FreshNames(run) && run[k].op.DelNetDev? && MountsAgree(run, k)
    requires Run(run) && Found(run, k + 1, d, j)
    ensures MountAgrees(run, k + 1, d, j)
  {
    var e := run[k];
    FoundStep(run, k, d, j);
    UndisturbedStep(run, k, d, j);
    assert MountAgrees(run, k, d, j);
    DeletionStep(e);
    FirstPoolPath(run, k, e.op.dev);
    if PathOf(e.pre.maps, e.op.dev).Some? {
      var i: nat :| Found(run, k, e.op.dev, i);
      assert d != e.op.dev ==> i != j && run[i].picked != run[j].picked;
    }
  }

  lemma MountsStep(run: seq<Entry>, k: nat)
    requires Run(run) && Stepping(run, k) && FreshNames(run) && MountsAgree(run, k)
    ensures MountsAgree(run, k + 1)
  {
    var n := k + 1;
    forall d, j: nat | Found(run, n, d, j) ensures MountAgrees(run, n, d, j) {
      if run[k].op.Allocate? {
        AllocateKeepsMount(run, k, d, j);
      } else {
        DeleteKeepsMount(run, k, d, j);
      }
    }
  }

  /** With names that never repeat, the mounts agree with the history as well. */
  lemma {:induction false} HistoryKept(run: seq<Entry>, k: nat)
    requires Run(run) && FreshNames(run) && run != [] && k <= |run|
    ensures MapsAgree(run, k) && MountsAgree(run, k)
  {
    MapsKept(run, k);
    if k > 0 {
      HistoryKept(run, k - 1);
      assert Step(run[k - 1]);
      MountsStep(run, k - 1);
    }
  }

  // ---------- Main results ----------

  /**
   A deletion succeeds exactly when pinning is enabled, the system calls go through, and the allocation it finds has
   not been disturbed by a deletion since. It then removes the directory and the mount which that allocation made, and
   nothing else; the device maps never change.
   */
  lemma SharedDeletionLifecycle(run: seq<Entry>, k: nat)
    requires Run(run) && FreshNames(run) && k < |run| && run[k].op.DelNetDev?
    ensures var e := run[k];
      && (e.ok <==> && e.op.enabled && e.op.removal.unmount && e.op.removal.remove
                    && exists j: nat :: Found(run, k, e.op.dev, j) && Undisturbed(run, k, e.op.dev, j))
      && e.post.maps == e.pre.maps
      && (e.ok ==> forall j: nat | Found(run, k, e.op.dev, j) ::
            && run[j].picked.Some? && run[j].picked.value in e.pre.fs.mounts
            && e.post.fs == Fs(e.pre.fs.paths - {run[j].picked.value}, e.pre.fs.mounts - {run[j].picked.value}))
  {
    HistoryKept(run, k);
    var e := run[k];
    assert Step(e) && SysAt(run, k) == e.pre;
    DeletionStep(e);
    FirstPoolPath(run, k, e.op.dev);
    forall j: nat | Found(run, k, e.op.dev, j) ensures MountAgrees(run, k, e.op.dev, j) {
    }
  }

  /** For devices that belong to one pool, the allocation in question is the device's latest. */
  lemma DeletionLifecycle(run: seq<Entry>, k: nat)
    requires Run(run) && FreshNames(run) && OwnedDevices(run)
    requires k < |run| && run[k].op.DelNetDev?
    ensures var e := run[k];
      && (e.ok <==> && e.op.enabled && e.op.removal.unmount && e.op.removal.remove
                    && exists j: nat :: Latest(run, k, e.op.dev, j) && Undisturbed(run, k, e.op.dev, j))
      && e.post.maps == e.pre.maps
      && (e.ok ==> forall j: nat | Latest(run, k, e.op.dev, j) ::
            && run[j].picked.Some? && run[j].picked.value in e.pre.fs.mounts
            && e.post.fs == Fs(e.pre.fs.paths - {run[j].picked.value}, e.pre.fs.mounts - {run[j].picked.value}))
  {
    SharedDeletionLifecycle(run, k);
    forall j: nat ensures Found(run, k, run[k].op.dev, j) <==> Latest(run, k, run[k].op.dev, j) {
      OwnedFound(run, k, run[k].op.dev, j);
    }
  }

  /**
   Without that, a successful deletion removes the path of the device's latest allocation exactly if the pool of this
   allocation is the first whose map holds the device, that is, if no pool before it was ever given the device.
   */
  lemma DeletesLatestExactly(run: seq<Entry>, k: nat, j: nat)
    requires Run(run) && FreshNames(run)
    requires k < |run| && run[k].Deletes(run[k].op.dev) && Latest(run, k, run[k].op.dev, j)
    ensures run[j].picked.Some?
    ensures var path, e := run[j].picked.value, run[k];
      && (e.post.fs == Fs(e.pre.fs.paths - {path}, e.pre.fs.mounts - {path}) && path in e.pre.fs.mounts
          <==> Lookup(e.pre.maps, e.op.dev) == Some(run[j].op.pool))
      && (Lookup(e.pre.maps, e.op.dev) == Some(run[j].op.pool) <==>
            forall i | 0 <= i < k && run[i].Allocates(e.op.dev) :: run[j].op.pool <= run[i].op.pool)
  {
    var e := run[k];
    assert Step(e) && SysAt(run, k) == e.pre;
    LatestHeld(run, k, e.op.dev, j);
    LookupFinds(run, k, e.op.dev, j);
    DeletionStep(e);
    FirstPoolPath(run, k, e.op.dev);
    var i: nat :| Found(run, k, e.op.dev, i);
    if i != j {
      assert run[i].picked != run[j].picked;
      LookupFinds(run, k, e.op.dev, i);
    }
  }

  /** A repeated deletion without a new allocation fails and changes nothing, whatever the system calls do. */
  lemma RepeatedDeletionFails(run: seq<Entry>, i: nat, k: nat)
    requires Run(run) && FreshNames(run)
    requires i < k < |run| && run[k].op.DelNetDev?
    requires run[i].Deletes(run[k].op.dev) || run[i].Disturbs(run[k].op.dev)
    requires forall j | i < j < k :: !run[j].Allocates(run[k].op.dev)
    ensures !run[k].ok && run[k].post == run[k].pre
  {
    HistoryKept(run, k);
    var e := run[k];
    assert Step(e) && SysAt(run, k) == e.pre;
    DeletionStep(e);
    FirstPoolPath(run, k, e.op.dev);
    assert run[i].Disturbs(e.op.dev) by {
      assert Step(run[i]);
      DeletionStep(run[i]);
    }
    forall j: nat | Found(run, k, e.op.dev, j) ensures !(run[j].picked.value in e.pre.fs.mounts) {
      assert MountAgrees(run, k, e.op.dev, j);
      assert j < i;
    }
  }

  /**
   A deletion that unmounts but cannot remove the directory leaves it behind for good: no later step of any run
   removes it or mounts it again.
   */
  lemma {:induction false} StrandedForever(run: seq<Entry>, i: nat, k: nat, path: string)
    requires Run(run) && i < k <= |run|
    requires path in run[i].post.fs.paths && path !in run[i].post.fs.mounts
    ensures path in SysAt(run, k).fs.paths && path !in SysAt(run, k).fs.mounts
    decreases k
  {
    if i + 1 < k {
      StrandedForever(run, i, k - 1, path);
      assert Step(run[k - 1]);
    }
  }

  lemma FailedRemovalStrands(run: seq<Entry>, i: nat, j: nat)
    requires Run(run)
    requires i < |run| && run[i].Disturbs(run[i].op.dev) && !run[i].ok && Found(run, i, run[i].op.dev, j)
    ensures run[j].picked.Some?
    ensures forall k | i < k <= |run| ::
              run[j].picked.value in SysAt(run, k).fs.paths && run[j].picked.value !in SysAt(run, k).fs.mounts
  {
    var e := run[i];
    assert Step(e) && SysAt(run, i) == e.pre;
    DeletionStep(e);
    FirstPoolPath(run, i, e.op.dev);
    forall k | i < k <= |run|
      ensures run[j].picked.value in SysAt(run, k).fs.paths && run[j].picked.value !in SysAt(run, k).fs.mounts
    {
      StrandedForever(run, i, k, run[j].picked.value);
    }
  }

  /** A name is drawn only for a path that does not exist, and nothing else is ever mounted. */
  lemma OnlyPicksMount(e: Entry, path: string)
    requires Step(e)
    ensures e.picked == Some(path) ==> path !in e.pre.fs.paths
    ensures path in e.post.fs.mounts && e.picked != Some(path) ==> path in e.pre.fs.mounts
  {
  }

  lemma {:induction false} MountedBefore(run: seq<Entry>, i: nat, k: nat, path: string)
    requires Run(run) && run != [] && i <= k <= |run| && path in SysAt(run, k).fs.mounts
    requires forall t | i <= t < k :: run[t].picked != Some(path)
    ensures path in SysAt(run, i).fs.mounts
    decreases k - i
  {
    if i < k {
      assert Step(run[k - 1]) && SysAt(run, k - 1) == run[k - 1].pre;
      OnlyPicksMount(run[k - 1], path);
      MountedBefore(run, i, k - 1, path);
    }
  }

  /**
   Whose mount a successful deletion removes, whatever names are drawn: the one made by the allocation it finds, mounted
   ever since, exactly if its name has not been drawn again.
   */
  lemma DeletesOwnMountExactly(run: seq<Entry>, k: nat, j: nat)
    requires Run(run)
    requires k < |run| && run[k].Deletes(run[k].op.dev) && Found(run, k, run[k].op.dev, j)
    ensures run[j].picked.Some?
    ensures var path, e := run[j].picked.value, run[k];
      && e.post.fs == Fs(e.pre.fs.paths - {path}, e.pre.fs.mounts - {path}) && path in e.pre.fs.mounts
      && ((forall i | j < i <= k :: path in SysAt(run, i).fs.mounts)
          <==> forall i | j < i < k :: run[i].picked != Some(path))
  {
    var e := run[k];
    assert Step(e) && SysAt(run, k) == e.pre;
    DeletionStep(e);
    FirstPoolPath(run, k, e.op.dev);
    var path := run[j].picked.value;
    if forall i | j < i < k :: run[i].picked != Some(path) {
      forall i | j < i <= k ensures path in SysAt(run, i).fs.mounts {
        MountedBefore(run, i, k, path);
      }
    }
    if forall i | j < i <= k :: path in SysAt(run, i).fs.mounts {
      forall i | j < i < k ensures run[i].picked != Some(path) {
        assert Step(run[i]) && SysAt(run, i) == run[i].pre;
        OnlyPicksMount(run[i], path);
        MapsKept(run, i);
      }
    }
  }

  // ---------- Mounts that no deletion can reach ----------

  /** A mount that no deletion finds, of whatever device. */
  ghost predicate Abandoned(run: seq<Entry>, k: nat, path: string)
    requires run != [] && k <= |run|
  {
    && path in SysAt(run, k).fs.mounts
    && forall dev, j: nat | Found(run, k, dev, j) :: run[j].picked != Some(path)
  }

  /** A deletion from the state that takes the mount away. */
  ghost predicate TakesMount(e: Entry, s: Sys, path: string) {
    Step(e) && e.pre == s && e.op.DelNetDev? && path !in e.post.fs.mounts
  }

  lemma DeletionOfPath(s: Sys, dev: string, path: string) returns (e: Entry)
    requires PathOf(s.maps, dev) == Some(path) && path in s.fs.mounts && path in s.fs.paths
    ensures TakesMount(e, s, path)
  {
    var deleted := Fs(s.fs.paths - {path}, s.fs.mounts - {path});
    e := Entry(s, DelNetDev(dev, true, Removal(true, true)), s.(fs := deleted), None, true);
  }

  /** Some deletion can remove a mount exactly if it is the one found for some device. */
  lemma DeletableExactly(run: seq<Entry>, k: nat, path: string)
    requires Run(run) && run != [] && k <= |run| && path in SysAt(run, k).fs.mounts
    ensures (exists e :: TakesMount(e, SysAt(run, k), path)) <==> !Abandoned(run, k, path)
  {
    var s := SysAt(run, k);
    MapsKept(run, k);
    forall e | TakesMount(e, s, path) ensures !Abandoned(run, k, path) {
      DeletionStep(e);
      FirstPoolPath(run, k, e.op.dev);
    }
    if !Abandoned(run, k, path) {
      var dev: string, j: nat :| Found(run, k, dev, j) && run[j].picked == Some(path);
      FirstPoolPath(run, k, dev);
      var e := DeletionOfPath(s, dev, path);
    }
  }

  lemma AbandonedStep(run: seq<Entry>, k: nat, path: string)
    requires Run(run) && k < |run| && Abandoned(run, k, path)
    ensures Abandoned(run, k + 1, path)
  {
    var e, n := run[k], k + 1;
    assert Step(e) && SysAt(run, k) == e.pre;
    MapsKept(run, k);
    OnlyPicksMount(e, path);
    if e.op.DelNetDev? {
      DeletionStep(e);
      FirstPoolPath(run, k, e.op.dev);
    }
    forall dev, j: nat | Found(run, n, dev, j) ensures run[j].picked != Some(path) {
      if j < k {
        FoundStep(run, k, dev, j);
      }
    }
  }

  /** An abandoned mount stays for good. */
  lemma {:induction false} AbandonedForever(run: seq<Entry>, i: nat, k: nat, path: string)
    requires Run(run) && run != [] && i <= k <= |run| && Abandoned(run, i, path)
    ensures Abandoned(run, k, path)
    decreases k - i
  {
    if i < k {
      AbandonedForever(run, i, k - 1, path);
      AbandonedStep(run, k - 1, path);
    }
  }

  /** With fresh names a mount is abandoned once the entry that made it is not found for any device. */
  lemma FreshlyAbandoned(run: seq<Entry>, i: nat, n: nat, k: nat)
    requires Run(run) && FreshNames(run) && i < n <= k <= |run|
    requires run[i].picked.Some? && run[i].picked.value in SysAt(run, n).fs.mounts
    requires forall dev :: !Found(run, n, dev, i)
    ensures Abandoned(run, k, run[i].picked.value)
  {
    forall dev, t: nat | Found(run, n, dev, t) ensures run[t].picked != run[i].picked {
      assert t != i;
    }
    AbandonedForever(run, n, k, run[i].picked.value);
  }

  /**
   Allocating a device again abandons a mount: that of the allocation found so far, or, if the device was given to a
   pool before the new one, the mount just made.
   */
  lemma ReallocationAbandons(run: seq<Entry>, i: nat, j: nat, k: nat)
    requires Run(run) && FreshNames(run)
    requires j < k <= |run| && run[j].Allocates(run[j].op.dev) && Found(run, j, run[j].op.dev, i)
    ensures run[i].picked.Some? && run[j].picked.Some?
    ensures run[j].op.pool <= run[i].op.pool && run[i].picked.value in SysAt(run, j).fs.mounts ==>
              Abandoned(run, k, run[i].picked.value)
    ensures run[j].op.pool > run[i].op.pool ==> Abandoned(run, k, run[j].picked.value)
  {
    assert Step(run[j]) && Step(run[i]);
    if run[j].op.pool > run[i].op.pool {
      FreshlyAbandoned(run, j, j + 1, k);
    } else if run[i].picked.value in SysAt(run, j).fs.mounts {
      NoLongerFound(run, i, j, j + 1);
      FreshlyAbandoned(run, i, j + 1, k);
    }
  }

  lemma NoLongerFound(run: seq<Entry>, i: nat, j: nat, n: nat)
    requires i < j < n == j + 1 <= |run| && run[j].op.Allocate? && run[j].ok
    requires run[i].Allocates(run[j].op.dev) && run[j].op.pool <= run[i].op.pool
    ensures forall dev :: !Found(run, n, dev, i)
  {
    forall dev ensures !Found(run, n, dev, i) {
      if Found(run, n, dev, i) {
        assert run[j].Allocates(dev);
        assert false;
      }
    }
  }

  /** A mount whose allocation failed afterwards, when sharing it or pinning the map, is abandoned from the start. */
  lemma FailedPinAbandons(run: seq<Entry>, i: nat, k: nat)
    requires Run(run) && FreshNames(run)
    requires i < k <= |run| && run[i].op.Allocate? && !run[i].ok
    requires run[i].picked.Some? && run[i].picked.value in run[i].post.fs.mounts
    ensures Abandoned(run, k, run[i].picked.value)
  {
    FreshlyAbandoned(run, i, i + 1, k);
  }

  // ---------- Segments of runs ----------

  /** Consecutive steps from one state to another. */
  ghost predicate Segment(entries: seq<Entry>, from: Sys, to: Sys) {
    if entries == [] then from == to
    else entries[0].pre == from && Step(entries[0]) && Segment(entries[1..], entries[0].post, to)
  }

  lemma {:induction false} SegmentAppend(a: seq<Entry>, b: seq<Entry>, s: Sys, t: Sys, u: Sys)
    requires Segment(a, s, t) && Segment(b, t, u)
    ensures Segment(a + b, s, u)
  {
    if a == [] {
      assert a + b == b;
    } else {
      SegmentAppend(a[1..], b, a[0].post, t, u);
      assert (a + b)[1..] == a[1..] + b;
    }
  }

  lemma RunExtends(run: seq<Entry>, e: Entry)
    requires Run(run) && Step(e) && if run == [] then Started(e.pre) else e.pre == SysAt(run, |run|)
    ensures Run(run + [e]) && SysAt(run + [e], |run| + 1) == e.post
  {
    var more := run + [e];
    forall k {:trigger Step(more[k])} | 0 <= k < |more| ensures Step(more[k]) && more[k].pre == SysAt(more, k) {
      if k < |run| {
        assert more[k] == run[k] && Step(run[k]);
      }
    }
  }

  /** A segment that starts where a run ends continues the run. */
  lemma {:induction false} SegmentContinuesRun(run: seq<Entry>, entries: seq<Entry>, from: Sys, to: Sys)
    requires Run(run) && Segment(entries, from, to)
    requires if run == [] then Started(from) else from == SysAt(run, |run|)
    ensures Run(run + entries)
    ensures if run + entries == [] then from == to else SysAt(run + entries, |run + entries|) == to
    decreases |entries|
  {
    if entries == [] {
      assert run + entries == run;
    } else {
      var more := run + [entries[0]];
      RunExtends(run, entries[0]);
      SegmentContinuesRun(more, entries[1..], entries[0].post, to);
      assert more + entries[1..] == run + entries;
    }
  }

  // ---------- Pools and their devices ----------

  /** Every allocation is for a device of its own pool. */
  ghost predicate FromPools(run: seq<Entry>, pools: seq<set<string>>) {
    forall k | 0 <= k < |run| && run[k].op.Allocate? ::
      run[k].op.pool < |pools| && run[k].op.dev in pools[run[k].op.pool]
  }

  lemma DisjointPoolsOwn(run: seq<Entry>, pools: seq<set<string>>)
    requires forall i, j | 0 <= i < j < |pools| :: pools[i] !! pools[j]
    requires FromPools(run, pools)
    ensures OwnedDevices(run)
  {
    forall i, j | && 0 <= i < |run| && 0 <= j < |run| && run[i].op.Allocate? && run[j].op.Allocate?
                  && run[i].op.dev == run[j].op.dev
      ensures run[i].op.pool == run[j].op.pool
    {
      var p, q := run[i].op.pool, run[j].op.pool;
      assert run[i].op.dev in pools[p] && run[i].op.dev in pools[q];
    }
  }

  /** Allocating with a device of the pool, or deleting, stays within the pools. */
  lemma FromPoolsAppend(run: seq<Entry>, more: seq<Entry>, pools: seq<set<string>>)
    requires FromPools(run, pools) && FromPools(more, pools)
    ensures FromPools(run + more, pools)
  {
    var all := run + more;
    forall k | 0 <= k < |all| && all[k].op.Allocate?
      ensures all[k].op.pool < |pools| && all[k].op.dev in pools[all[k].op.pool]
    {
      assert all[k] == if k < |run| then run[k] else more[k - |run|];
    }
  }

  /** An allocation in which everything goes well. */
  lemma PlainAllocation(s: Sys, pool: nat, dev: string, id: string) returns (e: Entry)
    requires pool < |s.maps| == |s.bases| && s.bases[pool] + id !in s.fs.paths
    ensures Step(e) && e.pre == s && e.Allocates(dev) && e.op.pool == pool && e.picked == Some(s.bases[pool] + id)
    ensures var path := s.bases[pool] + id;
      e.post == Sys(Fs(s.fs.paths + {path}, s.fs.mounts + {path}), s.bases, s.maps[pool := s.maps[pool][dev := path]])
  {
    var path := s.bases[pool] + id;
    var trial := Trial(true, (i: nat) => id, true, true, true, true);
    assert trial.uuid(0) == id;
    assert PickName(s.fs, s.bases[pool], trial.uuid, 0) == Some(path);
    assert Create(s.fs, s.bases[pool], trial).path == Some(path);
    e := Entry(s, Op.Allocate(pool, dev, trial, true),
               Sys(Fs(s.fs.paths + {path}, s.fs.mounts + {path}), s.bases, s.maps[pool := s.maps[pool][dev := path]]),
               Some(path), true);
  }

  /**
   Owned devices are needed as well: when two pools have the device, deleting it removes the mount of the first pool
   and leaves the one of the latest allocation.
   */
  lemma SharedDeviceKeepsMount(pools: nat, i: nat, j: nat, dev: string) returns (run: seq<Entry>)
    requires i < j < pools
    ensures Run(run) && FreshNames(run) && |run| == 3
    ensures run[0].Allocates(dev) && run[1].Allocates(dev) && run[2].Deletes(dev)
    ensures run[0].op.pool == i && run[1].op.pool == j && Latest(run, 2, dev, 1)
    ensures run[0].picked.Some? && run[0].picked.value in run[2].pre.fs.mounts
    ensures run[0].picked.value !in run[2].post.fs.mounts
    ensures run[1].picked.Some? && run[1].picked.value in run[2].post.fs.mounts
  {
    var s0 := Sys(Fs({}, {}), seq(pools, _ => "/"), seq(pools, _ => map[]));
    var a := PlainAllocation(s0, i, dev, "u");
    assert "/" + "u" != "/" + "v" by {
      assert ("/" + "u")[1] != ("/" + "v")[1];
    }
    var b := PlainAllocation(a.post, j, dev, "v");
    var path := "/" + "u";
    LookupFirst(b.post.maps, dev, i);
    assert PathOf(b.post.maps, dev) == Some(path);
    var c := Entry(b.post, DelNetDev(dev, true, Removal(true, true)),
                   b.post.(fs := Fs(b.post.fs.paths - {path}, b.post.fs.mounts - {path})), None, true);
    assert Step(c);
    run := [a, b, c];
    assert SysAt(run, 1) == a.post && SysAt(run, 2) == b.post;
  }

  /** Every run over the pools keeps to one pool for each device if and only if no two pools share a device. */
  lemma OwnedExactly(pools: seq<set<string>>)
    ensures (forall run: seq<Entry> | Run(run) && FromPools(run, pools) :: OwnedDevices(run))
            <==> forall i, j | 0 <= i < j < |pools| :: pools[i] !! pools[j]
  {
    forall run: seq<Entry> | (forall i, j | 0 <= i < j < |pools| :: pools[i] !! pools[j]) && FromPools(run, pools)
      ensures OwnedDevices(run)
    {
      DisjointPoolsOwn(run, pools);
    }
    forall i, j | 0 <= i < j < |pools| && !(pools[i] !! pools[j])
      ensures exists run: seq<Entry> :: Run(run) && FromPools(run, pools) && !OwnedDevices(run)
    {
      var dev :| dev in pools[i] && dev in pools[j];
      var run := SharedDeviceKeepsMount(|pools|, i, j, dev);
      assert run[0].op.dev == run[1].op.dev && run[0].op.pool != run[1].op.pool;
    }
  }

  // ---------- Reused names ----------

  /**
   Fresh names are needed: the entry of a deleted device stays in the map, so when its name is drawn again for
   another device, deleting the first device a second time takes the mount of the other one away.
   */
  lemma ReusedNameLosesMount() returns (run: seq<Entry>)
    ensures Run(run) && OwnedDevices(run) && |run| == 4
    ensures run[0].Allocates("a") && run[1].Deletes("a") && run[2].Allocates("b") && run[3].Deletes("a")
    ensures run[2].picked.Some? && run[2].picked.value in run[3].pre.fs.mounts
    ensures run[2].picked.value !in run[3].post.fs.mounts
  {
    var trial := Trial(true, (i: nat) => "u", true, true, true, true);
    var path := "/u";
    var empty := Fs({}, {});
    var full := Fs({path}, {path});
    assert "/" + trial.uuid(0) == path;
    assert PickName(empty, "/", trial.uuid, 0) == Some(path);
    assert Create(empty, "/", trial).fs == full;
    assert Delete(full, Some(path), Removal(true, true)).fs == empty;
    var s0 := Sys(empty, ["/"], [map[]]);
    var s1 := Sys(full, ["/"], [map["a" := path]]);
    var s2 := Sys(empty, ["/"], [map["a" := path]]);
    var s3 := Sys(full, ["/"], [map["a" := path, "b" := path]]);
    var s4 := Sys(empty, ["/"], [map["a" := path, "b" := path]]);
    run := [Entry(s0, Allocate(0, "a", trial, true), s1, Some(path), true),
            Entry(s1, DelNetDev("a", true, Removal(true, true)), s2, None, true),
            Entry(s2, Allocate(0, "b", trial, true), s3, Some(path), true),
            Entry(s3, DelNetDev("a", true, Removal(true, true)), s4, None, true)];
    assert Step(run[0]) && Step(run[1]) && Step(run[2]) && Step(run[3]);
  }
}
