// What every run over the configured pools guarantees.

module PoolTheorems {
  import opened Text
  import opened Constants
  import opened Tools
  import opened PoolModel

  // ---------- One pool: the device map is exactly what was newly assigned ----------

  lemma {:induction false} AddSubsContents(out: map<string, Slot>, host: string, first: nat, last: nat)
    ensures var r := AddSubs(out, host, first, last);
            && (forall i: nat | first < i <= last :: SfName(host, i) in r && r[SfName(host, i)] == Sub(host, i))
            && (forall n | n in r ::
                  || (n in out && r[n] == out[n])
                  || (r[n].Sub? && r[n].host == host && first < r[n].num <= last && n == SfName(host, r[n].num)))
            && (forall n | n in out && (forall i: nat | first < i <= last :: n != SfName(host, i)) ::
                  n in r && r[n] == out[n])
  {
    if first < last {
      AddSubsContents(out, host, first, last - 1);
      forall i: nat | first < i <= last - 1 ensures SfName(host, i) != SfName(host, last) {
        if SfName(host, i) == SfName(host, last) {
          SfNameInjective(host, i, host, last);
        }
      }
      assert forall n | n in out && (forall i: nat | first < i <= last :: n != SfName(host, i)) ::
          n != SfName(host, last);
    }
  }

  /** The progress of assigning one pool's entries: `v` is the world all entries were validated in. */
  ghost predicate Progress(v: World, mode: Mode, a: Assigned) {
    && Inv(v) && Inv(a.world)
    && Grows(v, a.world)
    && ExactDiff(v, a.world, a.out)
    && KindsMatch(mode, a.out)
    && forall h | h in v :: a.world[h].mode == v[h].mode || a.world[h].mode == mode
  }

  lemma AssignPrimaryProgress(v: World, a: Assigned, entry: ConfigDevice)
    requires Progress(v, Primary, a) && Admissible(v, Primary, entry.name)
    ensures AsPrimary(a.world[entry.name]).Some?
    ensures Progress(v, Primary, AssignOne(a, Primary, entry))
  {
    var h := entry.name;
    var b := AssignOne(a, Primary, entry);
    assert v[h].mode == Unset;
    forall s: Slot | NewIn(v, b.world, s) ensures SlotName(s) in b.out && b.out[SlotName(s)] == s {
      if s == Whole(h) {
      } else {
        assert NewIn(v, a.world, s);
        assert a.out[SlotName(s)] == s;
      }
    }
  }

  /** w' is w except that the host has more of its subfunctions assigned. */
  ghost predicate TookMore(w: World, w': World, host: string) {
    && host in w && w.Keys == w'.Keys
    && (forall h | h in w && h != host :: w'[h] == w[h])
    && w'[host].fully == w[host].fully
    && w[host].taken <= w'[host].taken
  }

  lemma AddSubsSound(v: World, w: World, w': World, out: map<string, Slot>, host: string)
    requires ExactDiff(v, w, out) && TookMore(w, w', host) && Grows(v, w)
    ensures var r := AddSubs(out, host, w[host].taken, w'[host].taken);
            forall n | n in r :: NewIn(v, w', r[n]) && SlotName(r[n]) == n
  {
    var r := AddSubs(out, host, w[host].taken, w'[host].taken);
    AddSubsContents(out, host, w[host].taken, w'[host].taken);
    forall n | n in r ensures SlotName(r[n]) == n && NewIn(v, w', r[n]) {
      if n in out && r[n] == out[n] {
        assert NewIn(v, w, out[n]);
      }
    }
  }

  lemma AddSubsComplete(v: World, w: World, w': World, out: map<string, Slot>, host: string, s: Slot)
    requires ExactDiff(v, w, out) && TookMore(w, w', host) && Grows(v, w)
    requires forall n | n in out :: out[n].Sub?
    requires NewIn(v, w', s)
    ensures var r := AddSubs(out, host, w[host].taken, w'[host].taken);
            SlotName(s) in r && r[SlotName(s)] == s
  {
    var first, last := w[host].taken, w'[host].taken;
    AddSubsContents(out, host, first, last);
    if !(s.Sub? && s.host == host && first < s.num) {
      assert NewIn(v, w, s);
      assert SlotName(s) in out && out[SlotName(s)] == s;
      forall i: nat | first < i <= last ensures SlotName(s) != SfName(host, i) {
        if SlotName(s) == SfName(host, i) {
          SfNameInjective(s.host, s.num, host, i);
        }
      }
    }
  }

  lemma AddSubsDiff(v: World, w: World, w': World, out: map<string, Slot>, host: string)
    requires ExactDiff(v, w, out) && TookMore(w, w', host) && Grows(v, w)
    requires forall n | n in out :: out[n].Sub?
    ensures ExactDiff(v, w', AddSubs(out, host, w[host].taken, w'[host].taken))
  {
    var r := AddSubs(out, host, w[host].taken, w'[host].taken);
    AddSubsSound(v, w, w', out, host);
    forall s: Slot | NewIn(v, w', s) ensures SlotName(s) in r && r[SlotName(s)] == s {
      AddSubsComplete(v, w, w', out, host, s);
    }
  }

  lemma AddSubsKinds(out: map<string, Slot>, host: string, first: nat, last: nat)
    requires KindsMatch(Cdq, out) && !PrefixedByAny(PROHIBITED, host)
    ensures KindsMatch(Cdq, AddSubs(out, host, first, last))
  {
    AddSubsContents(out, host, first, last);
  }

  lemma CdqWorldProgress(v: World, w: World, host: string, limit: int)
    requires Inv(v) && Inv(w) && Grows(v, w) && host in w
    requires forall h | h in v :: w[h].mode == v[h].mode || w[h].mode == Cdq
    requires AsCdq(w[host], limit).Some?
    ensures var w' := w[host := AsCdq(w[host], limit).value];
            && Inv(w') && Grows(v, w')
            && forall h | h in v :: w'[h].mode == v[h].mode || w'[h].mode == Cdq
  {
    assert PrimOk(w[host]);
    var p := AsCdq(w[host], limit).value;
    assert PrimOk(p);
  }

  lemma AssignCdqProgress(v: World, a: Assigned, entry: ConfigDevice)
    requires Progress(v, Cdq, a) && Admissible(v, Cdq, entry.name)
    ensures a.world[entry.name].mode == Unset || a.world[entry.name].mode == Cdq
    ensures Progress(v, Cdq, AssignOne(a, Cdq, entry))
  {
    var h := entry.name;
    var p := AsCdq(a.world[h], entry.secondary);
    if p.Some? {
      var w, w' := a.world, a.world[h := p.value];
      var r := AddSubs(a.out, h, w[h].taken, w'[h].taken);
      assert AssignOne(a, Cdq, entry) == Assigned(w', r);
      AddSubsDiff(v, w, w', a.out, h);
      AddSubsKinds(a.out, h, w[h].taken, w'[h].taken);
      CdqWorldProgress(v, w, h, entry.secondary);
    }
  }

  lemma {:induction false} AssignAllProgress(v: World, mode: Mode, entries: seq<ConfigDevice>)
    requires Inv(v)
    requires forall k | 0 <= k < |entries| :: Admissible(v, mode, entries[k].name)
    ensures Progress(v, mode, AssignAll(v, mode, entries))
  {
    if entries != [] {
      var front, last := entries[..|entries| - 1], entries[|entries| - 1];
      AssignAllProgress(v, mode, front);
      if mode == Primary {
        AssignPrimaryProgress(v, AssignAll(v, mode, front), last);
      } else if mode == Cdq {
        AssignCdqProgress(v, AssignAll(v, mode, front), last);
      }
    }
  }

  /** Assembles the record of one processed pool from its phases. */
  lemma MakeRun(node: Node, pool: Pool, pre: World, worlds: seq<World>, lists: seq<seq<ConfigDevice>>, post: World,
                out: map<string, Slot>)
    requires !Skipped(pool, node)
    requires var drivers := DriversFor(pool, node);
             && DriverChain(node, pool.mode, drivers, |drivers|, worlds, lists)
             && worlds[0] == pre && lists[0] == ValidExplicit(pre, pool.mode, DevicesFor(pool, node))
             && Bounded(worlds[|drivers|])
             && AssignAll(worlds[|drivers|], pool.mode, lists[|drivers|]) == Assigned(post, out)
    ensures ValidPoolRun(node, PoolRun(pool, pre, worlds, lists, post, out))
  {
  }

  lemma ExtendChain(node: Node, mode: Mode, drivers: seq<ConfigDriver>, n: nat,
                    worlds: seq<World>, lists: seq<seq<ConfigDevice>>, w: World, list: seq<ConfigDevice>)
    requires DriverChain(node, mode, drivers, n, worlds, lists) && n < |drivers|
    requires DriverStep(node, mode, drivers[n], worlds[n], lists[n], w, list)
    ensures DriverChain(node, mode, drivers, n + 1, worlds + [w], lists + [list])
    ensures (worlds + [w])[0] == worlds[0] && (worlds + [w])[n + 1] == w
    ensures (lists + [list])[0] == lists[0] && (lists + [list])[n + 1] == list
  {
  }

  lemma MakeDriverStep(node: Node, mode: Mode, driver: ConfigDriver, w: World, list: seq<ConfigDevice>, w': World,
                       devices: seq<ConfigDevice>)
    requires CacheOnly(w, w')
    requires ScanResult(devices, Eligible(node, w', mode, list, driver), driver.primary, driver.secondary)
    ensures DriverStep(node, mode, driver, w, list, w', list + devices)
  {
    assert (list + devices)[..|list|] == list && (list + devices)[|list|..] == devices;
  }

  lemma AssignAllStep(w: World, mode: Mode, entries: seq<ConfigDevice>, i: nat)
    requires Bounded(w) && i < |entries|
    ensures AssignAll(w, mode, entries[..i + 1]) == AssignOne(AssignAll(w, mode, entries[..i]), mode, entries[i])
  {
    assert entries[..i + 1][..i] == entries[..i];
  }

  lemma UpdateSame(w: World, h: string)
    requires h in w
    ensures w[h := w[h]] == w
  {
  }

  lemma CacheOne(w: World, h: string, driver: string)
    requires h in w && (w[h].driver != "" ==> driver == w[h].driver)
    ensures CacheOnly(w, w[h := w[h].(driver := driver)])
  {
  }

  lemma CacheTransitive(u: World, v: World, w: World)
    requires CacheOnly(u, v) && CacheOnly(v, w)
    ensures CacheOnly(u, w)
  {
  }

  lemma ValidExplicitStep(w: World, mode: Mode, entries: seq<ConfigDevice>, i: nat)
    requires i < |entries|
    ensures ValidExplicit(w, mode, entries[..i + 1])
         == ValidExplicit(w, mode, entries[..i])
            + if entries[i].DeviceName() != "" && Admissible(w, mode, entries[i].name) then [entries[i]] else []
  {
    assert entries[..i + 1][..i] == entries[..i];
  }

  /** The validation of explicit entries goes entry by entry and keeps their order. */
  lemma {:induction false} ValidExplicitAppend(w: World, mode: Mode, a: seq<ConfigDevice>, b: seq<ConfigDevice>)
    ensures ValidExplicit(w, mode, a + b) == ValidExplicit(w, mode, a) + ValidExplicit(w, mode, b)
    decreases |b|
  {
    if b == [] {
      assert a + b == a;
    } else {
      assert (a + b)[..|a + b| - 1] == a + b[..|b| - 1];
      ValidExplicitAppend(w, mode, a, b[..|b| - 1]);
    }
  }

  /** Which explicit entries are kept, in full. */
  lemma {:induction false} ExplicitExactly(w: World, mode: Mode, entries: seq<ConfigDevice>)
    ensures forall device :: device in ValidExplicit(w, mode, entries) <==>
              && device in entries && (device.name != "" || device.resolved != "")
              && device.name in w && !w[device.name].fully
              && (forall p | p in PROHIBITED :: !(p <= device.name))
              && (w[device.name].mode == Unset || w[device.name].mode == mode)
  {
    if entries != [] {
      var front, last := entries[..|entries| - 1], entries[|entries| - 1];
      ExplicitExactly(w, mode, front);
      PrefixedExactly(PROHIBITED, last.name);
      assert entries == front + [last];
    }
  }

  lemma {:induction false} ExplicitAdmissible(w: World, mode: Mode, entries: seq<ConfigDevice>)
    ensures forall k | 0 <= k < |ValidExplicit(w, mode, entries)| ::
              Admissible(w, mode, ValidExplicit(w, mode, entries)[k].name)
  {
    if entries != [] {
      ExplicitAdmissible(w, mode, entries[..|entries| - 1]);
    }
  }

  /** Every entry a pool ends up with was admissible in the world the pool started from. */
  lemma {:induction false} CandidatesAdmissible(node: Node, r: PoolRun, k: nat)
    requires ValidPoolRun(node, r) && !Skipped(r.pool, node) && Inv(r.pre)
    requires k < |r.worlds|
    ensures Inv(r.worlds[k]) && CacheOnly(r.pre, r.worlds[k])
    ensures forall i | 0 <= i < |r.lists[k]| :: Admissible(r.pre, r.pool.mode, r.lists[k][i].name)
  {
    if k == 0 {
      ExplicitAdmissible(r.pre, r.pool.mode, DevicesFor(r.pool, node));
    } else {
      CandidatesAdmissible(node, r, k - 1);
      StepAdmissible(node, r.pool.mode, DriversFor(r.pool, node)[k - 1], r.pre,
                     r.worlds[k - 1], r.lists[k - 1], r.worlds[k], r.lists[k]);
    }
  }

  lemma StepAdmissible(node: Node, mode: Mode, driver: ConfigDriver, pre: World,
                       w: World, list: seq<ConfigDevice>, w': World, list': seq<ConfigDevice>)
    requires DriverStep(node, mode, driver, w, list, w', list')
    requires Inv(w) && CacheOnly(pre, w)
    requires forall i | 0 <= i < |list| :: Admissible(pre, mode, list[i].name)
    ensures Inv(w') && CacheOnly(pre, w')
    ensures forall i | 0 <= i < |list'| :: Admissible(pre, mode, list'[i].name)
  {
    CacheTransitive(pre, w, w');
    forall h | h in w' ensures PrimOk(w'[h]) {
      assert PrimOk(w[h]);
    }
    forall i | 0 <= i < |list'| ensures Admissible(pre, mode, list'[i].name) {
      if i < |list| {
        assert list'[i] == list'[..|list|][i];
      } else {
        assert list'[i] == list'[|list|..][i - |list|];
      }
    }
  }

  /**
   One pool, whatever it is configured with and whatever the iteration order: its device map is exactly
   the set of devices and subfunctions that became assigned while it was processed.
   */
  lemma PoolEffect(node: Node, r: PoolRun)
    requires ValidPoolRun(node, r) && Inv(r.pre)
    ensures Inv(r.post) && Grows(r.pre, r.post)
    ensures ExactDiff(r.pre, r.post, r.out)
    ensures KindsMatch(r.pool.mode, r.out)
  {
    if !Skipped(r.pool, node) {
      var last := |r.worlds| - 1;
      CandidatesAdmissible(node, r, last);
      var v := r.worlds[last];
      AssignAllProgress(v, r.pool.mode, r.lists[last]);
      forall s: Slot ensures NewIn(r.pre, r.post, s) <==> NewIn(v, r.post, s) {
      }
    }
  }

  /**
   No entry validated for a pool can be refused for an incompatible mode when its turn comes,
   however many entries of the same pool were assigned before it.
   */
  lemma NoModeConflict(node: Node, r: PoolRun, k: nat)
    requires ValidPoolRun(node, r) && !Skipped(r.pool, node) && Inv(r.pre)
    requires r.pool.mode in {Primary, Cdq}
    requires var entries := r.lists[|r.lists| - 1]; k < |entries|
    ensures var entries := r.lists[|r.lists| - 1];
            var now := AssignAll(r.worlds[|r.worlds| - 1], r.pool.mode, entries[..k]).world;
            && entries[k].name in now
            && (now[entries[k].name].mode == Unset || now[entries[k].name].mode == r.pool.mode)
  {
    var last := |r.worlds| - 1;
    CandidatesAdmissible(node, r, last);
    AssignAllProgress(r.worlds[last], r.pool.mode, r.lists[last][..k]);
  }

  /** From position `from` on, every entry's name differs from all device names before it. */
  ghost predicate NoRepeats(list: seq<ConfigDevice>, from: nat) {
    forall i, j | 0 <= i < j < |list| && from <= j :: list[i].DeviceName() != list[j].name
  }

  lemma StepEntries(node: Node, mode: Mode, driver: ConfigDriver,
                    w: World, list: seq<ConfigDevice>, w': World, list': seq<ConfigDevice>)
    requires DriverStep(node, mode, driver, w, list, w', list')
    ensures forall j | 0 <= j < |list| :: list'[j] == list[j]
    ensures forall j | |list| <= j < |list'| ::
              && list'[j].resolved == "" && !Listed(list, list'[j].name) && !Listed(driver.exclude, list'[j].name)
    ensures forall i, j | |list| <= i < j < |list'| :: list'[i].name != list'[j].name
  {
    var picked := list'[|list|..];
    forall j | 0 <= j < |list| ensures list'[j] == list[j] {
      assert list'[j] == list'[..|list|][j];
    }
    forall j | |list| <= j < |list'| ensures list'[j] == picked[j - |list|] {
    }
    forall i, j | |list| <= i < j < |list'| ensures list'[i].name != list'[j].name {
      assert picked[i - |list|].name != picked[j - |list|].name;
    }
    forall j | |list| <= j < |list'|
      ensures list'[j].resolved == "" && !Listed(list, list'[j].name) && !Listed(driver.exclude, list'[j].name)
    {
      assert Scannable(node, w', mode, list, driver, picked[j - |list|].name);
    }
  }

  lemma StepNeverRepeats(list: seq<ConfigDevice>, list': seq<ConfigDevice>, from: nat)
    requires from <= |list| <= |list'| && NoRepeats(list, from)
    requires forall j | 0 <= j < |list| :: list'[j] == list[j]
    requires forall j | |list| <= j < |list'| :: list'[j].resolved == "" && !Listed(list, list'[j].name)
    requires forall i, j | |list| <= i < j < |list'| :: list'[i].name != list'[j].name
    ensures NoRepeats(list', from)
  {
    forall i, j | 0 <= i < j < |list'| && from <= j ensures list'[i].DeviceName() != list'[j].name {
      if i < |list| <= j {
        assert !Listed(list, list'[j].name);
        assert list[i].DeviceName() != list'[j].name;
      }
    }
  }

  /**
   Entries a pool gets from driver scans repeat no entry of the pool before them, explicit or scanned,
   and no device its driver excludes; the explicit entries stay in front.
   */
  lemma {:induction false} ScansNeverRepeat(node: Node, r: PoolRun, k: nat)
    requires ValidPoolRun(node, r) && !Skipped(r.pool, node)
    requires k < |r.lists|
    ensures |r.lists[0]| <= |r.lists[k]|
    ensures forall j | 0 <= j < |r.lists[0]| :: r.lists[k][j] == r.lists[0][j]
    ensures NoRepeats(r.lists[k], |r.lists[0]|)
    ensures k > 0 ==> forall j | |r.lists[k - 1]| <= j < |r.lists[k]| ::
              !Listed(DriversFor(r.pool, node)[k - 1].exclude, r.lists[k][j].name)
  {
    if k > 0 {
      ScansNeverRepeat(node, r, k - 1);
      StepEntries(node, r.pool.mode, DriversFor(r.pool, node)[k - 1],
                  r.worlds[k - 1], r.lists[k - 1], r.worlds[k], r.lists[k]);
      StepNeverRepeats(r.lists[k - 1], r.lists[k], |r.lists[0]|);
    }
  }
}
