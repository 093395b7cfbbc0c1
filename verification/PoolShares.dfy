// How much of each device one pool receives: what the `primary` and `secondary` limits of the configuration achieve.

module PoolShares {
  import opened Text
  import opened Constants
  import opened PoolModel
  import opened PoolTheorems
  import opened PoolRuns

  // ---------- From entries to calls ----------

  /** The limits of the entries with this name, in order. */
  function Limits(entries: seq<ConfigDevice>, h: string): seq<int> {
    if entries == [] then []
    else
      var last := entries[|entries| - 1];
      Limits(entries[..|entries| - 1], h) + if last.name == h then [last.secondary] else []
  }

  lemma {:induction false} LimitsAppend(a: seq<ConfigDevice>, b: seq<ConfigDevice>, h: string)
    ensures Limits(a + b, h) == Limits(a, h) + Limits(b, h)
    decreases |b|
  {
    if b == [] {
      assert a + b == a;
    } else {
      assert (a + b)[..|a + b| - 1] == a + b[..|b| - 1];
      LimitsAppend(a, b[..|b| - 1], h);
    }
  }

  lemma {:induction false} NoLimits(entries: seq<ConfigDevice>, h: string)
    ensures Limits(entries, h) == [] <==> forall k | 0 <= k < |entries| :: entries[k].name != h
  {
    if entries != [] {
      var front := entries[..|entries| - 1];
      NoLimits(front, h);
      assert forall k | 0 <= k < |front| :: front[k] == entries[k];
    }
  }

  lemma {:induction false} DistinctLimits(entries: seq<ConfigDevice>, h: string)
    requires forall i, j | 0 <= i < j < |entries| :: entries[i].name != entries[j].name
    ensures |Limits(entries, h)| <= 1
  {
    if entries != [] {
      var front := entries[..|entries| - 1];
      DistinctLimits(front, h);
      NoLimits(front, h);
    }
  }

  /** In cdq mode the entries are calls on their devices, in order. */
  lemma {:induction false} EntriesAreCalls(w: World, entries: seq<ConfigDevice>, h: string)
    requires Bounded(w) && h in w
    ensures var a := AssignAll(w, Cdq, entries); h in a.world && a.world[h] == AfterCalls(w[h], Limits(entries, h))
  {
    if entries != [] {
      var front, last := entries[..|entries| - 1], entries[|entries| - 1];
      EntriesAreCalls(w, front, h);
      if last.name == h {
        var limits := Limits(front, h) + [last.secondary];
        assert limits[..|limits| - 1] == Limits(front, h);
      } else {
        assert Limits(front, h) + [] == Limits(front, h);
      }
    }
  }

  /** An entry of a primary pool adds its own name. */
  lemma EntryIsName(w: World, a: Assigned, entry: ConfigDevice)
    requires Progress(w, Primary, a) && Bounded(a.world) && Admissible(w, Primary, entry.name)
    ensures AssignOne(a, Primary, entry).out.Keys == a.out.Keys + {entry.name}
  {
    AssignPrimaryProgress(w, a, entry);
  }

  /** In primary mode every entry yields its device. */
  lemma {:induction false} EntriesAreNames(w: World, entries: seq<ConfigDevice>)
    requires Inv(w) && Bounded(w) && forall k | 0 <= k < |entries| :: Admissible(w, Primary, entries[k].name)
    ensures forall n :: n in AssignAll(w, Primary, entries).out <==> n in EntryNames(entries)
  {
    if entries != [] {
      var front, last := entries[..|entries| - 1], entries[|entries| - 1];
      EntriesAreNames(w, front);
      AssignAllProgress(w, Primary, front);
      EntryIsName(w, AssignAll(w, Primary, front), last);
      assert EntryNames(entries) == EntryNames(front) + [last.name];
    }
  }

  lemma {:induction false} OtherModesAssignNothing(w: World, mode: Mode, entries: seq<ConfigDevice>)
    requires Bounded(w) && mode != Primary && mode != Cdq
    ensures AssignAll(w, mode, entries) == Assigned(w, map[])
  {
    if entries != [] {
      OtherModesAssignNothing(w, mode, entries[..|entries| - 1]);
    }
  }

  // ---------- One pool's share of one device ----------

  /** The entries a pool ends up with. */
  function FinalEntries(r: PoolRun): seq<ConfigDevice> {
    if r.lists == [] then [] else r.lists[|r.lists| - 1]
  }

  /** How many subfunctions a pool takes of a device. */
  function Share(r: PoolRun, h: string): nat { |SubNames(r.out, h)| }

  predicate AllPositive(limits: seq<int>) { forall k | 0 <= k < |limits| :: limits[k] > 0 }

  /** The total of the limits as far as it goes; a limit that is not positive takes the rest. */
  function Granted(p: Prim, limits: seq<int>): int {
    if limits == [] || p.driver !in CDQ_DRIVERS then 0
    else if AllPositive(limits) && p.taken + Sum(limits) <= SECONDARY_MAX then Sum(limits)
    else SECONDARY_MAX - p.taken
  }

  /** A pool's selection is over: its entries are assigned in a state that differs from the first in cached drivers. */
  lemma Selected(node: Node, r: PoolRun) returns (w: World)
    requires ValidPoolRun(node, r) && !Skipped(r.pool, node) && Inv(r.pre)
    ensures Inv(w) && Bounded(w) && CacheOnly(r.pre, w)
    ensures AssignAll(w, r.pool.mode, FinalEntries(r)) == Assigned(r.post, r.out)
    ensures forall k | 0 <= k < |FinalEntries(r)| :: Admissible(w, r.pool.mode, FinalEntries(r)[k].name)
  {
    CandidatesAdmissible(node, r, |r.worlds| - 1);
    w := r.worlds[|r.worlds| - 1];
  }

  lemma {:induction false} NoDriverNoCalls(p: Prim, limits: seq<int>)
    requires p.taken <= SECONDARY_MAX && p.driver !in CDQ_DRIVERS
    ensures AfterCalls(p, limits) == p
  {
    if limits != [] {
      NoDriverNoCalls(p, limits[..|limits| - 1]);
    }
  }

  lemma CallsGrant(p: Prim, limits: seq<int>)
    requires PrimOk(p) && (limits != [] ==> p.mode in {Unset, Cdq})
    ensures AfterCalls(p, limits).taken == p.taken + Granted(p, limits)
    ensures AfterCalls(p, limits).driver == p.driver
  {
    if p.driver !in CDQ_DRIVERS {
      NoDriverNoCalls(p, limits);
    } else if limits != [] {
      CallsRefineCounter(p, limits);
    }
  }

  lemma PoolStep(node: Node, r: PoolRun)
    requires ValidPoolRun(node, r) && Inv(r.pre)
    ensures StepEffect(r)
  {
    PoolEffect(node, r);
  }

  /** A cdq pool takes of each device the total of the limits of its entries for that device, as far as that goes. */
  lemma PoolShare(node: Node, r: PoolRun, h: string)
    requires ValidPoolRun(node, r) && !Skipped(r.pool, node) && Inv(r.pre) && r.pool.mode == Cdq && h in r.pre
    ensures h in r.post
    ensures Share(r, h) == Granted(r.pre[h].(driver := r.post[h].driver), Limits(FinalEntries(r), h))
  {
    var w := Selected(node, r);
    var limits := Limits(FinalEntries(r), h);
    EntriesAreCalls(w, FinalEntries(r), h);
    NoLimits(FinalEntries(r), h);
    assert PrimOk(w[h]);
    CallsGrant(w[h], limits);
    PoolStep(node, r);
    SubNamesCount(r, h);
  }

  /** A primary pool holds exactly the devices of its entries. */
  lemma PrimaryPoolNames(node: Node, r: PoolRun)
    requires ValidPoolRun(node, r) && !Skipped(r.pool, node) && Inv(r.pre) && r.pool.mode == Primary
    ensures forall n :: n in r.out <==> n in EntryNames(FinalEntries(r))
  {
    var w := Selected(node, r);
    EntriesAreNames(w, FinalEntries(r));
  }

  // ---------- The documented maximum ----------

  lemma {:induction false} SumBounds(limits: seq<int>)
    requires AllPositive(limits)
    ensures Sum(limits) >= |limits|
    ensures forall x | x in limits :: x <= Sum(limits) && (|limits| > 1 ==> x < Sum(limits))
  {
    if limits != [] {
      var front := limits[..|limits| - 1];
      SumBounds(front);
      assert limits == front + [limits[|limits| - 1]];
    }
  }

  lemma GrantWithin(p: Prim, limits: seq<int>)
    requires p.taken <= SECONDARY_MAX
    ensures (forall x | x in limits && x > 0 :: Granted(p, limits) <= x)
            <==> || |limits| <= 1 || p.driver !in CDQ_DRIVERS
                 || forall x | x in limits && x > 0 :: SECONDARY_MAX - p.taken <= x
  {
    if |limits| == 1 {
      assert limits == [limits[0]];
      assert limits[..0] == [] && Sum(limits) == limits[0];
    } else if AllPositive(limits) {
      SumBounds(limits);
      if limits != [] {
        assert limits[0] in limits;
      }
    }
  }

  lemma LimitsOfOne(e: ConfigDevice, h: string)
    ensures Limits([e], h) == if e.name == h then [e.secondary] else []
  {
    assert [e][..0] == [];
  }

  lemma {:induction false} ExplicitLimits(w: World, mode: Mode, entries: seq<ConfigDevice>, h: string)
    requires h != ""
    ensures Limits(ValidExplicit(w, mode, entries), h) == if Admissible(w, mode, h) then Limits(entries, h) else []
  {
    if entries != [] {
      var front, last := entries[..|entries| - 1], entries[|entries| - 1];
      ExplicitLimits(w, mode, front, h);
      LimitsOfOne(last, h);
      assert Limits(ValidExplicit(w, mode, front), h) + [] == Limits(ValidExplicit(w, mode, front), h);
      if last.DeviceName() != "" && Admissible(w, mode, last.name) {
        LimitsAppend(ValidExplicit(w, mode, front), [last], h);
      } else {
        assert ValidExplicit(w, mode, front) + [] == ValidExplicit(w, mode, front);
      }
    }
  }

  lemma ScansAvoidListed(list: seq<ConfigDevice>, from: nat, h: string)
    requires h != "" && from <= |list| && NoRepeats(list, from) && Limits(list[..from], h) != []
    ensures Limits(list[from..], h) == []
  {
    var front, scanned := list[..from], list[from..];
    NoLimits(front, h);
    NoLimits(scanned, h);
    var i :| 0 <= i < |front| && front[i].name == h;
    assert list[i].DeviceName() == h;
    forall k | 0 <= k < |scanned| ensures scanned[k].name != h {
      assert scanned[k] == list[from + k];
    }
  }

  lemma ScansDiffer(list: seq<ConfigDevice>, from: nat, h: string)
    requires from <= |list| && NoRepeats(list, from)
    requires forall j | from <= j < |list| :: list[j].DeviceName() == list[j].name
    ensures |Limits(list[from..], h)| <= 1
  {
    var scanned := list[from..];
    forall i, j | 0 <= i < j < |scanned| ensures scanned[i].name != scanned[j].name {
      assert scanned[i] == list[from + i] && scanned[j] == list[from + j];
    }
    DistinctLimits(scanned, h);
  }

  /** Scans add no entry for a device that has one, and at most one for any other. */
  lemma ScannedLimits(list: seq<ConfigDevice>, from: nat, h: string)
    requires h != "" && from <= |list| && NoRepeats(list, from)
    requires forall j | from <= j < |list| :: list[j].DeviceName() == list[j].name
    ensures Limits(list[..from], h) != [] ==> Limits(list, h) == Limits(list[..from], h)
    ensures Limits(list[..from], h) == [] ==> |Limits(list, h)| <= 1
  {
    assert list == list[..from] + list[from..];
    LimitsAppend(list[..from], list[from..], h);
    if Limits(list[..from], h) != [] {
      ScansAvoidListed(list, from, h);
    } else {
      ScansDiffer(list, from, h);
    }
  }

  lemma {:induction false} ScansAreNamed(node: Node, r: PoolRun, k: nat)
    requires ValidPoolRun(node, r) && !Skipped(r.pool, node) && k < |r.lists|
    ensures |r.lists[0]| <= |r.lists[k]|
    ensures forall j | |r.lists[0]| <= j < |r.lists[k]| :: r.lists[k][j].resolved == ""
  {
    if k > 0 {
      ScansAreNamed(node, r, k - 1);
      StepEntries(node, r.pool.mode, DriversFor(r.pool, node)[k - 1],
                  r.worlds[k - 1], r.lists[k - 1], r.worlds[k], r.lists[k]);
    }
  }

  /** A pool has two entries for a device exactly if the configuration lists it twice and it may be used. */
  lemma RepeatedExactly(node: Node, r: PoolRun, h: string)
    requires ValidPoolRun(node, r) && !Skipped(r.pool, node) && h != ""
    ensures var listed := Limits(DevicesFor(r.pool, node), h);
      && (|Limits(FinalEntries(r), h)| > 1 <==> |listed| > 1 && Admissible(r.pre, r.pool.mode, h))
      && (|Limits(FinalEntries(r), h)| > 1 ==> Limits(FinalEntries(r), h) == listed)
  {
    var last := |r.lists| - 1;
    ScansNeverRepeat(node, r, last);
    ScansAreNamed(node, r, last);
    var list, from := r.lists[last], |r.lists[0]|;
    forall j | from <= j < |list| ensures list[j].DeviceName() == list[j].name {
      assert list[j].resolved == "";
    }
    ScannedLimits(list, from, h);
    assert list[..from] == r.lists[0];
    ExplicitLimits(r.pre, r.pool.mode, DevicesFor(r.pool, node), h);
  }

  /**
   The documented maximum, no more subfunctions of a device than the `secondary` of its entry, holds exactly if the
   device is listed at most once, or yields nothing, or has no more left than the smallest of its limits.
   */
  lemma MaximumHoldsExactly(node: Node, r: PoolRun, h: string)
    requires ValidPoolRun(node, r) && !Skipped(r.pool, node) && Inv(r.pre) && r.pool.mode == Cdq
    requires h in r.pre && h != ""
    ensures h in r.post
    ensures var listed := Limits(DevicesFor(r.pool, node), h);
      (forall x | x in Limits(FinalEntries(r), h) && x > 0 :: Share(r, h) <= x)
      <==> || |listed| <= 1 || !Admissible(r.pre, Cdq, h) || r.post[h].driver !in CDQ_DRIVERS
           || forall x | x in listed && x > 0 :: SECONDARY_MAX - r.pre[h].taken <= x
  {
    PoolShare(node, r, h);
    assert PrimOk(r.pre[h]);
    RepeatedExactly(node, r, h);
    GrantWithin(r.pre[h].(driver := r.post[h].driver), Limits(FinalEntries(r), h));
  }

  /** A pool that only lists one device, twice. */
  function TwicePool(h: string, x: int, y: int): Pool {
    Pool("pool", Cdq, [ConfigDevice(h, "", x), ConfigDevice(h, "", y)], [], [], 0, false, false, false)
  }

  lemma BothKept(w: World, a: ConfigDevice, b: ConfigDevice)
    requires a.name != "" && b.name != "" && Admissible(w, Cdq, a.name) && Admissible(w, Cdq, b.name)
    ensures ValidExplicit(w, Cdq, [a, b]) == [a, b]
  {
    assert [a, b][..1] == [a] && [a][..0] == [];
    assert ValidExplicit(w, Cdq, [a]) == [a];
  }

  lemma TwicePoolRun(node: Node, w: World, h: string, x: int, y: int) returns (r: PoolRun)
    requires Inv(w) && Admissible(w, Cdq, h) && h != ""
    ensures ValidPoolRun(node, r) && r.pre == w && r.pool == TwicePool(h, x, y)
    ensures FinalEntries(r) == r.pool.devices
  {
    assert forall n | n in w :: PrimOk(w[n]);
    var pool := TwicePool(h, x, y);
    BothKept(w, ConfigDevice(h, "", x), ConfigDevice(h, "", y));
    var a := AssignAll(w, Cdq, pool.devices);
    r := PoolRun(pool, w, [w], [pool.devices], a.world, a.out);
  }

  lemma TwoLimits(h: string, x: int, y: int)
    ensures Limits(TwicePool(h, x, y).devices, h) == [x, y]
  {
    var a, b := ConfigDevice(h, "", x), ConfigDevice(h, "", y);
    LimitsOfOne(a, h);
    LimitsOfOne(b, h);
    LimitsAppend([a], [b], h);
    assert [a] + [b] == [a, b] && [x] + [y] == [x, y];
  }

  lemma SumOfTwo(x: int, y: int)
    ensures Sum([x, y]) == x + y
  {
    assert [x, y][..1] == [x] && [x][..0] == [];
    assert Sum([x]) == x;
  }

  /** A device that is listed twice yields both limits. */
  lemma ListedTwiceGetsBoth(node: Node, w: World, h: string, x: int, y: int) returns (r: PoolRun)
    requires Inv(w) && Admissible(w, Cdq, h) && h != "" && w[h].driver in CDQ_DRIVERS
    requires x > 0 && y > 0 && w[h].taken + x + y <= SECONDARY_MAX
    ensures ValidPoolRun(node, r) && r.pre == w && r.pool == TwicePool(h, x, y)
    ensures Share(r, h) == x + y
  {
    r := TwicePoolRun(node, w, h, x, y);
    PoolShare(node, r, h);
    PoolEffect(node, r);
    TwoLimits(h, x, y);
    SumOfTwo(x, y);
  }

  // ---------- When an entry yields a device ----------

  predicate Yields(r: PoolRun, h: string) { exists n | n in r.out :: r.out[n].host == h }

  lemma CdqYields(node: Node, r: PoolRun, h: string)
    requires ValidPoolRun(node, r) && !Skipped(r.pool, node) && Inv(r.pre) && r.pool.mode == Cdq && h in r.pre
    ensures Yields(r, h) <==> Share(r, h) > 0
  {
    PoolEffect(node, r);
    if Yields(r, h) {
      var n :| n in r.out && r.out[n].host == h;
      assert n in SubNames(r.out, h);
    } else {
      assert SubNames(r.out, h) == {};
    }
  }

  lemma PrimaryYields(node: Node, r: PoolRun, h: string)
    requires ValidPoolRun(node, r) && !Skipped(r.pool, node) && Inv(r.pre) && r.pool.mode == Primary
    requires h in EntryNames(FinalEntries(r))
    ensures Yields(r, h)
  {
    PoolEffect(node, r);
    PrimaryPoolNames(node, r);
    assert h in r.out;
    assert SlotName(r.out[h]) == h;
  }

  /**
   A device that a pool selected ends up in the pool exactly if it is taken whole, or can be sliced and still has a
   subfunction left. A device with none left is selected all the same, and counts against its driver's limit.
   */
  lemma YieldsExactly(node: Node, r: PoolRun, h: string)
    requires ValidPoolRun(node, r) && !Skipped(r.pool, node) && Inv(r.pre)
    requires h in EntryNames(FinalEntries(r))
    ensures h in r.pre && h in r.post
    ensures Yields(r, h)
            <==> || r.pool.mode == Primary
                 || (r.pool.mode == Cdq && r.post[h].driver in CDQ_DRIVERS && r.pre[h].taken < SECONDARY_MAX)
  {
    var w := Selected(node, r);
    PoolEffect(node, r);
    if r.pool.mode == Cdq {
      CdqYields(node, r, h);
      PoolShare(node, r, h);
      var limits := Limits(FinalEntries(r), h);
      NoLimits(FinalEntries(r), h);
      if AllPositive(limits) {
        SumBounds(limits);
      }
      assert PrimOk(r.pre[h]);
    } else if r.pool.mode == Primary {
      PrimaryYields(node, r, h);
    } else {
      OtherModesAssignNothing(w, r.pool.mode, FinalEntries(r));
    }
  }

  lemma SelectedEmits(node: Node, r: PoolRun)
    requires ValidPoolRun(node, r) && !Skipped(r.pool, node) && Inv(r.pre)
    ensures forall h | h in EntryNames(FinalEntries(r)) :: h in r.pre && h in r.post
    ensures r.Emitted() <==> exists h | h in EntryNames(FinalEntries(r)) ::
              || r.pool.mode == Primary
              || (r.pool.mode == Cdq && r.post[h].driver in CDQ_DRIVERS && r.pre[h].taken < SECONDARY_MAX)
  {
    forall h | h in EntryNames(FinalEntries(r))
      ensures h in r.pre && h in r.post
      ensures Yields(r, h) <==> || r.pool.mode == Primary
                                || (r.pool.mode == Cdq && r.post[h].driver in CDQ_DRIVERS
                                    && r.pre[h].taken < SECONDARY_MAX)
    {
      YieldsExactly(node, r, h);
    }
    if r.Emitted() {
      var n :| n in r.out;
      OnlyEntriesYield(node, r, n);
      assert Yields(r, r.out[n].host);
    }
  }

  /**
   A pool is emitted exactly if the node allows unprivileged BPF in case the pool requires it, and some device the pool
   selected yields something. A pool the node does not allow changes nothing.
   */
  lemma EmittedExactly(node: Node, r: PoolRun)
    requires ValidPoolRun(node, r) && Inv(r.pre)
    ensures (r.pool.requiresUnprivilegedBpf ==> node.unprivilegedBpf) ==>
              forall h | h in EntryNames(FinalEntries(r)) :: h in r.pre && h in r.post
    ensures r.Emitted() <==>
              && (r.pool.requiresUnprivilegedBpf ==> node.unprivilegedBpf)
              && exists h | h in EntryNames(FinalEntries(r)) ::
                   || r.pool.mode == Primary
                   || (r.pool.mode == Cdq && r.post[h].driver in CDQ_DRIVERS && r.pre[h].taken < SECONDARY_MAX)
    ensures r.pool.requiresUnprivilegedBpf && !node.unprivilegedBpf ==> r.post == r.pre
  {
    if r.pool.requiresUnprivilegedBpf ==> node.unprivilegedBpf {
      SelectedEmits(node, r);
    }
  }

  /** Nothing but selected devices ends up in a pool. */
  lemma OnlyEntriesYield(node: Node, r: PoolRun, n: string)
    requires ValidPoolRun(node, r) && !Skipped(r.pool, node) && Inv(r.pre) && n in r.out
    ensures r.out[n].host in EntryNames(FinalEntries(r))
  {
    var h := r.out[n].host;
    PoolEffect(node, r);
    assert NewIn(r.pre, r.post, r.out[n]) && SlotName(r.out[n]) == n;
    var w := Selected(node, r);
    if r.pool.mode == Cdq {
      PoolShare(node, r, h);
      CdqYields(node, r, h);
      NoLimits(FinalEntries(r), h);
      var k :| 0 <= k < |FinalEntries(r)| && FinalEntries(r)[k].name == h;
      assert EntryNames(FinalEntries(r))[k] == h;
    } else if r.pool.mode == Primary {
      PrimaryPoolNames(node, r);
    } else {
      OtherModesAssignNothing(w, r.pool.mode, FinalEntries(r));
    }
  }

  /** A pool that takes one ice device in cdq mode. */
  const ONE_ICE: ConfigDriver := ConfigDriver("ice", 1, 0, [], false)

  function OneIcePool(): Pool { Pool("pool", Cdq, [], [ONE_ICE], [], 0, false, false, false) }

  lemma ScanPicksOne(node: Node, w: World, h: string) returns (r: PoolRun)
    requires Inv(w) && Admissible(w, Cdq, h) && w[h].driver == "ice"
    ensures ValidPoolRun(node, r) && r.pre == w && r.pool == OneIcePool() && EntryNames(FinalEntries(r)) == [h]
  {
    assert forall n | n in w :: PrimOk(w[n]);
    var entry := ConfigDevice(h, "", 0);
    var eligible := Eligible(node, w, Cdq, [], ONE_ICE);
    assert h in eligible && |eligible| > 0;
    assert DriverStep(node, Cdq, ONE_ICE, w, [], w, [entry]) by {
      assert [entry][..0] == [] && [entry][0..] == [entry];
    }
    assert DriversFor(OneIcePool(), node) == [ONE_ICE] && DevicesFor(OneIcePool(), node) == [];
    assert ValidExplicit(w, Cdq, []) == [];
    var a := AssignAll(w, Cdq, [entry]);
    r := PoolRun(OneIcePool(), w, [w, w], [[], [entry]], a.world, a.out);
  }

  /** The pool is emitted exactly if the device it picked has a subfunction left. */
  lemma OneIceEmitted(node: Node, r: PoolRun, h: string)
    requires ValidPoolRun(node, r) && Inv(r.pre) && r.pool == OneIcePool() && EntryNames(FinalEntries(r)) == [h]
    requires h in r.pre && r.pre[h].driver == "ice"
    ensures r.Emitted() <==> r.pre[h].taken < SECONDARY_MAX
  {
    EmittedExactly(node, r);
    PoolEffect(node, r);
    assert h in EntryNames(FinalEntries(r));
  }

  /**
   With one exhausted and one usable device it depends on the iteration order of the host map whether the same pool is
   emitted or ends up empty.
   */
  lemma ExhaustedDevicePicked(node: Node, w: World, exhausted: string, usable: string)
    returns (empty: PoolRun, full: PoolRun)
    requires Inv(w) && Admissible(w, Cdq, exhausted) && Admissible(w, Cdq, usable)
    requires w[exhausted].driver == "ice" && w[exhausted].taken == SECONDARY_MAX
    requires w[usable].driver == "ice" && w[usable].taken < SECONDARY_MAX
    ensures ValidPoolRun(node, empty) && ValidPoolRun(node, full)
    ensures empty.pool == full.pool && empty.pre == full.pre == w
    ensures !empty.Emitted() && full.Emitted()
  {
    empty := ScanPicksOne(node, w, exhausted);
    full := ScanPicksOne(node, w, usable);
    OneIceEmitted(node, empty, exhausted);
    OneIceEmitted(node, full, usable);
  }

  // ---------- The size of a pool ----------

  lemma OneMore(out: map<string, Slot>, name: string, slot: Slot)
    ensures |out[name := slot]| <= |out| + 1
  {
    assert out[name := slot].Keys == out.Keys + {name};
  }

  lemma {:induction false} AddSubsSize(out: map<string, Slot>, host: string, first: nat, last: nat)
    requires first <= last
    ensures |AddSubs(out, host, first, last)| <= |out| + (last - first)
  {
    if first < last {
      AddSubsSize(out, host, first, last - 1);
      OneMore(AddSubs(out, host, first, last - 1), SfName(host, last), Sub(host, last));
    }
  }

  lemma EntrySize(a: Assigned, entry: ConfigDevice)
    requires Bounded(a.world) && entry.secondary > 0
    ensures |AssignOne(a, Cdq, entry).out| <= |a.out| + entry.secondary
  {
    if entry.name in a.world && AsCdq(a.world[entry.name], entry.secondary).Some? {
      AddSubsSize(a.out, entry.name, a.world[entry.name].taken,
                  AsCdq(a.world[entry.name], entry.secondary).value.taken);
    }
  }

  /** A cdq pool has at most `each` subfunctions for every one of its entries if none asks for more. */
  lemma {:induction false} EntriesBound(w: World, entries: seq<ConfigDevice>, each: nat)
    requires Bounded(w) && forall k | 0 <= k < |entries| :: 0 < entries[k].secondary <= each
    ensures |AssignAll(w, Cdq, entries).out| <= |entries| * each
  {
    if entries != [] {
      var front := entries[..|entries| - 1];
      EntriesBound(w, front, each);
      EntrySize(AssignAll(w, Cdq, front), entries[|entries| - 1]);
      Times(|front|, each);
    }
  }

  lemma Times(n: nat, each: nat)
    ensures (n + 1) * each == n * each + each
  {
  }

  /** The documented total of a pool with one driver: `primary` times `secondary` subfunctions on the node. */
  lemma DocumentedTotal(node: Node, r: PoolRun, driver: ConfigDriver)
    requires ValidPoolRun(node, r) && !Skipped(r.pool, node) && r.pool.mode == Cdq
    requires DevicesFor(r.pool, node) == [] && DriversFor(r.pool, node) == [driver]
    requires driver.primary > 0 && driver.secondary > 0
    ensures |r.out| <= driver.primary * driver.secondary
  {
    var list := r.lists[1];
    assert DriverStep(node, Cdq, driver, r.worlds[0], r.lists[0], r.worlds[1], list);
    assert r.lists[0] == [] && list[0..] == list;
    EntriesBound(r.worlds[1], list, driver.secondary);
    Scale(|list|, driver.primary, driver.secondary);
  }

  lemma Scale(a: nat, b: nat, c: nat)
    requires a <= b
    ensures a * c <= b * c
  {
  }
}
