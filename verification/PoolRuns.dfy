// Theorems over whole runs: any pools, any host, any map iteration order.

module PoolRuns {
  import opened Options
  import opened Text
  import opened Constants
  import opened Tools
  import opened PoolModel
  import opened PoolTheorems

  // ---------- Driver scans: which results an iteration order can produce ----------

  /** The scan of getDeviceListOfDriverType for one iteration order of the host map; limit 0 means none. */
  function ScanInOrder(order: seq<string>, eligible: set<string>, limit: nat, secondary: int): seq<ConfigDevice> {
    if order == [] then []
    else if order[0] !in eligible then ScanInOrder(order[1..], eligible, limit, secondary)
    else
      [ConfigDevice(order[0], "", secondary)]
      + if limit == 1 then [] else ScanInOrder(order[1..], eligible, if limit > 0 then limit - 1 else 0, secondary)
  }

  ghost predicate Enumerates(order: seq<string>, keys: set<string>) {
    && (forall i, j | 0 <= i < j < |order| :: order[i] != order[j])
    && (forall n :: n in order <==> n in keys)
  }

  lemma ScanCons(x: string, tail: seq<ConfigDevice>, eligible: set<string>, limit: nat, secondary: int)
    requires x in eligible && limit != 1
    requires ScanResult(tail, eligible - {x}, if limit > 0 then limit - 1 else 0, secondary)
    ensures ScanResult([ConfigDevice(x, "", secondary)] + tail, eligible, limit, secondary)
  {
    var r := [ConfigDevice(x, "", secondary)] + tail;
    assert |eligible - {x}| == |eligible| - 1;
    forall k | 0 <= k < |r| ensures r[k].name in eligible && r[k] == ConfigDevice(r[k].name, "", secondary) {
      if k > 0 { assert r[k] == tail[k - 1]; }
    }
    forall i, j | 0 <= i < j < |r| ensures r[i].name != r[j].name {
      assert r[j] == tail[j - 1];
      if i > 0 { assert r[i] == tail[i - 1]; }
    }
  }

  lemma {:induction false} ScanCount(order: seq<string>, eligible: set<string>, limit: nat, secondary: int)
    requires forall i, j | 0 <= i < j < |order| :: order[i] != order[j]
    requires forall n | n in eligible :: n in order
    ensures ScanResult(ScanInOrder(order, eligible, limit, secondary), eligible, limit, secondary)
  {
    if order == [] {
      assert eligible == {};
    } else {
      forall n | n in eligible && n != order[0] ensures n in order[1..] {
        var k :| 0 <= k < |order| && order[k] == n;
        assert order[1..][k - 1] == n;
      }
      if order[0] !in eligible {
        ScanCount(order[1..], eligible, limit, secondary);
      } else if limit == 1 {
        assert |eligible - {order[0]}| == |eligible| - 1;
      } else {
        var rest := eligible - {order[0]};
        var limit' := if limit > 0 then limit - 1 else 0;
        SameScan(order[1..], eligible, rest, limit', secondary);
        ScanCount(order[1..], rest, limit', secondary);
        ScanCons(order[0], ScanInOrder(order[1..], rest, limit', secondary), eligible, limit, secondary);
      }
    }
  }

  lemma {:induction false} SameScan(order: seq<string>, e1: set<string>, e2: set<string>, limit: nat, secondary: int)
    requires forall k | 0 <= k < |order| :: order[k] in e1 <==> order[k] in e2
    ensures ScanInOrder(order, e1, limit, secondary) == ScanInOrder(order, e2, limit, secondary)
  {
    if order != [] {
      SameScan(order[1..], e1, e2, limit, secondary);
      SameScan(order[1..], e1, e2, if limit > 0 then limit - 1 else 0, secondary);
    }
  }

  /** A sequence enumerating a finite set. */
  ghost function SomeOrder(keys: set<string>): (order: seq<string>)
    ensures Enumerates(order, keys)
  {
    if keys == {} then []
    else
      var n :| n in keys;
      [n] + SomeOrder(keys - {n})
  }

  function EntryNames(picked: seq<ConfigDevice>): (names: seq<string>)
    ensures |names| == |picked| && forall k | 0 <= k < |picked| :: names[k] == picked[k].name
  {
    seq(|picked|, k requires 0 <= k < |picked| => picked[k].name)
  }

  lemma {:induction false} ScanPicks(picked: seq<ConfigDevice>, tail: seq<string>, eligible: set<string>, limit: nat,
                                     secondary: int)
    requires forall k | 0 <= k < |picked| ::
               picked[k].name in eligible && picked[k] == ConfigDevice(picked[k].name, "", secondary)
    requires limit == 0 || |picked| < limit || picked == [] ==> NoneEligible(tail, eligible)
    requires limit > 0 ==> |picked| <= limit
    ensures ScanInOrder(EntryNames(picked) + tail, eligible, limit, secondary) == picked
  {
    if picked == [] {
      assert EntryNames(picked) + tail == tail;
      ScanNothing(tail, eligible, limit, secondary);
    } else {
      assert (EntryNames(picked) + tail)[1..] == EntryNames(picked[1..]) + tail;
      if limit != 1 {
        ScanPicks(picked[1..], tail, eligible, if limit > 0 then limit - 1 else 0, secondary);
      }
      assert picked == [picked[0]] + picked[1..];
    }
  }

  lemma {:induction false} ScanNothing(order: seq<string>, eligible: set<string>, limit: nat, secondary: int)
    requires forall n | n in order :: n !in eligible
    ensures ScanInOrder(order, eligible, limit, secondary) == []
  {
    if order != [] {
      ScanNothing(order[1..], eligible, limit, secondary);
    }
  }

  /**
   ScanResult is exact: a list is the outcome of scanning the host map in some order
   if and only if it consists of distinct eligible devices, min(limit, eligible) of them.
   */
  lemma ScanOutcomes(keys: set<string>, eligible: set<string>, limit: int, secondary: int, picked: seq<ConfigDevice>)
    requires eligible <= keys
    ensures var n := if limit > 0 then limit else 0;
            (exists order :: Enumerates(order, keys) && ScanInOrder(order, eligible, n, secondary) == picked)
            <==> ScanResult(picked, eligible, limit, secondary)
  {
    var n := if limit > 0 then limit else 0;
    forall order | Enumerates(order, keys) && ScanInOrder(order, eligible, n, secondary) == picked
      ensures ScanResult(picked, eligible, limit, secondary)
    {
      ScanCount(order, eligible, n, secondary);
    }
    if ScanResult(picked, eligible, limit, secondary) {
      var order := ScanReachable(keys, eligible, n, secondary, picked);
    }
  }

  lemma PickedNames(picked: seq<ConfigDevice>, eligible: set<string>, limit: nat, secondary: int)
    returns (chosen: set<string>)
    requires ScanResult(picked, eligible, limit, secondary)
    ensures Enumerates(EntryNames(picked), chosen)
    ensures |chosen| == |picked| && chosen <= eligible
    ensures |chosen| == |eligible| ==> chosen == eligible
  {
    var names := EntryNames(picked);
    chosen := set n | n in names;
    DistinctCard(names);
    forall n | n in chosen ensures n in eligible {
      var k :| 0 <= k < |names| && names[k] == n;
      assert picked[k].name in eligible;
    }
    SubsetCard(chosen, eligible);
  }

  ghost predicate NoneEligible(tail: seq<string>, eligible: set<string>) {
    forall n | n in tail :: n !in eligible
  }

  lemma OrderOfRest(names: seq<string>, chosen: set<string>, keys: set<string>) returns (tail: seq<string>)
    requires Enumerates(names, chosen) && chosen <= keys
    ensures Enumerates(names + tail, keys) && forall n | n in tail :: n !in chosen
  {
    var rest := keys - chosen;
    tail := SomeOrder(rest);
    EnumeratesConcat(names, tail, chosen, rest);
    assert chosen + rest == keys;
  }

  /** An order for the rest of the host, to be visited after the picked devices. */
  lemma ScanTail(keys: set<string>, eligible: set<string>, limit: nat, secondary: int, picked: seq<ConfigDevice>)
    returns (tail: seq<string>)
    requires eligible <= keys && ScanResult(picked, eligible, limit, secondary)
    ensures Enumerates(EntryNames(picked) + tail, keys)
    ensures limit == 0 || |picked| < limit || picked == [] ==> NoneEligible(tail, eligible)
    ensures limit > 0 ==> |picked| <= limit
  {
    var chosen := PickedNames(picked, eligible, limit, secondary);
    tail := OrderOfRest(EntryNames(picked), chosen, keys);
    ScanAllPicked(picked, tail, chosen, eligible, limit);
  }

  lemma ScanReachable(keys: set<string>, eligible: set<string>, limit: nat, secondary: int, picked: seq<ConfigDevice>)
    returns (order: seq<string>)
    requires eligible <= keys && ScanResult(picked, eligible, limit, secondary)
    ensures Enumerates(order, keys)
    ensures ScanInOrder(order, eligible, limit, secondary) == picked
  {
    var tail := ScanTail(keys, eligible, limit, secondary, picked);
    ScanPicks(picked, tail, eligible, limit, secondary);
    order := EntryNames(picked) + tail;
  }

  /** If the scan was not cut short, the names that remain are not eligible. */
  lemma ScanAllPicked(picked: seq<ConfigDevice>, tail: seq<string>, chosen: set<string>, eligible: set<string>,
                      limit: nat)
    requires forall n | n in tail :: n !in chosen
    requires |chosen| == |picked| == DeviceCount(|eligible|, limit)
    requires chosen <= eligible && (|chosen| == |eligible| ==> chosen == eligible)
    ensures limit == 0 || |picked| < limit || picked == [] ==> NoneEligible(tail, eligible)
    ensures limit > 0 ==> |picked| <= limit
  {
    if |eligible| == 0 {
      assert eligible == {};
    }
  }

  lemma EnumeratesConcat(a: seq<string>, b: seq<string>, s: set<string>, t: set<string>)
    requires Enumerates(a, s) && Enumerates(b, t) && s !! t
    ensures Enumerates(a + b, s + t)
  {
    forall i, j | 0 <= i < j < |a + b| ensures (a + b)[i] != (a + b)[j] {
      if i < |a| <= j {
        assert (a + b)[i] in a && (a + b)[j] in b;
      }
    }
  }

  lemma {:induction false} DistinctCard(names: seq<string>)
    requires forall i, j | 0 <= i < j < |names| :: names[i] != names[j]
    ensures |set n | n in names| == |names|
  {
    if names != [] {
      DistinctCard(names[1..]);
      assert (set n | n in names) == (set n | n in names[1..]) + {names[0]};
    }
  }

  lemma SubsetCard(a: set<string>, b: set<string>)
    requires a <= b
    ensures |a| <= |b|
    ensures |a| == |b| ==> a == b
  {
    assert |b - a| == |b| - |a|;
    if |b - a| == 0 {
      assert b - a == {};
    }
  }

  /** A scan that stopped at its limit or saw every host device has a permitted result. */
  lemma ScanDone(picked: seq<ConfigDevice>, eligible: set<string>, limit: int, secondary: int)
    requires forall k | 0 <= k < |picked| ::
               picked[k].name in eligible && picked[k] == ConfigDevice(picked[k].name, "", secondary)
    requires forall i, j | 0 <= i < j < |picked| :: picked[i].name != picked[j].name
    requires limit > 0 ==> |picked| <= limit
    requires (limit > 0 && |picked| == limit) || forall n | n in eligible :: n in EntryNames(picked)
    ensures ScanResult(picked, eligible, limit, secondary)
  {
    var names := EntryNames(picked);
    var chosen := set n | n in names;
    DistinctCard(names);
    SubsetCard(chosen, eligible);
    if !(limit > 0 && |picked| == limit) {
      assert chosen == eligible;
    }
  }

  /** A scan in progress: exactly the scannable devices already visited were picked. */
  ghost predicate ScanState(node: Node, w: World, mode: Mode, list: seq<ConfigDevice>, driver: ConfigDriver,
                            remaining: set<string>, picked: seq<ConfigDevice>)
  {
    && remaining <= w.Keys
    && (forall k | 0 <= k < |picked| ::
          && picked[k] == ConfigDevice(picked[k].name, "", driver.secondary)
          && picked[k].name !in remaining
          && Scannable(node, w, mode, list, driver, picked[k].name))
    && (forall i, j | 0 <= i < j < |picked| :: picked[i].name != picked[j].name)
    && (forall n | n in w && n !in remaining && Scannable(node, w, mode, list, driver, n) :: n in EntryNames(picked))
  }

  lemma ScanSkip(node: Node, w: World, w': World, mode: Mode, list: seq<ConfigDevice>, driver: ConfigDriver,
                 remaining: set<string>, n: string, picked: seq<ConfigDevice>)
    requires ScanState(node, w, mode, list, driver, remaining, picked) && n in remaining
    requires w'.Keys == w.Keys && forall h | h in w && h != n :: w'[h] == w[h]
    requires !Scannable(node, w', mode, list, driver, n)
    ensures ScanState(node, w', mode, list, driver, remaining - {n}, picked)
  {
    forall h | h in w && h != n
      ensures Scannable(node, w', mode, list, driver, h) <==> Scannable(node, w, mode, list, driver, h)
    {
    }
  }

  lemma ScanTake(node: Node, w: World, w': World, mode: Mode, list: seq<ConfigDevice>, driver: ConfigDriver,
                 remaining: set<string>, n: string, picked: seq<ConfigDevice>)
    requires ScanState(node, w, mode, list, driver, remaining, picked) && n in remaining
    requires w'.Keys == w.Keys && forall h | h in w && h != n :: w'[h] == w[h]
    requires Scannable(node, w', mode, list, driver, n)
    ensures ScanState(node, w', mode, list, driver, remaining - {n}, picked + [ConfigDevice(n, "", driver.secondary)])
  {
    var more := picked + [ConfigDevice(n, "", driver.secondary)];
    forall h | h in w && h != n
      ensures Scannable(node, w', mode, list, driver, h) <==> Scannable(node, w, mode, list, driver, h)
    {
    }
    assert EntryNames(more) == EntryNames(picked) + [n];
  }

  /** A scan in progress that started from another state of the driver caches. */
  ghost predicate Scanning(start: World, node: Node, w: World, mode: Mode, list: seq<ConfigDevice>,
                           driver: ConfigDriver,
                           remaining: set<string>, picked: seq<ConfigDevice>)
  {
    CacheOnly(start, w) && ScanState(node, w, mode, list, driver, remaining, picked)
  }

  /** One round of the scan, whichever way the verdict on the device goes. */
  lemma ScanRound(start: World, node: Node, w: World, w': World, mode: Mode, list: seq<ConfigDevice>,
                  driver: ConfigDriver, remaining: set<string>, n: string, picked: seq<ConfigDevice>, take: bool)
    requires Scanning(start, node, w, mode, list, driver, remaining, picked) && n in remaining
    requires CacheOnly(w, w') && forall h | h in w' && h != n :: w'[h] == w[h]
    requires take <==> Scannable(node, w', mode, list, driver, n)
    ensures Scanning(start, node, w', mode, list, driver, remaining - {n},
                     if take then picked + [ConfigDevice(n, "", driver.secondary)] else picked)
  {
    CacheTransitive(start, w, w');
    if take {
      ScanTake(node, w, w', mode, list, driver, remaining, n, picked);
    } else {
      ScanSkip(node, w, w', mode, list, driver, remaining, n, picked);
    }
  }

  lemma ScanFinished(node: Node, w: World, mode: Mode, list: seq<ConfigDevice>, driver: ConfigDriver,
                     remaining: set<string>, picked: seq<ConfigDevice>)
    requires ScanState(node, w, mode, list, driver, remaining, picked)
    requires driver.primary > 0 ==> |picked| <= driver.primary
    requires remaining == {} || (driver.primary > 0 && |picked| == driver.primary)
    ensures ScanResult(picked, Eligible(node, w, mode, list, driver), driver.primary, driver.secondary)
  {
    ScanDone(picked, Eligible(node, w, mode, list, driver), driver.primary, driver.secondary);
  }

  /** A scan that was not cut short by its limit has picked everything eligible. */
  lemma ScanIsComplete(picked: seq<ConfigDevice>, eligible: set<string>, limit: int, secondary: int)
    requires ScanResult(picked, eligible, limit, secondary) && (limit <= 0 || |picked| < limit)
    ensures forall h | h in eligible :: exists j | 0 <= j < |picked| :: picked[j].name == h
  {
    var names := EntryNames(picked);
    var chosen := set n | n in names;
    DistinctCard(names);
    SubsetCard(chosen, eligible);
    forall h | h in eligible ensures exists j | 0 <= j < |picked| :: picked[j].name == h {
      assert h in chosen;
      var j :| 0 <= j < |names| && names[j] == h;
      assert picked[j].name == h;
    }
  }

  /** What makes a device scannable, in full. */
  lemma ScannableExactly(node: Node, w: World, mode: Mode, list: seq<ConfigDevice>, driver: ConfigDriver, h: string)
    ensures Scannable(node, w, mode, list, driver, h)
            <==> && h in w && w[h].driver == driver.name && !w[h].fully
                 && (w[h].mode == Unset || w[h].mode == mode)
                 && (forall p | p in PROHIBITED :: !(p <= h))
                 && (forall i | 0 <= i < |list| :: (if list[i].name != "" then list[i].name else list[i].resolved) != h)
                 && (forall i | 0 <= i < |driver.exclude| ::
                       (if driver.exclude[i].name != "" then driver.exclude[i].name else driver.exclude[i].resolved)
                       != h)
                 && (driver.excludeAddressed ==> h !in node.addressed)
  {
    PrefixedExactly(PROHIBITED, h);
  }

  /** What a scan picks, in full: only such devices, with the limit of their driver. */
  lemma PickedOnly(node: Node, w: World, mode: Mode, list: seq<ConfigDevice>, driver: ConfigDriver,
                   picked: seq<ConfigDevice>)
    requires ScanResult(picked, Eligible(node, w, mode, list, driver), driver.primary, driver.secondary)
    ensures driver.primary > 0 ==> |picked| <= driver.primary
    ensures forall j | 0 <= j < |picked| ::
      var h := picked[j].name;
      && picked[j] == ConfigDevice(h, "", driver.secondary)
      && h in w && w[h].driver == driver.name && !w[h].fully
      && (w[h].mode == Unset || w[h].mode == mode)
      && (forall p | p in PROHIBITED :: !(p <= h))
      && (forall i | 0 <= i < |list| :: (if list[i].name != "" then list[i].name else list[i].resolved) != h)
      && (forall i | 0 <= i < |driver.exclude| ::
            (if driver.exclude[i].name != "" then driver.exclude[i].name else driver.exclude[i].resolved) != h)
      && (driver.excludeAddressed ==> h !in node.addressed)
  {
    forall j | 0 <= j < |picked| {
      ScannableExactly(node, w, mode, list, driver, picked[j].name);
    }
  }

  /** All such devices, unless the driver's limit was reached. */
  lemma PickedAll(node: Node, w: World, mode: Mode, list: seq<ConfigDevice>, driver: ConfigDriver,
                  picked: seq<ConfigDevice>)
    requires ScanResult(picked, Eligible(node, w, mode, list, driver), driver.primary, driver.secondary)
    requires driver.primary <= 0 || |picked| < driver.primary
    ensures forall h |
      && h in w && w[h].driver == driver.name && !w[h].fully
      && (w[h].mode == Unset || w[h].mode == mode)
      && (forall p | p in PROHIBITED :: !(p <= h))
      && (forall i | 0 <= i < |list| :: (if list[i].name != "" then list[i].name else list[i].resolved) != h)
      && (forall i | 0 <= i < |driver.exclude| ::
            (if driver.exclude[i].name != "" then driver.exclude[i].name else driver.exclude[i].resolved) != h)
      && (driver.excludeAddressed ==> h !in node.addressed) ::
        exists j | 0 <= j < |picked| :: picked[j].name == h
  {
    ScanIsComplete(picked, Eligible(node, w, mode, list, driver), driver.primary, driver.secondary);
    forall h ensures Scannable(node, w, mode, list, driver, h) <==>
      && h in w && w[h].driver == driver.name && !w[h].fully
      && (w[h].mode == Unset || w[h].mode == mode)
      && (forall p | p in PROHIBITED :: !(p <= h))
      && (forall i | 0 <= i < |list| :: (if list[i].name != "" then list[i].name else list[i].resolved) != h)
      && (forall i | 0 <= i < |driver.exclude| ::
            (if driver.exclude[i].name != "" then driver.exclude[i].name else driver.exclude[i].resolved) != h)
      && (driver.excludeAddressed ==> h !in node.addressed)
    {
      ScannableExactly(node, w, mode, list, driver, h);
    }
    forall h | Scannable(node, w, mode, list, driver, h) ensures exists j | 0 <= j < |picked| :: picked[j].name == h {
      assert h in Eligible(node, w, mode, list, driver);
    }
  }

  /**
   The selection of a pool's entries from beginning to end: it starts from the usable explicit entries of the pool or,
   where there is a configuration for this node, of that, and scans for all of its drivers.
   */
  lemma SelectionComplete(node: Node, r: PoolRun)
    requires ValidPoolRun(node, r) && (r.pool.requiresUnprivilegedBpf ==> node.unprivilegedBpf)
    ensures |r.lists| == |r.worlds| > 0 && r.worlds[0] == r.pre
    ensures (forall k | 0 <= k < |r.pool.nodes| :: r.pool.nodes[k].hostname != node.hostname) ==>
              |r.lists| == |r.pool.drivers| + 1
              && forall device :: device in r.lists[0] <==>
                   && device in r.pool.devices && (device.name != "" || device.resolved != "")
                   && device.name in r.pre && !r.pre[device.name].fully
                   && (forall p | p in PROHIBITED :: !(p <= device.name))
                   && (r.pre[device.name].mode == Unset || r.pre[device.name].mode == r.pool.mode)
    ensures forall k | 0 <= k < |r.pool.nodes| && r.pool.nodes[k].hostname == node.hostname
                       && forall j | 0 <= j < k :: r.pool.nodes[j].hostname != node.hostname ::
              |r.lists| == |r.pool.nodes[k].drivers| + 1
              && forall device :: device in r.lists[0] <==>
                   && device in r.pool.nodes[k].devices && (device.name != "" || device.resolved != "")
                   && device.name in r.pre && !r.pre[device.name].fully
                   && (forall p | p in PROHIBITED :: !(p <= device.name))
                   && (r.pre[device.name].mode == Unset || r.pre[device.name].mode == r.pool.mode)
  {
    ExplicitExactly(r.pre, r.pool.mode, DevicesFor(r.pool, node));
    if forall k | 0 <= k < |r.pool.nodes| :: r.pool.nodes[k].hostname != node.hostname {
      NoNodeConfig(r.pool.nodes, node.hostname);
    }
    forall k | 0 <= k < |r.pool.nodes| && r.pool.nodes[k].hostname == node.hostname
               && forall j | 0 <= j < k :: r.pool.nodes[j].hostname != node.hostname
      ensures NodeConfig(r.pool.nodes, node.hostname) == Some(r.pool.nodes[k])
    {
      NodeConfigFirst(r.pool.nodes, node.hostname, k);
    }
  }

  /** The first configuration with the host's name counts. */
  lemma {:induction false} NodeConfigFirst(nodes: seq<ConfigNode>, hostname: string, k: nat)
    requires k < |nodes| && nodes[k].hostname == hostname
    requires forall j | 0 <= j < k :: nodes[j].hostname != hostname
    ensures NodeConfig(nodes, hostname) == Some(nodes[k])
    decreases k
  {
    if k > 0 {
      NodeConfigFirst(nodes[1..], hostname, k - 1);
    }
  }

  lemma {:induction false} NoNodeConfig(nodes: seq<ConfigNode>, hostname: string)
    requires forall k | 0 <= k < |nodes| :: nodes[k].hostname != hostname
    ensures NodeConfig(nodes, hostname) == None
  {
    if nodes != [] {
      NoNodeConfig(nodes[1..], hostname);
    }
  }

  /**
   What the scan for the k-th driver of a pool adds: entries with this driver's limit, for devices that have this
   driver, are on the host, not fully assigned, in no other mode, not prohibited, not in the pool yet, not excluded
   and, where the driver asks for it, not addressed; and all of them unless the driver's limit was reached.
   */
  lemma ScanAdds(node: Node, r: PoolRun, k: nat) returns (picked: seq<ConfigDevice>)
    requires ValidPoolRun(node, r) && (r.pool.requiresUnprivilegedBpf ==> node.unprivilegedBpf)
    requires 0 < k < |r.lists|
    ensures k <= |DriversFor(r.pool, node)| && k < |r.worlds| && r.lists[k] == r.lists[k - 1] + picked
    ensures var driver := DriversFor(r.pool, node)[k - 1]; driver.primary > 0 ==> |picked| <= driver.primary
    ensures var driver, before, w := DriversFor(r.pool, node)[k - 1], r.lists[k - 1], r.worlds[k];
      forall j | 0 <= j < |picked| ::
        var h := picked[j].name;
        && picked[j] == ConfigDevice(h, "", driver.secondary)
        && h in w && w[h].driver == driver.name && !w[h].fully
        && (w[h].mode == Unset || w[h].mode == r.pool.mode)
        && (forall p | p in PROHIBITED :: !(p <= h))
        && (forall i | 0 <= i < |before| :: (if before[i].name != "" then before[i].name else before[i].resolved) != h)
        && (forall i | 0 <= i < |driver.exclude| ::
              (if driver.exclude[i].name != "" then driver.exclude[i].name else driver.exclude[i].resolved) != h)
        && (driver.excludeAddressed ==> h !in node.addressed)
    ensures var driver, before, w := DriversFor(r.pool, node)[k - 1], r.lists[k - 1], r.worlds[k];
      driver.primary <= 0 || |picked| < driver.primary ==>
        forall h |
          && h in w && w[h].driver == driver.name && !w[h].fully
          && (w[h].mode == Unset || w[h].mode == r.pool.mode)
          && (forall p | p in PROHIBITED :: !(p <= h))
          && (forall i | 0 <= i < |before| ::
                (if before[i].name != "" then before[i].name else before[i].resolved) != h)
          && (forall i | 0 <= i < |driver.exclude| ::
                (if driver.exclude[i].name != "" then driver.exclude[i].name else driver.exclude[i].resolved) != h)
          && (driver.excludeAddressed ==> h !in node.addressed) ::
            exists j | 0 <= j < |picked| :: picked[j].name == h
  {
    var driver, before, w := DriversFor(r.pool, node)[k - 1], r.lists[k - 1], r.worlds[k];
    assert DriverStep(node, r.pool.mode, driver, r.worlds[k - 1], before, w, r.lists[k]);
    picked := r.lists[k][|before|..];
    PickedOnly(node, w, r.pool.mode, before, driver, picked);
    if driver.primary <= 0 || |picked| < driver.primary {
      PickedAll(node, w, r.pool.mode, before, driver, picked);
    }
  }

  // ---------- Runs ----------

  /** What PoolEffect says about one pool. */
  ghost predicate StepEffect(r: PoolRun) {
    && Inv(r.pre) && Inv(r.post)
    && Grows(r.pre, r.post)
    && ExactDiff(r.pre, r.post, r.out)
    && KindsMatch(r.pool.mode, r.out)
  }

  /** A run seen through its effects only. */
  ghost predicate Effects(start: World, runs: seq<PoolRun>) {
    && Inv(start)
    && forall k {:trigger StepEffect(runs[k])} | 0 <= k < |runs| ::
         runs[k].pre == WorldAt(start, runs, k) && StepEffect(runs[k])
  }

  lemma {:induction false} RunInvariant(node: Node, start: World, runs: seq<PoolRun>, k: nat)
    requires Inv(start) && ValidRun(node, start, runs) && k <= |runs|
    ensures Inv(WorldAt(start, runs, k))
  {
    if k > 0 {
      RunInvariant(node, start, runs, k - 1);
      PoolEffect(node, runs[k - 1]);
    }
  }

  lemma RunEffects(node: Node, start: World, runs: seq<PoolRun>)
    requires Inv(start) && ValidRun(node, start, runs)
    ensures Effects(start, runs)
  {
    forall k | 0 <= k < |runs| ensures runs[k].pre == WorldAt(start, runs, k) && StepEffect(runs[k]) {
      RunInvariant(node, start, runs, k);
      PoolEffect(node, runs[k]);
    }
  }

  lemma WorldInv(start: World, runs: seq<PoolRun>, k: nat)
    requires Effects(start, runs) && k <= |runs|
    ensures Inv(WorldAt(start, runs, k))
  {
    if k > 0 {
      assert StepEffect(runs[k - 1]);
    }
  }

  lemma GrowsTransitive(u: World, v: World, w: World)
    requires Grows(u, v) && Grows(v, w)
    ensures Grows(u, w)
  {
  }

  lemma {:induction false} ChainGrows(worlds: seq<World>, j: nat, k: nat)
    requires j <= k < |worlds|
    requires forall i | 0 <= i < |worlds| - 1 :: Grows(worlds[i], worlds[i + 1])
    ensures Grows(worlds[j], worlds[k])
    decreases k
  {
    if j < k {
      ChainGrows(worlds, j, k - 1);
      assert Grows(worlds[k - 1], worlds[k - 1 + 1]);
      GrowsTransitive(worlds[j], worlds[k - 1], worlds[k]);
    }
  }

  /** Mode is write-once over any stretch of a run, and nothing assigned is ever released. */
  lemma RunGrows(start: World, runs: seq<PoolRun>, j: nat, k: nat)
    requires Effects(start, runs) && j <= k <= |runs|
    ensures Grows(WorldAt(start, runs, j), WorldAt(start, runs, k))
  {
    var worlds := seq(|runs| + 1, i requires 0 <= i <= |runs| => WorldAt(start, runs, i));
    forall i | 0 <= i < |worlds| - 1 ensures Grows(worlds[i], worlds[i + 1]) {
      assert StepEffect(runs[i]);
    }
    ChainGrows(worlds, j, k);
  }

  lemma ModeWriteOnce(node: Node, start: World, runs: seq<PoolRun>, j: nat, k: nat, host: string)
    requires Fresh(start) && ValidRun(node, start, runs) && j <= k <= |runs| && host in start
    ensures var v, w := WorldAt(start, runs, j), WorldAt(start, runs, k);
            && host in v && host in w
            && !w[host].mode.Unsupported?
            && (v[host].mode != Unset ==> w[host].mode == v[host].mode)
            && (w[host].mode == Primary <==> w[host].fully)
            && v[host].taken <= w[host].taken
  {
    RunEffects(node, start, runs);
    RunGrows(start, runs, 0, j);
    RunGrows(start, runs, j, k);
    WorldInv(start, runs, k);
    assert PrimOk(WorldAt(start, runs, k)[host]);
  }

  lemma SlotIsNew(start: World, runs: seq<PoolRun>, k: nat, s: Slot)
    requires Effects(start, runs) && k < |runs| && s in runs[k].out.Values
    ensures NewIn(WorldAt(start, runs, k), WorldAt(start, runs, k + 1), s)
    ensures SlotName(s) in runs[k].out && runs[k].out[SlotName(s)] == s
    ensures !PrefixedByAny(PROHIBITED, s.host)
    ensures if s.Whole? then runs[k].pool.mode == Primary else runs[k].pool.mode == Cdq
  {
    assert StepEffect(runs[k]);
    var n :| n in runs[k].out && runs[k].out[n] == s;
    assert SlotName(runs[k].out[n]) == n;
  }

  lemma SlotApart(start: World, runs: seq<PoolRun>, i: nat, j: nat, s: Slot)
    requires Effects(start, runs) && i < j < |runs|
    requires s in runs[i].out.Values
    ensures s !in runs[j].out.Values
  {
    SlotIsNew(start, runs, i, s);
    RunGrows(start, runs, i + 1, j);
    assert !NewIn(WorldAt(start, runs, j), WorldAt(start, runs, j + 1), s);
    if s in runs[j].out.Values {
      SlotIsNew(start, runs, j, s);
    }
  }

  lemma SlotsApart(start: World, runs: seq<PoolRun>, i: nat, j: nat)
    requires Effects(start, runs) && i < j < |runs|
    ensures runs[i].out.Values !! runs[j].out.Values
  {
    forall s | s in runs[i].out.Values ensures s !in runs[j].out.Values {
      SlotApart(start, runs, i, j, s);
    }
  }

  /** Exclusive ownership: no device and no subfunction is ever given to two pools. */
  lemma SlotsExclusive(node: Node, start: World, runs: seq<PoolRun>, i: nat, j: nat)
    requires Fresh(start) && ValidRun(node, start, runs) && i < j < |runs|
    ensures runs[i].out.Values !! runs[j].out.Values
  {
    RunEffects(node, start, runs);
    SlotsApart(start, runs, i, j);
  }

  lemma ExtendRun(node: Node, start: World, runs: seq<PoolRun>, r: PoolRun)
    requires ValidRun(node, start, runs) && r.pre == WorldAt(start, runs, |runs|) && ValidPoolRun(node, r)
    ensures ValidRun(node, start, runs + [r])
    ensures WorldAt(start, runs + [r], |runs| + 1) == r.post
  {
    var more := runs + [r];
    forall k | 0 <= k < |more| ensures more[k].pre == WorldAt(start, more, k) && ValidPoolRun(node, more[k]) {
      if k < |runs| {
        assert ValidPoolRun(node, runs[k]);
        assert more[k] == runs[k];
      }
    }
  }

  /** The emitted pools of a run, in order. */
  ghost predicate Tracks(runs: seq<PoolRun>, at: seq<nat>) {
    && (forall k | 0 <= k < |at| :: at[k] < |runs| && runs[at[k]].Emitted())
    && (forall i, j | 0 <= i < j < |at| :: at[i] < at[j])
    && (forall p: nat | p < |runs| && runs[p].Emitted() :: p in at)
  }

  lemma ExtendTracks(runs: seq<PoolRun>, at: seq<nat>, r: PoolRun)
    requires Tracks(runs, at)
    ensures Tracks(runs + [r], if r.Emitted() then at + [|runs|] else at)
  {
    if r.Emitted() {
      TrackEmitted(runs, at, r);
    } else {
      var more := runs + [r];
      forall p: nat | p < |more| && more[p].Emitted() ensures p in at {
        assert p < |runs| ==> runs[p].Emitted();
      }
    }
  }

  lemma TrackEmitted(runs: seq<PoolRun>, at: seq<nat>, r: PoolRun)
    requires Tracks(runs, at) && r.Emitted()
    ensures Tracks(runs + [r], at + [|runs|])
  {
    var more, at' := runs + [r], at + [|runs|];
    forall p: nat | p < |more| && more[p].Emitted() ensures p in at' {
      if p < |runs| {
        assert runs[p].Emitted();
        assert p in at;
      } else {
        assert at'[|at|] == p;
      }
    }
  }

  // ---------- Names ----------

  /** A host device that is itself named like a subfunction another host device can get. */
  predicate Clash(start: World, host: string, i: nat) {
    && 1 <= i <= SECONDARY_MAX
    && host in start && SfName(host, i) in start
    && !PrefixedByAny(PROHIBITED, host)
    && !PrefixedByAny(PROHIBITED, SfName(host, i))
    && (start[host].driver == "" || start[host].driver in CDQ_DRIVERS)
  }

  lemma SlotOrigin(start: World, runs: seq<PoolRun>, k: nat, s: Slot)
    requires Fresh(start) && Effects(start, runs) && k < |runs| && s in runs[k].out.Values
    ensures s.host in start && !PrefixedByAny(PROHIBITED, s.host)
    ensures s.Sub? ==> 1 <= s.num <= SECONDARY_MAX
    ensures s.Sub? ==> start[s.host].driver == "" || start[s.host].driver in CDQ_DRIVERS
  {
    SlotIsNew(start, runs, k, s);
    RunGrows(start, runs, 0, k + 1);
    WorldInv(start, runs, k + 1);
    assert PrimOk(WorldAt(start, runs, k + 1)[s.host]);
  }

  /** A name in two pools would have to be both a whole device and a subfunction: a clash. */
  lemma SharedNameIsClash(node: Node, start: World, runs: seq<PoolRun>, i: nat, j: nat, n: string)
    requires Fresh(start) && ValidRun(node, start, runs) && i < j < |runs|
    requires n in runs[i].out && n in runs[j].out
    ensures exists host: string, num: nat :: Clash(start, host, num)
  {
    RunEffects(node, start, runs);
    assert StepEffect(runs[i]) && StepEffect(runs[j]);
    var s, t := runs[i].out[n], runs[j].out[n];
    assert s in runs[i].out.Values && t in runs[j].out.Values;
    SlotsApart(start, runs, i, j);
    SlotOrigin(start, runs, i, s);
    SlotOrigin(start, runs, j, t);
    assert SlotName(s) == n == SlotName(t);
    if s.Sub? && t.Sub? {
      SfNameInjective(s.host, s.num, t.host, t.num);
    }
    var sub := if s.Sub? then s else t;
    assert Clash(start, sub.host, sub.num);
  }

  /** The pools that turn a clash into a shared name: scan one ice device in cdq mode, then take the other whole. */
  function ClashPools(host: string, i: nat): seq<Pool> {
    [Pool("cdqpool", Cdq, [], [ConfigDriver("ice", 1, 0, [], false)], [], 0, false, false, false),
     Pool("wholepool", Primary, [ConfigDevice(SfName(host, i), "", 0)], [], [], 0, false, false,
          false)]
  }

  lemma ClashFirstPool(node: Node, start: World, host: string, i: nat) returns (r: PoolRun)
    requires Fresh(start) && Clash(start, host, i)
    ensures ValidPoolRun(node, r) && r.pool == ClashPools(host, i)[0] && r.pre == start
    ensures SfName(host, i) in r.out
    ensures forall h | h in start && h != host :: h in r.post && r.post[h] == start[h]
  {
    var pool := ClashPools(host, i)[0];
    var w := start[host := start[host].(driver := "ice")];
    var driver := ConfigDriver("ice", 1, 0, [], false);
    var entry := ConfigDevice(host, "", 0);
    var eligible := Eligible(node, w, Cdq, [], driver);
    assert host in eligible;
    assert |eligible| > 0;
    assert DriverStep(node, Cdq, driver, start, [], w, [entry]) by {
      assert [entry][..0] == [];
      assert [entry][0..] == [entry];
    }
    assert Inv(w);
    var a := AssignAll(w, Cdq, [entry]);
    assert [entry][..0] == [];
    assert AssignAll(w, Cdq, []) == Assigned(w, map[]);
    assert a == AssignOne(Assigned(w, map[]), Cdq, entry);
    assert a.world[host].taken == 64;
    AddSubsContents(map[], host, 0, 64);
    r := PoolRun(pool, start, [start, w], [[], [entry]], a.world, a.out);
    assert DriversFor(pool, node) == [driver];
    assert ValidExplicit(start, Cdq, DevicesFor(pool, node)) == [];
  }

  lemma ClashSecondPool(node: Node, w: World, host: string, i: nat) returns (r: PoolRun)
    requires Bounded(w) && Admissible(w, Primary, SfName(host, i))
    ensures ValidPoolRun(node, r) && r.pool == ClashPools(host, i)[1] && r.pre == w
    ensures SfName(host, i) in r.out
  {
    var pool := ClashPools(host, i)[1];
    var entry := ConfigDevice(SfName(host, i), "", 0);
    SingleExplicit(w, entry);
    var a := AssignAll(w, Primary, [entry]);
    r := PoolRun(pool, w, [w], [[entry]], a.world, a.out);
    assert DriversFor(pool, node) == [] && DevicesFor(pool, node) == [entry];
  }

  lemma SingleExplicit(w: World, entry: ConfigDevice)
    requires Bounded(w) && entry.name != "" && Admissible(w, Primary, entry.name)
    requires w[entry.name].mode in {Unset, Primary}
    ensures ValidExplicit(w, Primary, [entry]) == [entry]
    ensures entry.name in AssignAll(w, Primary, [entry]).out
  {
    assert [entry][..0] == [];
    assert ValidExplicit(w, Primary, []) == [];
    assert AssignAll(w, Primary, []) == Assigned(w, map[]);
  }

  /** A clash on the host is enough to make two pools share a device name. */
  lemma ClashIsReachable(node: Node, start: World, host: string, i: nat) returns (runs: seq<PoolRun>)
    requires Fresh(start) && Clash(start, host, i)
    ensures |runs| == 2 && ValidRun(node, start, runs)
    ensures SfName(host, i) in runs[0].out && SfName(host, i) in runs[1].out
  {
    var r0 := ClashFirstPool(node, start, host, i);
    SfNameDiffers(host, i);
    PoolEffect(node, r0);
    var r1 := ClashSecondPool(node, r0.post, host, i);
    runs := [r0, r1];
  }

  ghost predicate NamesExclusive(runs: seq<PoolRun>) {
    forall i, j | 0 <= i < j < |runs| :: runs[i].out.Keys !! runs[j].out.Keys
  }

  /**
   Exclusive names: on a given host, no configuration and no iteration order ever puts one
   device name into two pools if and only if no host device is named like another's subfunction.
   */
  lemma NamesExclusiveExactly(node: Node, start: World)
    requires Fresh(start)
    ensures (forall runs: seq<PoolRun> | ValidRun(node, start, runs) :: NamesExclusive(runs))
            <==> !exists host: string, i: nat :: Clash(start, host, i)
  {
    forall runs: seq<PoolRun> | ValidRun(node, start, runs) && !NamesExclusive(runs)
      ensures exists host: string, i: nat :: Clash(start, host, i)
    {
      var i, j :| 0 <= i < j < |runs| && !(runs[i].out.Keys !! runs[j].out.Keys);
      var n :| n in runs[i].out.Keys && n in runs[j].out.Keys;
      SharedNameIsClash(node, start, runs, i, j, n);
    }
    forall host: string, i: nat | Clash(start, host, i)
      ensures exists runs: seq<PoolRun> :: ValidRun(node, start, runs) && !NamesExclusive(runs)
    {
      var runs := ClashIsReachable(node, start, host, i);
      assert !(runs[0].out.Keys !! runs[1].out.Keys);
    }
  }

  // ---------- Conservation ----------

  /** The names in a pool's device map that are subfunctions of the host. */
  function SubNames(out: map<string, Slot>, host: string): set<string> {
    set n | n in out && out[n].Sub? && out[n].host == host
  }

  /** The subfunctions of the host in the first k pools. */
  function SubsIn(runs: seq<PoolRun>, k: nat, host: string): nat
    requires k <= |runs|
  {
    if k == 0 then 0 else SubsIn(runs, k - 1, host) + |SubNames(runs[k - 1].out, host)|
  }

  function NameRange(host: string, first: nat, last: nat): set<string> {
    set i: nat | first < i <= last :: SfName(host, i)
  }

  lemma {:induction false} NameRangeCard(host: string, first: nat, last: nat)
    requires first <= last
    ensures |NameRange(host, first, last)| == last - first
  {
    if first < last {
      var shorter := NameRange(host, first, last - 1);
      NameRangeCard(host, first, last - 1);
      forall i: nat | first < i <= last - 1 ensures SfName(host, last) != SfName(host, i) {
        if SfName(host, last) == SfName(host, i) {
          SfNameInjective(host, last, host, i);
        }
      }
      assert SfName(host, last) !in shorter;
      assert NameRange(host, first, last) == shorter + {SfName(host, last)};
    } else {
      assert NameRange(host, first, last) == {};
    }
  }

  lemma SubNamesCount(r: PoolRun, host: string)
    requires StepEffect(r) && host in r.pre
    ensures host in r.post
    ensures |SubNames(r.out, host)| == r.post[host].taken - r.pre[host].taken
  {
    var first, last := r.pre[host].taken, r.post[host].taken;
    NameRangeCard(host, first, last);
    forall n ensures n in SubNames(r.out, host) <==> n in NameRange(host, first, last) {
      if n in SubNames(r.out, host) {
        assert NewIn(r.pre, r.post, r.out[n]) && SlotName(r.out[n]) == n;
      }
      if n in NameRange(host, first, last) {
        var i: nat :| first < i <= last && n == SfName(host, i);
        assert NewIn(r.pre, r.post, Sub(host, i));
      }
    }
    assert SubNames(r.out, host) == NameRange(host, first, last);
  }

  lemma {:induction false} SubsTelescope(start: World, runs: seq<PoolRun>, k: nat, host: string)
    requires Effects(start, runs) && Fresh(start) && host in start && k <= |runs|
    ensures host in WorldAt(start, runs, k)
    ensures SubsIn(runs, k, host) == WorldAt(start, runs, k)[host].taken
  {
    if k > 0 {
      SubsTelescope(start, runs, k - 1, host);
      assert StepEffect(runs[k - 1]);
      SubNamesCount(runs[k - 1], host);
    }
  }

  /** UnassignedSecondaries: zero while no subfunctions exist. */
  function Unassigned(p: Prim): nat {
    if p.made && p.taken <= SECONDARY_MAX then SECONDARY_MAX - p.taken else 0
  }

  /**
   Conservation. At the end of any run every cdq-mode device has exactly 64 subfunctions, counted over
   all pools' device maps and the unassigned rest; no other device has any.
   */
  lemma SubfunctionsConserved(node: Node, start: World, runs: seq<PoolRun>, host: string)
    requires Fresh(start) && ValidRun(node, start, runs) && host in start
    ensures host in WorldAt(start, runs, |runs|)
    ensures var p := WorldAt(start, runs, |runs|)[host];
            SubsIn(runs, |runs|, host) + Unassigned(p) == if p.mode == Cdq then 64 else 0
  {
    RunEffects(node, start, runs);
    SubsTelescope(start, runs, |runs|, host);
    WorldInv(start, runs, |runs|);
    assert PrimOk(WorldAt(start, runs, |runs|)[host]);
  }

  /** The subfunctions of the host in the first k emitted pools. */
  function EmittedSubs(runs: seq<PoolRun>, at: seq<nat>, k: nat, host: string): nat
    requires k <= |at| && forall i | 0 <= i < |at| :: at[i] < |runs|
  {
    if k == 0 then 0 else EmittedSubs(runs, at, k - 1, host) + |SubNames(runs[at[k - 1]].out, host)|
  }

  lemma {:induction false} SilentPools(runs: seq<PoolRun>, i: nat, j: nat, host: string)
    requires i <= j <= |runs| && forall p | i <= p < j :: !runs[p].Emitted()
    ensures SubsIn(runs, i, host) == SubsIn(runs, j, host)
    decreases j
  {
    if i < j {
      SilentPools(runs, i, j - 1, host);
      assert !runs[j - 1].Emitted();
      assert SubNames(runs[j - 1].out, host) == {};
    }
  }

  /** Where the pool after the first k emitted ones is, or the end. */
  function Place(runs: seq<PoolRun>, at: seq<nat>, k: nat): nat
    requires k <= |at|
  {
    if k == |at| then |runs| else at[k]
  }

  lemma NoneBetween(runs: seq<PoolRun>, at: seq<nat>, k: nat)
    requires Tracks(runs, at) && k <= |at|
    ensures Place(runs, at, k) <= |runs|
    ensures k > 0 ==> at[k - 1] < Place(runs, at, k)
    ensures forall p | (if k == 0 then 0 else at[k - 1] + 1) <= p < Place(runs, at, k) :: !runs[p].Emitted()
  {
  }

  lemma {:induction false} EmittedSubsUpTo(runs: seq<PoolRun>, at: seq<nat>, k: nat, host: string)
    requires Tracks(runs, at) && k <= |at|
    ensures Place(runs, at, k) <= |runs|
    ensures SubsIn(runs, Place(runs, at, k), host) == EmittedSubs(runs, at, k, host)
    decreases k
  {
    NoneBetween(runs, at, k);
    if k == 0 {
      SilentPools(runs, 0, Place(runs, at, 0), host);
    } else {
      EmittedSubsUpTo(runs, at, k - 1, host);
      SilentPools(runs, at[k - 1] + 1, Place(runs, at, k), host);
    }
  }

  ghost predicate HoldsWhole(r: PoolRun, host: string) {
    Whole(host) in r.out.Values
  }

  lemma HoldsWholeWhen(start: World, runs: seq<PoolRun>, k: nat, host: string)
    requires Effects(start, runs) && k < |runs| && host in start
    ensures var v, w := WorldAt(start, runs, k), WorldAt(start, runs, k + 1);
            && host in v && host in w && (v[host].fully ==> w[host].fully)
            && (HoldsWhole(runs[k], host) <==> !v[host].fully && w[host].fully)
  {
    RunGrows(start, runs, 0, k);
    assert StepEffect(runs[k]);
    if NewIn(runs[k].pre, runs[k].post, Whole(host)) {
      assert SlotName(Whole(host)) in runs[k].out;
    }
    if HoldsWhole(runs[k], host) {
      SlotIsNew(start, runs, k, Whole(host));
    }
  }

  lemma {:induction false} FullyMeansHeld(start: World, runs: seq<PoolRun>, k: nat, host: string)
    requires Effects(start, runs) && Fresh(start) && k <= |runs| && host in start
    ensures host in WorldAt(start, runs, k)
    ensures WorldAt(start, runs, k)[host].fully <==> exists j | 0 <= j < k :: HoldsWhole(runs[j], host)
  {
    if k > 0 {
      FullyMeansHeld(start, runs, k - 1, host);
      HoldsWholeWhen(start, runs, k - 1, host);
      var held := WorldAt(start, runs, k)[host].fully;
      assert held <==> WorldAt(start, runs, k - 1)[host].fully || HoldsWhole(runs[k - 1], host);
    }
  }

  /** A device is fully assigned at the end exactly when one pool, and only one, holds it whole. */
  lemma WholeDevicesConserved(node: Node, start: World, runs: seq<PoolRun>, host: string)
    requires Fresh(start) && ValidRun(node, start, runs) && host in start
    ensures host in WorldAt(start, runs, |runs|)
    ensures WorldAt(start, runs, |runs|)[host].fully
            <==> exists k | 0 <= k < |runs| :: HoldsWhole(runs[k], host)
    ensures forall j, k | 0 <= j < |runs| && 0 <= k < |runs| ::
              HoldsWhole(runs[j], host) && HoldsWhole(runs[k], host) ==> j == k
  {
    RunEffects(node, start, runs);
    FullyMeansHeld(start, runs, |runs|, host);
    forall j, k | 0 <= j < |runs| && 0 <= k < |runs| && HoldsWhole(runs[j], host) && HoldsWhole(runs[k], host)
      ensures j == k
    {
      if j < k { SlotsApart(start, runs, j, k); }
      if k < j { SlotsApart(start, runs, k, j); }
    }
  }

  // ---------- What Allocate may rely on ----------

  /** At the end of the run every slot of every pool is assigned, in the mode of its pool. */
  lemma SlotsReady(node: Node, start: World, runs: seq<PoolRun>, k: nat, n: string)
    requires Fresh(start) && ValidRun(node, start, runs) && k < |runs| && n in runs[k].out
    ensures var s, w := runs[k].out[n], WorldAt(start, runs, |runs|);
            && SlotName(s) == n && s.host in w
            && w[s.host].mode == runs[k].pool.mode
            && (s.Whole? ==> w[s.host].fully)
            && (s.Sub? ==> 1 <= s.num <= w[s.host].taken <= SECONDARY_MAX
                           && w[s.host].made && w[s.host].driver in CDQ_DRIVERS && n != s.host)
  {
    var s := runs[k].out[n];
    RunEffects(node, start, runs);
    assert StepEffect(runs[k]);
    assert s in runs[k].out.Values;
    SlotIsNew(start, runs, k, s);
    RunGrows(start, runs, k + 1, |runs|);
    WorldInv(start, runs, k + 1);
    WorldInv(start, runs, |runs|);
    assert PrimOk(WorldAt(start, runs, k + 1)[s.host]) && PrimOk(WorldAt(start, runs, |runs|)[s.host]);
    if s.Sub? {
      SfNameDiffers(s.host, s.num);
    }
  }

  lemma SlotMode(node: Node, start: World, runs: seq<PoolRun>, k: nat, n: string)
    requires Fresh(start) && ValidRun(node, start, runs) && k < |runs| && n in runs[k].out
    ensures runs[k].pool.mode == if runs[k].out[n].Whole? then Primary else Cdq
  {
    RunEffects(node, start, runs);
    assert runs[k].out[n] in runs[k].out.Values;
    SlotIsNew(start, runs, k, runs[k].out[n]);
  }

  // ---------- A sequence of cdq calls on one device ----------

  /** The device after a sequence of AssignCdqSecondaries calls. */
  function AfterCalls(p: Prim, limits: seq<int>): (r: Prim)
    requires p.taken <= SECONDARY_MAX
    ensures r.taken <= SECONDARY_MAX
  {
    if limits == [] then p
    else
      var q := AfterCalls(p, limits[..|limits| - 1]);
      match AsCdq(q, limits[|limits| - 1])
      case None => q
      case Some(r) => r
  }

  function Sum(limits: seq<int>): int {
    if limits == [] then 0 else Sum(limits[..|limits| - 1]) + limits[|limits| - 1]
  }

  /**
   Slicing refines a counter: any sequence of calls on a usable device hands out consecutive blocks, in total
   the sum of the limits up to 64, or all 64 as soon as one limit is zero or negative.
   */
  lemma {:induction false} CallsRefineCounter(p: Prim, limits: seq<int>)
    requires PrimOk(p) && p.driver in CDQ_DRIVERS && p.mode in {Unset, Cdq} && limits != []
    ensures var r := AfterCalls(p, limits);
            && r.mode == Cdq && r.made && PrimOk(r) && r.driver == p.driver
            && r.taken == if (forall k | 0 <= k < |limits| :: limits[k] > 0) && p.taken + Sum(limits) <= 64
                          then p.taken + Sum(limits) else 64
  {
    var front, last := limits[..|limits| - 1], limits[|limits| - 1];
    if front == [] {
      assert limits == [last];
      assert Sum(limits) == last;
      assert AfterCalls(p, front) == p;
    } else {
      CallsRefineCounter(p, front);
      assert (forall k | 0 <= k < |limits| :: limits[k] > 0)
             <==> last > 0 && forall k | 0 <= k < |front| :: front[k] > 0 by {
        assert forall k | 0 <= k < |front| :: front[k] == limits[k];
      }
    }
  }
}
