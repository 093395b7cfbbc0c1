// Which pods a server accepts: the length and membership test of validatePod against the
// device list that the kubelet reports, for the devices an allocation registered.

module Admission {
  import opened Handshake
  import PoolRuns

  predicate NoDuplicates(ids: seq<string>) {
    forall i, j | 0 <= i < j < |ids| :: ids[i] != ids[j]
  }

  function Elements(ids: seq<string>): set<string> { set n | n in ids }

  // ---------- Whose ids count ----------

  lemma {:induction false} IdsAppend(a: seq<DeviceList>, b: seq<DeviceList>, resource: string)
    ensures IdsFor(a + b, resource) == IdsFor(a, resource) + IdsFor(b, resource)
    decreases |b|
  {
    if b == [] {
      assert a + b == a;
    } else {
      assert (a + b)[..|a + b| - 1] == a + b[..|b| - 1];
      IdsAppend(a, b[..|b| - 1], resource);
    }
  }

  /** The ids of a list count exactly if the list is for the resource. */
  lemma IdsOfOne(list: DeviceList, resource: string)
    ensures IdsFor([list], resource) == if list.resource == resource then list.ids else []
  {
    assert [list][..0] == [];
  }

  lemma {:induction false} IdsContents(container: seq<DeviceList>, resource: string)
    ensures forall n :: n in IdsFor(container, resource)
              <==> exists k | 0 <= k < |container| :: container[k].resource == resource && n in container[k].ids
  {
    if container != [] {
      var front, last := container[..|container| - 1], container[|container| - 1];
      IdsContents(front, resource);
      assert container == front + [last];
      forall n
        ensures n in IdsFor(container, resource)
                <==> exists k | 0 <= k < |container| :: container[k].resource == resource && n in container[k].ids
      {
        if n in IdsFor(front, resource) {
          var k :| 0 <= k < |front| && front[k].resource == resource && n in front[k].ids;
          assert container[k] == front[k];
        }
        if k :| 0 <= k < |container| && container[k].resource == resource && n in container[k].ids {
          assert k < |front| ==> front[k] == container[k];
        }
      }
    }
  }

  /** The lists of a container that are for the resource. */
  function OwnLists(container: seq<DeviceList>, resource: string): seq<DeviceList> {
    if container == [] then []
    else (if container[0].resource == resource then [container[0]] else []) + OwnLists(container[1..], resource)
  }

  lemma {:induction false} OwnListsCount(container: seq<DeviceList>, resource: string)
    ensures IdsFor(container, resource) == IdsFor(OwnLists(container, resource), resource)
    ensures forall list :: list in OwnLists(container, resource) <==> list in container && list.resource == resource
  {
    if container != [] {
      var first, rest := container[0], container[1..];
      OwnListsCount(rest, resource);
      IdsAppend([first], rest, resource);
      IdsOfOne(first, resource);
      assert container == [first] + rest;
      var own := if first.resource == resource then [first] else [];
      IdsAppend(own, OwnLists(rest, resource), resource);
      assert IdsFor(own, resource) == IdsFor([first], resource);
    }
  }

  /** Adding or removing a list of another resource anywhere in a container does not change its own lists. */
  lemma {:induction false} OwnListsSkipOthers(a: seq<DeviceList>, other: DeviceList, b: seq<DeviceList>,
                                              resource: string)
    requires other.resource != resource
    ensures OwnLists(a + [other] + b, resource) == OwnLists(a + b, resource)
  {
    if a == [] {
      assert a + [other] + b == [other] + b && a + b == b;
    } else {
      assert (a + [other] + b)[1..] == a[1..] + [other] + b && (a + b)[1..] == a[1..] + b;
      OwnListsSkipOthers(a[1..], other, b, resource);
    }
  }

  /** The verdict on a pod depends on nothing but the server's own lists, container by container. */
  lemma OtherResourcesIgnored(pod: Pod, pod': Pod, resource: string, known: set<string>)
    requires |pod.containers| == |pod'.containers|
    requires forall c | 0 <= c < |pod.containers| ::
               OwnLists(pod.containers[c], resource) == OwnLists(pod'.containers[c], resource)
    ensures Accepts(pod, resource, known) <==> Accepts(pod', resource, known)
  {
    forall c | 0 <= c < |pod.containers|
      ensures IdsFor(pod.containers[c], resource) == IdsFor(pod'.containers[c], resource)
    {
      OwnListsCount(pod.containers[c], resource);
      OwnListsCount(pod'.containers[c], resource);
    }
  }

  lemma NothingIn(ids: seq<string>)
    ensures ids == [] <==> forall n :: n !in ids
  {
    if ids != [] {
      assert ids[0] in ids;
    }
  }

  /** A container without a list for the resource has no ids, and a pod of such containers is never accepted. */
  lemma NoListNoAdmission(pod: Pod, resource: string, known: set<string>)
    requires forall c, list | 0 <= c < |pod.containers| && list in pod.containers[c] :: list.resource != resource
    ensures !Accepts(pod, resource, known)
  {
    forall c | 0 <= c < |pod.containers| ensures IdsFor(pod.containers[c], resource) == [] {
      IdsContents(pod.containers[c], resource);
      NothingIn(IdsFor(pod.containers[c], resource));
    }
  }

  /** For duplicate-free lists the test is equality of sets: a pigeonhole argument. */
  lemma MatchesExactly(ids: seq<string>, known: set<string>)
    requires NoDuplicates(ids)
    ensures Matches(ids, known) <==> ids != [] && Elements(ids) == known
  {
    PoolRuns.DistinctCard(ids);
    assert Elements(ids) == set n | n in ids;
    if Matches(ids, known) {
      PoolRuns.SubsetCard(Elements(ids), known);
    }
    if Elements(ids) == known {
      assert forall k | 0 <= k < |ids| :: ids[k] in Elements(ids);
    }
  }

  lemma {:induction false} Multiplicity(ids: seq<string>, n: string)
    ensures multiset(ids)[n] > 0 <==> n in ids
    ensures NoDuplicates(ids) ==> multiset(ids)[n] <= 1
    ensures (forall m :: multiset(ids)[m] <= 1) ==> NoDuplicates(ids)
  {
    if ids != [] {
      var init, last := ids[..|ids| - 1], ids[|ids| - 1];
      Multiplicity(init, n);
      Multiplicity(init, last);
      assert ids == init + [last];
      assert multiset(ids) == multiset(init) + multiset{last};
      if forall m :: multiset(ids)[m] <= 1 {
        assert forall m :: multiset(init)[m] <= multiset(ids)[m];
        assert multiset(ids)[last] <= 1;
        assert last !in init;
      }
    }
  }

  lemma SameElementsSameMultiset(a: seq<string>, b: seq<string>)
    requires NoDuplicates(a) && NoDuplicates(b)
    ensures Elements(a) == Elements(b) <==> multiset(a) == multiset(b)
  {
    forall n
      ensures n in Elements(a) <==> multiset(a)[n] == 1
      ensures n in Elements(b) <==> multiset(b)[n] == 1
      ensures multiset(a)[n] <= 1 && multiset(b)[n] <= 1
    {
      Multiplicity(a, n);
      Multiplicity(b, n);
    }
    if Elements(a) == Elements(b) {
      forall n ensures multiset(a)[n] == multiset(b)[n] {
        assert n in Elements(a) <==> n in Elements(b);
      }
    } else {
      var n :| n in Elements(a) <==> n !in Elements(b);
    }
  }

  /**
   A pod whose containers list no device twice is accepted exactly if one container's list for the resource is a
   permutation of the devices that were registered.
   */
  lemma AcceptsPermutation(pod: Pod, resource: string, ids: seq<string>)
    requires ids != [] && NoDuplicates(ids)
    requires forall c | 0 <= c < |pod.containers| :: NoDuplicates(IdsFor(pod.containers[c], resource))
    ensures Accepts(pod, resource, Elements(ids))
            <==> exists c | 0 <= c < |pod.containers| :: multiset(IdsFor(pod.containers[c], resource)) == multiset(ids)
  {
    forall c | 0 <= c < |pod.containers|
      ensures Matches(IdsFor(pod.containers[c], resource), Elements(ids))
              <==> multiset(IdsFor(pod.containers[c], resource)) == multiset(ids)
    {
      var list := IdsFor(pod.containers[c], resource);
      MatchesExactly(list, Elements(ids));
      SameElementsSameMultiset(list, ids);
      assert |multiset(list)| == |list| && |multiset(ids)| == |ids|;
    }
  }

  /** With repetitions the test accepts more: an accepted list is a permutation exactly if nothing repeats in it. */
  lemma AcceptedListIsPermutationIff(list: seq<string>, ids: seq<string>)
    requires NoDuplicates(ids) && Matches(list, Elements(ids))
    ensures multiset(list) == multiset(ids) <==> NoDuplicates(list)
  {
    if NoDuplicates(list) {
      MatchesExactly(list, Elements(ids));
      SameElementsSameMultiset(list, ids);
    } else if multiset(list) == multiset(ids) {
      forall n ensures multiset(list)[n] <= 1 {
        Multiplicity(ids, n);
      }
      Multiplicity(list, "");
    }
  }

  lemma RepeatedDeviceIsAccepted(resource: string, a: string, b: string)
    requires a != b
    ensures Accepts(Pod([[DeviceList(resource, [a, a])]]), resource, Elements([a, b]))
    ensures multiset([a, a]) != multiset([a, b])
  {
    var container := [DeviceList(resource, [a, a])];
    var pod := Pod([container]);
    assert container[..0] == [];
    assert IdsFor(container, resource) == [a, a];
    assert Elements([a, b]) == {a, b};
    assert Matches(IdsFor(pod.containers[0], resource), Elements([a, b]));
    assert multiset([a, a])[b] == 0 && multiset([a, b])[b] == 1;
  }

  function Flat(requests: seq<seq<string>>): seq<string> {
    if requests == [] then [] else requests[0] + Flat(requests[1..])
  }

  lemma {:induction false} FlatLength(requests: seq<seq<string>>, c: nat)
    requires c < |requests|
    ensures |Flat(requests)| >= |requests[c]| && forall n | n in requests[c] :: n in Flat(requests)
    ensures |Flat(requests)| == |requests[c]| <==> forall b | 0 <= b < |requests| && b != c :: requests[b] == []
    decreases |requests|
  {
    var rest := requests[1..];
    if c > 0 {
      FlatLength(rest, c - 1);
      assert forall b | 1 <= b < |requests| :: requests[b] == rest[b - 1];
    } else if rest != [] {
      FlatLength(rest, 0);
      assert forall b | 1 <= b < |requests| :: requests[b] == rest[b - 1];
    }
  }

  /**
   One server serves all containers of a request, but validatePod compares its devices with one container at a time:
   a pod with exactly the requested devices is accepted only if a single container requested all of them.
   */
  lemma AcceptsOneContainerOnly(pod: Pod, resource: string, requests: seq<seq<string>>)
    requires |pod.containers| == |requests| && NoDuplicates(Flat(requests))
    requires forall c | 0 <= c < |requests| :: IdsFor(pod.containers[c], resource) == requests[c]
    ensures Accepts(pod, resource, Elements(Flat(requests)))
            <==> exists c | 0 <= c < |requests| ::
                   requests[c] != [] && forall b | 0 <= b < |requests| && b != c :: requests[b] == []
  {
    PoolRuns.DistinctCard(Flat(requests));
    assert Elements(Flat(requests)) == set n | n in Flat(requests);
    forall c | 0 <= c < |requests|
      ensures Matches(IdsFor(pod.containers[c], resource), Elements(Flat(requests)))
              <==> requests[c] != [] && forall b | 0 <= b < |requests| && b != c :: requests[b] == []
    {
      FlatLength(requests, c);
    }
  }
}
