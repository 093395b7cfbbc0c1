// internal/networking/device.go: the device object and its assignment operations.

module Networking {
  import opened Options
  import opened Text
  import opened Constants
  import opened Tools
  import opened PoolModel
  import PoolRuns

  /** What the host answers while a subfunction is being activated; None and false stand for errors. */
  datatype ActivationHost = ActivationHost(
    present: Option<bool>, pci: Option<string>, pfnum: Option<string>, created: bool)

  datatype Activation =
    | IsAPrimary
    | NoCdqDriver
    | NotInCdqMode
    | AlreadyExists
    | HostError
    | Created(pci: string, pfnum: string, sfnum: string)
  {
    predicate Failed() { !AlreadyExists? && !Created? }
  }

  class Device {
    const name: string
    const primary: Device
    var mode: Mode
    var driver: string
    var fullyAssigned: bool
    var secondaries: seq<Device>
    ghost var taken: nat

    /** The assignment state as the pool specification sees it. */
    ghost function View(): Prim
      reads this
    {
      Prim(mode, fullyAssigned, driver, secondaries != [], taken)
    }

    ghost predicate SecondaryOk(i: nat)
      requires i < |secondaries|
      reads this, secondaries
    {
      var sf := secondaries[i];
      && sf != this && sf.primary == this
      && sf.name == SfName(name, i + 1)
      && sf.mode == Cdq && sf.driver == driver
      && (sf.fullyAssigned <==> i < taken)
    }

    /** A host device with either no subfunctions or all 64, of which a prefix is assigned. */
    ghost predicate Valid()
      reads this, secondaries
    {
      && primary == this
      && PrimOk(View())
      && |secondaries| == (if mode == Cdq then SECONDARY_MAX else 0)
      && (forall i | 0 <= i < |secondaries| :: SecondaryOk(i))
    }

    /** The struct literal of newPrimaryDevice. */
    constructor NewPrimary(name: string, driver: string)
      ensures this.name == name && View() == Prim(Unset, false, driver, false, 0)
      ensures Valid()
    {
      this.name := name;
      this.driver := driver;
      this.mode := Unset;
      this.fullyAssigned := false;
      this.primary := this;
      this.secondaries := [];
      this.taken := 0;
    }

    /** The struct literal of newSecondaryDevice. */
    constructor NewSecondary(name: string, primary: Device, driver: string)
      ensures this.name == name && this.primary == primary
      ensures mode == primary.mode && this.driver == driver && !fullyAssigned && secondaries == []
    {
      this.name := name;
      this.primary := primary;
      this.mode := primary.mode;
      this.driver := driver;
      this.fullyAssigned := false;
      this.secondaries := [];
      this.taken := 0;
    }

    /**
     The driver, looked up and cached while it is not known. None is a lookup error.
     The lookup's answer is arbitrary.
     */
    method Driver() returns (r: Option<string>)
      modifies this`driver
      ensures old(driver) != "" ==> driver == old(driver) && r == Some(driver)
      ensures r == Some(driver) || (r == None && driver == "")
    {
      if driver != "" {
        return Some(driver);
      }
      var answer: Option<string> := *;
      match answer {
        case None => r := None;
        case Some(found) =>
          driver := found;
          r := Some(driver);
      }
    }

    /** Driver() as the driver scan uses it on a host device: an error counts as the empty driver. */
    method DriverOrEmpty() returns (r: string)
      requires Valid()
      modifies this`driver
      ensures Valid() && View() == old(View()).(driver := r)
      ensures old(driver) != "" ==> r == old(driver)
    {
      var answer := Driver();
      r := match answer case None => "" case Some(d) => d;
      forall i | 0 <= i < |secondaries| ensures SecondaryOk(i) {
        assert old(SecondaryOk(i));
      }
    }

    method AssignAsPrimary() returns (dev: Device?)
      requires Valid()
      modifies this`mode, this`fullyAssigned
      ensures Valid()
      ensures match AsPrimary(old(View()))
              case None => dev == null && View() == old(View())
              case Some(p) => dev == this && View() == p
      ensures if old(mode) == Unset || old(mode) == Primary then dev == this && mode == Primary && fullyAssigned
              else dev == null && mode == old(mode) && fullyAssigned == old(fullyAssigned)
    {
      if mode == Unset || mode == Primary {
        fullyAssigned := true;
        mode := Primary;
      } else {
        return null;
      }
      dev := this;
    }

    /** newPrimaryDevice: null is an error. `handled` says whether there is a network handler. */
    static method NewPrimaryDevice(name: string, driver: string, handled: bool) returns (dev: Device?)
      ensures dev == null <==> name == "" || !handled
      ensures dev != null ==> fresh(dev) && dev.name == name && dev.View() == Prim(Unset, false, driver, false, 0)
      ensures dev != null ==> dev.Valid()
    {
      if name == "" {
        return null;
      }
      if !handled {
        return null;
      }
      dev := new Device.NewPrimary(name, driver);
    }

    /** newSecondaryDevice: null is an error. */
    static method NewSecondaryDevice(name: string, primary: Device) returns (dev: Device?)
      modifies primary`driver
      ensures old(primary.driver) != "" ==> primary.driver == old(primary.driver)
      ensures name == "" ==> dev == null && primary.driver == old(primary.driver)
      ensures name != "" && old(primary.driver) != "" ==> dev != null
      ensures dev != null ==> fresh(dev) && dev.name == name && dev.primary == primary
      ensures dev != null ==> dev.mode == primary.mode && dev.driver == primary.driver && !dev.fullyAssigned
    {
      if name == "" {
        return null;
      }
      var driver := primary.Driver();
      if driver.None? {
        return null;
      }
      dev := new Device.NewSecondary(name, primary, driver.value);
    }

    /** Creates the 64 subfunctions of a device that has none. */
    method CreateSecondaries()
      requires secondaries == [] && driver != "" && mode == Cdq && taken == 0
      modifies this`driver, this`secondaries
      ensures driver == old(driver)
      ensures |secondaries| == SECONDARY_MAX
      ensures forall k | 0 <= k < |secondaries| :: fresh(secondaries[k]) && SecondaryOk(k)
    {
      for i := 1 to SECONDARY_MAX + 1
        invariant driver == old(driver)
        invariant |secondaries| == i - 1
        invariant forall k | 0 <= k < |secondaries| :: fresh(secondaries[k]) && SecondaryOk(k)
      {
        var newSF := NewSecondaryDevice(name + "sf" + Itoa(i), this);
        if newSF == null {
          continue;
        }
        secondaries := secondaries + [newSF];
      }
    }

    /** The assigning loop: the next unassigned subfunctions, at most `limit` of them if that is positive. */
    method TakeUnassigned(limit: int) returns (subFunctions: seq<Device>)
      requires |secondaries| == SECONDARY_MAX && taken <= SECONDARY_MAX
      requires forall k | 0 <= k < |secondaries| :: SecondaryOk(k)
      modifies this`taken, secondaries`fullyAssigned
      ensures forall k | 0 <= k < |secondaries| :: SecondaryOk(k)
      ensures taken == old(taken) + (if 0 < limit < SECONDARY_MAX - old(taken) then limit
                                     else SECONDARY_MAX - old(taken))
      ensures subFunctions == secondaries[old(taken)..taken]
      ensures fullyAssigned == old(fullyAssigned)
    {
      subFunctions := [];
      var counting := limit > 0;
      var deviceCount := 0;
      ghost var first := taken;
      for i := 0 to |secondaries|
        invariant forall k | 0 <= k < |secondaries| :: SecondaryOk(k)
        invariant fullyAssigned == old(fullyAssigned)
        invariant taken == if i <= first then first else i
        invariant subFunctions == secondaries[first..taken]
        invariant counting ==> deviceCount == taken - first && deviceCount < limit
      {
        var sf := secondaries[i];
        assert SecondaryOk(i);
        label before:
        if !sf.fullyAssigned {
          assert taken == i;
          assert secondaries[first..i] + [sf] == secondaries[first..i + 1];
          subFunctions := subFunctions + [sf];
          sf.fullyAssigned := true;
          taken := taken + 1;
          if counting {
            deviceCount := deviceCount + 1;
          }
          forall k | 0 <= k < |secondaries| ensures SecondaryOk(k) {
            assert old@before(SecondaryOk(k));
            if secondaries[k].name == sf.name {
              SfNameInjective(name, k + 1, name, i + 1);
            }
          }
        }
        if counting && deviceCount >= limit {
          break;
        }
      }
    }

    /** None is an error; otherwise the newly assigned subfunctions, in order. */
    method AssignCdqSecondaries(limit: int) returns (sfs: Option<seq<Device>>)
      requires Valid()
      modifies this, secondaries
      ensures Valid()
      ensures match AsCdq(old(View()), limit)
              case None => sfs == None && View() == old(View()) && secondaries == old(secondaries)
              case Some(p) => View() == p && p.taken <= |secondaries| && sfs == Some(secondaries[old(taken)..p.taken])
      ensures sfs.Some? <==> driver in CDQ_DRIVERS && (old(mode) == Unset || old(mode) == Cdq)
      ensures sfs.Some? ==>
                && mode == Cdq && |secondaries| == SECONDARY_MAX && old(taken) <= taken <= |secondaries|
                && sfs.value == secondaries[old(taken)..taken]
                && |sfs.value| == (if limit > 0 && limit < SECONDARY_MAX - old(taken) then limit
                                   else SECONDARY_MAX - old(taken))
                && forall k | 0 <= k < |secondaries| :: secondaries[k].fullyAssigned <==> k < taken
      ensures sfs.None? ==> mode == old(mode) && taken == old(taken) && secondaries == old(secondaries)
      ensures old(secondaries) == [] || secondaries == old(secondaries)
      ensures old(secondaries) == [] ==> forall k | 0 <= k < |secondaries| :: fresh(secondaries[k])
    {
      var compatible := ArrayContains(CDQ_DRIVERS, driver);
      if !compatible {
        return None;
      }
      if mode == Unset || mode == Cdq {
        mode := Cdq;
      } else {
        return None;
      }
      if secondaries == [] {
        CreateSecondaries();
      }
      var subFunctions := TakeUnassigned(limit);
      forall k | 0 <= k < |secondaries| ensures secondaries[k].fullyAssigned <==> k < taken {
        assert SecondaryOk(k);
      }
      return Some(subFunctions);
    }

    method UnassignedSecondaries() returns (count: nat)
      requires Valid()
      ensures count == PoolRuns.Unassigned(View())
    {
      count := 0;
      for i := 0 to |secondaries|
        invariant count == if i <= taken then 0 else i - taken
      {
        assert SecondaryOk(i);
        if !secondaries[i].fullyAssigned {
          count := count + 1;
        }
      }
    }

    predicate IsPrimary() { name == primary.name }

    /** Turns a subfunction object into a subfunction on the host. */
    method ActivateCdqSubfunction(host: ActivationHost) returns (r: Activation)
      requires IsPrimary() || Contains(name, "sf")
      ensures r.IsAPrimary? <==> IsPrimary()
      ensures r.NoCdqDriver? <==> !IsPrimary() && driver !in CDQ_DRIVERS
      ensures r.NotInCdqMode? <==> !IsPrimary() && driver in CDQ_DRIVERS && mode != Cdq
      ensures r.AlreadyExists? <==>
                !IsPrimary() && driver in CDQ_DRIVERS && mode == Cdq && host.present == Some(true)
      ensures r.Created? ==> host.created && host.pci == Some(r.pci) && host.pfnum == Some(r.pfnum)
      ensures r.Created? && !Contains(primary.name, "sf") ==>
                forall i: nat | 1 <= i <= SECONDARY_MAX && name == SfName(primary.name, i) :: r.sfnum == Digits(i)
      ensures !IsPrimary() && driver in CDQ_DRIVERS && mode == Cdq ==>
                (r.Failed() <==> host.present != Some(true) && (host.pci.None? || host.pfnum.None? || !host.created))
    {
      if IsPrimary() {
        return IsAPrimary;
      }
      var compatible := ArrayContains(CDQ_DRIVERS, driver);
      if !compatible {
        return NoCdqDriver;
      }
      if mode != Cdq {
        return NotInCdqMode;
      }
      var already := match host.present case None => false case Some(b) => b;
      if already {
        return AlreadyExists;
      }
      if host.pci.None? || host.pfnum.None? {
        return HostError;
      }
      var sfNum := SfNumber(name);
      if !host.created {
        return HostError;
      }
      SfNumberExact(primary.name);
      r := Created(host.pci.value, host.pfnum.value, sfNum.value);
    }
  }
}
