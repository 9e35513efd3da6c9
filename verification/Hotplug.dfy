/**
 Host device reconciliation of emu/qemu/astra-input-hotplug.py: which host input devices the
 emulator should hold (discover), and the commands that bring it there (reconcile), any of
 which the emulator may reject without executing it.

 What stat reports about a path is a parameter.  A glob is the list of the paths it matched,
 in the order sorted() puts them.
 */
module Hotplug {
  import opened Prelude

  /** A character device as identity() describes it; `number` is st_rdev, `rest` the others. */
  datatype Device = Device(path: string, number: nat, rest: nat)

  /** A path a glob matched, and the device found there if it is one. */
  datatype Probe = Probe(path: string, found: Option<Device>)

  datatype Role = Keyboard | Pointer | Gamepad(slot: nat)

  type Devices = map<Role, Device>

  const GAMEPAD_LIMIT: nat := 4

  datatype Host = Host(keyboards: seq<Probe>, pointers: seq<Probe>, joysticks: seq<Probe>)

  ghost predicate Listing(probes: seq<Probe>) {
    && (forall i :: 0 <= i < |probes| && probes[i].found.Some? ==> probes[i].found.value.path == probes[i].path)
    && (forall i, j :: 0 <= i < j < |probes| ==> probes[i].path != probes[j].path)
  }

  // ----- discover, as a function -----------------------------------------------------------

  function FirstFound(probes: seq<Probe>): Option<Device> {
    if probes == [] then None
    else if probes[0].found.Some? then probes[0].found
    else FirstFound(probes[1..])
  }

  /** The devices of a listing, leaving out any whose number an earlier one has. */
  function Candidates(probes: seq<Probe>, seen: set<nat>): seq<Device> {
    if probes == [] then []
    else if probes[0].found.Some? && probes[0].found.value.number !in seen then
      [probes[0].found.value] + Candidates(probes[1..], seen + {probes[0].found.value.number})
    else Candidates(probes[1..], seen)
  }

  /** Position of the first candidate with this path, or the number of candidates. */
  function Find(candidates: seq<Device>, path: string): (index: nat)
    ensures index <= |candidates|
    ensures index < |candidates| ==> candidates[index].path == path
    ensures forall j :: 0 <= j < index ==> candidates[j].path != path
  {
    if candidates == [] then 0
    else if candidates[0].path == path then 0
    else 1 + Find(candidates[1..], path)
  }

  function Without(candidates: seq<Device>, index: nat): (rest: seq<Device>)
    requires index < |candidates|
    ensures |rest| == |candidates| - 1
  {
    candidates[..index] + candidates[index + 1..]
  }

  datatype Allocation = Allocation(devices: Devices, rest: seq<Device>)

  /** One slot keeps the path it already has, if it is still a candidate. */
  function Retake(slot: nat, candidates: seq<Device>, attached: Devices, devices: Devices): Allocation {
    if Gamepad(slot) in attached && Find(candidates, attached[Gamepad(slot)].path) < |candidates| then
      var index := Find(candidates, attached[Gamepad(slot)].path);
      Allocation(devices[Gamepad(slot) := candidates[index]], Without(candidates, index))
    else Allocation(devices, candidates)
  }

  /** So do all slots from `slot` on. */
  function Keep(slot: nat, candidates: seq<Device>, attached: Devices, devices: Devices): Allocation
    decreases GAMEPAD_LIMIT - slot
  {
    if slot >= GAMEPAD_LIMIT then Allocation(devices, candidates)
    else
      var taken := Retake(slot, candidates, attached, devices);
      Keep(slot + 1, taken.rest, attached, taken.devices)
  }

  /** The lowest gamepad slot from `slot` on with no device, or the limit. */
  function FreeSlot(slot: nat, devices: Devices): (free: nat)
    requires slot <= GAMEPAD_LIMIT
    ensures slot <= free <= GAMEPAD_LIMIT
    ensures free < GAMEPAD_LIMIT ==> Gamepad(free) !in devices
    ensures forall s :: slot <= s < free ==> Gamepad(s) in devices
    decreases GAMEPAD_LIMIT - slot
  {
    if slot == GAMEPAD_LIMIT || Gamepad(slot) !in devices then slot else FreeSlot(slot + 1, devices)
  }

  /** The remaining candidates take the free slots in order, until there are none. */
  function Fill(items: seq<Device>, devices: Devices): Allocation {
    if items == [] then Allocation(devices, [])
    else
      var free := FreeSlot(0, devices);
      if free == GAMEPAD_LIMIT then Allocation(devices, items)
      else Fill(items[1..], devices[Gamepad(free) := items[0]])
  }

  function Singles(host: Host): Devices {
    (match FirstFound(host.keyboards) case Some(d) => map[Keyboard := d] case None => map[])
    + (match FirstFound(host.pointers) case Some(d) => map[Pointer := d] case None => map[])
  }

  function Allocated(host: Host, attached: Devices): Allocation {
    var kept := Keep(0, Candidates(host.joysticks, {}), attached, Singles(host));
    Fill(kept.rest, kept.devices)
  }

  function Discovered(host: Host, attached: Devices): Devices {
    Allocated(host, attached).devices
  }

  // ----- the candidates --------------------------------------------------------------------

  /** This listed device is the first of the listing with its number. */
  ghost predicate Leads(probes: seq<Probe>, i: nat) {
    && i < |probes| && probes[i].found.Some?
    && forall j :: 0 <= j < i && probes[j].found.Some? ==>
         probes[j].found.value.number != probes[i].found.value.number
  }

  lemma {:induction false} CandidateIsLeader(probes: seq<Probe>, seen: set<nat>, d: Device)
    ensures d in Candidates(probes, seen) <==>
              exists i: nat :: Leads(probes, i) && probes[i].found.value == d && d.number !in seen
  {
    if probes != [] {
      var rest := probes[1..];
      var first := probes[0].found;
      var takes := first.Some? && first.value.number !in seen;
      var seen' := if takes then seen + {first.value.number} else seen;
      CandidateIsLeader(rest, seen', d);
      if i: nat :| Leads(rest, i) && rest[i].found.value == d && d.number !in seen' {
        assert Leads(probes, i + 1);
      }
      if i: nat :| Leads(probes, i) && probes[i].found.value == d && d.number !in seen {
        if i > 0 {
          assert Leads(rest, i - 1);
        }
      }
    }
  }

  ghost predicate DistinctDevices(devices: seq<Device>) {
    forall i, j :: 0 <= i < j < |devices| ==>
      devices[i].number != devices[j].number && devices[i].path != devices[j].path
  }

  lemma {:induction false} CandidatesDistinct(probes: seq<Probe>, seen: set<nat>)
    requires Listing(probes)
    ensures DistinctDevices(Candidates(probes, seen))
    ensures forall d :: d in Candidates(probes, seen) ==>
              d.number !in seen && exists i :: 0 <= i < |probes| && probes[i].path == d.path
  {
    if probes != [] {
      var first := probes[0].found;
      var seen' := if first.Some? && first.value.number !in seen then seen + {first.value.number} else seen;
      CandidatesDistinct(probes[1..], seen');
      var rest := Candidates(probes[1..], seen');
      forall d | d in rest
        ensures (exists i :: 0 <= i < |probes| && probes[i].path == d.path) && d.path != probes[0].path
      {
        var i :| 0 <= i < |probes[1..]| && probes[1..][i].path == d.path;
        assert probes[i + 1].path == d.path;
      }
      assert forall i :: 0 <= i < |rest| ==> rest[i] in rest;
    }
  }

  // ----- the allocation --------------------------------------------------------------------

  /** Device `d` is on some gamepad slot. */
  ghost predicate OnSlot(devices: Devices, d: Device) {
    exists s: nat :: Gamepad(s) in devices && devices[Gamepad(s)] == d
  }

  /** Every candidate is on exactly one slot or still waiting, and nothing else is on a slot. */
  ghost predicate Shared(a: Allocation, all: seq<Device>) {
    && DistinctDevices(a.rest)
    && (forall d :: d in a.rest ==> d in all)
    && (forall s: nat :: Gamepad(s) in a.devices ==>
          s < GAMEPAD_LIMIT && a.devices[Gamepad(s)] in all && a.devices[Gamepad(s)] !in a.rest)
    && (forall s: nat, t: nat :: s < t && Gamepad(s) in a.devices && Gamepad(t) in a.devices ==>
          a.devices[Gamepad(s)] != a.devices[Gamepad(t)])
    && (forall d :: d in all ==> d in a.rest || OnSlot(a.devices, d))
  }

  /** Giving a waiting candidate a slot of its own keeps the sharing right. */
  lemma PlaceOne(a: Allocation, all: seq<Device>, slot: nat, index: nat)
    requires Shared(a, all) && slot < GAMEPAD_LIMIT && Gamepad(slot) !in a.devices && index < |a.rest|
    ensures Shared(Allocation(a.devices[Gamepad(slot) := a.rest[index]], Without(a.rest, index)), all)
  {
    var d := a.rest[index];
    var rest := Without(a.rest, index);
    var devices := a.devices[Gamepad(slot) := d];
    assert d in a.rest;
    forall x | x in rest ensures x in a.rest && x != d {
      var i :| 0 <= i < |rest| && rest[i] == x;
      assert x == a.rest[if i < index then i else i + 1];
    }
    forall x | x in all ensures x in rest || OnSlot(devices, x) {
      if x in a.rest && x != d {
        var i :| 0 <= i < |a.rest| && a.rest[i] == x;
        assert x == rest[if i < index then i else i - 1];
      } else if x == d {
        assert devices[Gamepad(slot)] == x;
      } else {
        var s: nat :| Gamepad(s) in a.devices && a.devices[Gamepad(s)] == x;
        assert devices[Gamepad(s)] == x;
      }
    }
  }

  lemma {:induction false} KeepShared(slot: nat, candidates: seq<Device>, attached: Devices, devices: Devices,
                                      all: seq<Device>)
    requires Shared(Allocation(devices, candidates), all)
    requires forall s: nat :: slot <= s ==> Gamepad(s) !in devices
    ensures Shared(Keep(slot, candidates, attached, devices), all)
    decreases GAMEPAD_LIMIT - slot
  {
    if slot < GAMEPAD_LIMIT {
      if Gamepad(slot) in attached && Find(candidates, attached[Gamepad(slot)].path) < |candidates| {
        var index := Find(candidates, attached[Gamepad(slot)].path);
        PlaceOne(Allocation(devices, candidates), all, slot, index);
        KeepShared(slot + 1, Without(candidates, index), attached, devices[Gamepad(slot) := candidates[index]], all);
      } else {
        KeepShared(slot + 1, candidates, attached, devices, all);
      }
    }
  }

  lemma {:induction false} FillShared(items: seq<Device>, devices: Devices, all: seq<Device>)
    requires Shared(Allocation(devices, items), all)
    ensures Shared(Fill(items, devices), all)
    ensures Fill(items, devices).rest == [] || FreeSlot(0, Fill(items, devices).devices) == GAMEPAD_LIMIT
    ensures forall role :: role in devices ==>
              role in Fill(items, devices).devices && Fill(items, devices).devices[role] == devices[role]
    ensures forall role :: role in Fill(items, devices).devices && !role.Gamepad? ==> role in devices
  {
    if items != [] {
      var free := FreeSlot(0, devices);
      if free < GAMEPAD_LIMIT {
        PlaceOne(Allocation(devices, items), all, free, 0);
        assert Without(items, 0) == items[1..];
        FillShared(items[1..], devices[Gamepad(free) := items[0]], all);
      }
    }
  }

  lemma AllocatedShared(host: Host, attached: Devices)
    requires Listing(host.joysticks)
    ensures Shared(Allocated(host, attached), Candidates(host.joysticks, {}))
    ensures Allocated(host, attached).rest == [] || FreeSlot(0, Discovered(host, attached)) == GAMEPAD_LIMIT
  {
    var all := Candidates(host.joysticks, {});
    CandidatesDistinct(host.joysticks, {});
    KeepShared(0, all, attached, Singles(host), all);
    var kept := Keep(0, all, attached, Singles(host));
    FillShared(kept.rest, kept.devices, all);
  }

  /** No device number is given two gamepad slots. */
  lemma NumbersNotShared(host: Host, attached: Devices, s: nat, t: nat)
    requires Listing(host.joysticks) && s != t
    requires Gamepad(s) in Discovered(host, attached) && Gamepad(t) in Discovered(host, attached)
    ensures Discovered(host, attached)[Gamepad(s)].number != Discovered(host, attached)[Gamepad(t)].number
    ensures s < GAMEPAD_LIMIT && t < GAMEPAD_LIMIT
  {
    AllocatedShared(host, attached);
    CandidatesDistinct(host.joysticks, {});
    var all := Candidates(host.joysticks, {});
    var D := Discovered(host, attached);
    var i :| 0 <= i < |all| && all[i] == D[Gamepad(s)];
    var j :| 0 <= j < |all| && all[j] == D[Gamepad(t)];
    assert i != j;
  }

  // ----- stable slots ----------------------------------------------------------------------

  lemma FindUnique(candidates: seq<Device>, d: Device)
    requires DistinctDevices(candidates) && d in candidates
    ensures Find(candidates, d.path) < |candidates| && candidates[Find(candidates, d.path)] == d
  {
    var i :| 0 <= i < |candidates| && candidates[i] == d;
    var j := Find(candidates, d.path);
  }

  /** The two agree on the gamepad slots below this one. */
  ghost predicate PadsAgree(a: Devices, b: Devices, below: nat) {
    forall s: nat :: s < below ==>
      (Gamepad(s) in a <==> Gamepad(s) in b) && (Gamepad(s) in a ==> a[Gamepad(s)] == b[Gamepad(s)])
  }

  /** A settled device whose slot's turn has come is still waiting. */
  lemma SettledWaits(slot: nat, candidates: seq<Device>, devices: Devices, all: seq<Device>, settled: Allocation)
    requires Shared(settled, all) && Shared(Allocation(devices, candidates), all)
    requires Gamepad(slot) in settled.devices && PadsAgree(devices, settled.devices, slot)
    requires forall s: nat :: slot <= s ==> Gamepad(s) !in devices
    ensures var d := settled.devices[Gamepad(slot)];
            Find(candidates, d.path) < |candidates| && candidates[Find(candidates, d.path)] == d
  {
    var d := settled.devices[Gamepad(slot)];
    assert forall s: nat :: Gamepad(s) in devices ==> s < slot && devices[Gamepad(s)] != d;
    assert d in all && d in candidates;
    FindUnique(candidates, d);
  }

  /** The turn of one slot that is already allocated. */
  lemma RetakenAgain(slot: nat, candidates: seq<Device>, devices: Devices, all: seq<Device>, settled: Allocation)
    requires slot < GAMEPAD_LIMIT && Shared(settled, all) && Shared(Allocation(devices, candidates), all)
    requires forall s: nat :: slot <= s ==> Gamepad(s) !in devices
    requires PadsAgree(devices, settled.devices, slot)
    ensures var taken := Retake(slot, candidates, settled.devices, devices);
            && Shared(taken, all) && PadsAgree(taken.devices, settled.devices, slot + 1)
            && forall s: nat :: slot < s ==> Gamepad(s) !in taken.devices
  {
    if Gamepad(slot) in settled.devices {
      SettledWaits(slot, candidates, devices, all, settled);
      PlaceOne(Allocation(devices, candidates), all, slot, Find(candidates, settled.devices[Gamepad(slot)].path));
    }
  }

  /** Keeping slots that are already allocated changes none of them. */
  lemma {:induction false} KeepAgain(
    slot: nat, candidates: seq<Device>, devices: Devices, all: seq<Device>, settled: Allocation)
    requires slot <= GAMEPAD_LIMIT && Shared(settled, all) && Shared(Allocation(devices, candidates), all)
    requires forall s: nat :: slot <= s ==> Gamepad(s) !in devices
    requires PadsAgree(devices, settled.devices, slot)
    ensures PadsAgree(Keep(slot, candidates, settled.devices, devices).devices, settled.devices, GAMEPAD_LIMIT)
    decreases GAMEPAD_LIMIT - slot
  {
    if slot < GAMEPAD_LIMIT {
      var taken := Retake(slot, candidates, settled.devices, devices);
      RetakenAgain(slot, candidates, devices, all, settled);
      KeepAgain(slot + 1, taken.rest, taken.devices, all, settled);
    }
  }

  ghost predicate SameSingles(a: Devices, b: Devices) {
    forall role: Role :: !role.Gamepad? ==>
      (role in a <==> role in b) && (role in a ==> a[role] == b[role])
  }

  lemma {:induction false} KeepSingles(slot: nat, candidates: seq<Device>, attached: Devices, devices: Devices)
    ensures SameSingles(Keep(slot, candidates, attached, devices).devices, devices)
    decreases GAMEPAD_LIMIT - slot
  {
    if slot < GAMEPAD_LIMIT {
      if Gamepad(slot) in attached && Find(candidates, attached[Gamepad(slot)].path) < |candidates| {
        var index := Find(candidates, attached[Gamepad(slot)].path);
        KeepSingles(slot + 1, Without(candidates, index), attached, devices[Gamepad(slot) := candidates[index]]);
      } else {
        KeepSingles(slot + 1, candidates, attached, devices);
      }
    }
  }

  /** With nothing waiting, or no slot free, filling changes nothing. */
  lemma NothingToFill(a: Allocation)
    requires (forall d :: d !in a.rest) || FreeSlot(0, a.devices) == GAMEPAD_LIMIT
    ensures Fill(a.rest, a.devices).devices == a.devices
  {
    if FreeSlot(0, a.devices) != GAMEPAD_LIMIT {
      NothingIn(a.rest);
    }
  }

  /** Discovering again from what was just discovered changes nothing. */
  lemma DiscoverIsStable(host: Host, attached: Devices)
    requires Listing(host.joysticks)
    ensures Discovered(host, Discovered(host, attached)) == Discovered(host, attached)
  {
    var all := Candidates(host.joysticks, {});
    var settled := Allocated(host, attached);
    CandidatesDistinct(host.joysticks, {});
    AllocatedShared(host, attached);
    KeepAgain(0, all, Singles(host), all, settled);
    KeepShared(0, all, settled.devices, Singles(host), all);
    var again := Keep(0, all, settled.devices, Singles(host));
    SettledSingles(host, attached);
    KeepSingles(0, all, settled.devices, Singles(host));
    assert forall s: nat :: Gamepad(s) in again.devices || Gamepad(s) in settled.devices ==> s < GAMEPAD_LIMIT;
    SameDevices(again.devices, settled.devices);
    RestUnchanged(again, settled, all);
    NothingToFill(again);
  }

  lemma SettledSingles(host: Host, attached: Devices)
    requires Listing(host.joysticks)
    ensures SameSingles(Discovered(host, attached), Singles(host))
  {
    var all := Candidates(host.joysticks, {});
    CandidatesDistinct(host.joysticks, {});
    KeepSingles(0, all, attached, Singles(host));
    KeepShared(0, all, attached, Singles(host), all);
    var kept := Keep(0, all, attached, Singles(host));
    FillShared(kept.rest, kept.devices, all);
  }

  lemma SameDevices(a: Devices, b: Devices)
    requires SameSingles(a, b)
    requires forall s: nat :: Gamepad(s) in a <==> Gamepad(s) in b
    requires forall s: nat :: Gamepad(s) in a ==> a[Gamepad(s)] == b[Gamepad(s)]
    ensures a == b
  {
    forall role ensures role in a <==> role in b {
      match role
      case Gamepad(s) => assert Gamepad(s) in a <==> Gamepad(s) in b;
      case _ =>
    }
    forall role | role in a ensures a[role] == b[role] {
      match role
      case Gamepad(s) => assert Gamepad(s) in a;
      case _ =>
    }
  }

  lemma RestUnchanged(again: Allocation, settled: Allocation, all: seq<Device>)
    requires Shared(again, all) && Shared(settled, all) && again.devices == settled.devices
    ensures settled.rest == [] ==> forall d :: d !in again.rest
  {
    if settled.rest == [] {
      forall d | d in all ensures d !in again.rest {
        assert OnSlot(settled.devices, d);
      }
    }
  }

  // ----- keeping a slot --------------------------------------------------------------------

  /** Slots other than `slot` are not attached to this path. */
  ghost predicate OnlySlot(attached: Devices, slot: nat, path: string) {
    forall s: nat :: s != slot && Gamepad(s) in attached ==> attached[Gamepad(s)].path != path
  }

  /** No path is attached to two slots. */
  ghost predicate PathsOnce(attached: Devices) {
    forall s: nat, t: nat :: s < t && Gamepad(s) in attached && Gamepad(t) in attached ==>
      attached[Gamepad(s)].path != attached[Gamepad(t)].path
  }

  /** This candidate is the only one with its path. */
  ghost predicate Sole(candidates: seq<Device>, d: Device) {
    d in candidates && forall x :: x in candidates && x.path == d.path ==> x == d
  }

  lemma SoleOfDistinct(candidates: seq<Device>, d: Device)
    requires DistinctDevices(candidates) && d in candidates
    ensures Sole(candidates, d)
  {
    var i :| 0 <= i < |candidates| && candidates[i] == d;
    forall x | x in candidates && x.path == d.path ensures x == d {
      var j :| 0 <= j < |candidates| && candidates[j] == x;
    }
  }

  lemma SoleIsFound(candidates: seq<Device>, d: Device)
    requires Sole(candidates, d)
    ensures Find(candidates, d.path) < |candidates| && candidates[Find(candidates, d.path)] == d
  {
    var i :| 0 <= i < |candidates| && candidates[i] == d;
    assert Find(candidates, d.path) <= i;
    assert candidates[Find(candidates, d.path)] in candidates;
  }

  /** Taking another path's candidate leaves this one the only one. */
  lemma SoleWithout(candidates: seq<Device>, index: nat, d: Device)
    requires index < |candidates| && Sole(candidates, d) && candidates[index].path != d.path
    ensures Sole(Without(candidates, index), d)
  {
    var i :| 0 <= i < |candidates| && candidates[i] == d;
    assert Without(candidates, index)[if i < index then i else i - 1] == d;
    forall x | x in Without(candidates, index) ensures x in candidates {
      var j :| 0 <= j < |Without(candidates, index)| && Without(candidates, index)[j] == x;
      assert candidates[if j < index then j else j + 1] == x;
    }
  }

  /** A slot attached to another path does not take it. */
  lemma SoleUntaken(at: nat, candidates: seq<Device>, attached: Devices, devices: Devices, slot: nat, d: Device)
    requires at != slot && Sole(candidates, d) && OnlySlot(attached, slot, d.path)
    ensures Sole(Retake(at, candidates, attached, devices).rest, d)
  {
    if Gamepad(at) in attached && Find(candidates, attached[Gamepad(at)].path) < |candidates| {
      SoleWithout(candidates, Find(candidates, attached[Gamepad(at)].path), d);
    }
  }

  lemma KeepHere(candidates: seq<Device>, attached: Devices, devices: Devices, slot: nat, d: Device)
    requires slot < GAMEPAD_LIMIT && Sole(candidates, d)
    requires Gamepad(slot) in attached && attached[Gamepad(slot)].path == d.path
    ensures var kept := Keep(slot, candidates, attached, devices).devices;
            Gamepad(slot) in kept && kept[Gamepad(slot)] == d
  {
    SoleIsFound(candidates, d);
    KeepEarlier(slot + 1, Without(candidates, Find(candidates, d.path)), attached, devices[Gamepad(slot) := d], slot);
  }

  lemma {:induction false} KeepFinds(
    at: nat, candidates: seq<Device>, attached: Devices, devices: Devices, slot: nat, d: Device)
    requires at <= slot < GAMEPAD_LIMIT && Sole(candidates, d)
    requires Gamepad(slot) in attached && attached[Gamepad(slot)].path == d.path
    requires OnlySlot(attached, slot, d.path)
    ensures var kept := Keep(at, candidates, attached, devices).devices;
            Gamepad(slot) in kept && kept[Gamepad(slot)] == d
    decreases GAMEPAD_LIMIT - at
  {
    if at == slot {
      KeepHere(candidates, attached, devices, slot, d);
    } else {
      var taken := Retake(at, candidates, attached, devices);
      SoleUntaken(at, candidates, attached, devices, slot, d);
      KeepFinds(at + 1, taken.rest, attached, taken.devices, slot, d);
    }
  }

  /** Later slots do not disturb an earlier one. */
  lemma {:induction false} KeepEarlier(at: nat, candidates: seq<Device>, attached: Devices, devices: Devices, slot: nat)
    requires slot < at && Gamepad(slot) in devices
    ensures var kept := Keep(at, candidates, attached, devices).devices;
            Gamepad(slot) in kept && kept[Gamepad(slot)] == devices[Gamepad(slot)]
    decreases GAMEPAD_LIMIT - at
  {
    if at < GAMEPAD_LIMIT {
      if Gamepad(at) in attached && Find(candidates, attached[Gamepad(at)].path) < |candidates| {
        var index := Find(candidates, attached[Gamepad(at)].path);
        KeepEarlier(at + 1, Without(candidates, index), attached, devices[Gamepad(at) := candidates[index]], slot);
      } else {
        KeepEarlier(at + 1, candidates, attached, devices, slot);
      }
    }
  }

  /** The path is listed, is a device, and no path listed before it names the same device number. */
  ghost predicate LeadingPath(probes: seq<Probe>, path: string) {
    exists i: nat :: Leads(probes, i) && probes[i].path == path
  }

  /**
   An attached gamepad keeps its slot exactly when its path is still a device and no path that
   sorts before it names the same device number.
   */
  lemma SlotKeptExactlyWhen(host: Host, attached: Devices, slot: nat)
    requires Listing(host.joysticks) && slot < GAMEPAD_LIMIT && Gamepad(slot) in attached
    requires OnlySlot(attached, slot, attached[Gamepad(slot)].path)
    ensures var after := Discovered(host, attached);
            (Gamepad(slot) in after && after[Gamepad(slot)].path == attached[Gamepad(slot)].path)
            <==> LeadingPath(host.joysticks, attached[Gamepad(slot)].path)
  {
    var all := Candidates(host.joysticks, {});
    var path := attached[Gamepad(slot)].path;
    var after := Discovered(host, attached);
    CandidatesDistinct(host.joysticks, {});
    AllocatedShared(host, attached);
    if i: nat :| Leads(host.joysticks, i) && host.joysticks[i].path == path {
      var d := host.joysticks[i].found.value;
      CandidateIsLeader(host.joysticks, {}, d);
      SoleOfDistinct(all, d);
      KeepFinds(0, all, attached, Singles(host), slot, d);
      KeepShared(0, all, attached, Singles(host), all);
      var kept := Keep(0, all, attached, Singles(host));
      FillShared(kept.rest, kept.devices, all);
    }
    if Gamepad(slot) in after && after[Gamepad(slot)].path == path {
      CandidateIsLeader(host.joysticks, {}, after[Gamepad(slot)]);
    }
  }

  /** Every attached gamepad keeps its slot in what is discovered exactly when its path leads. */
  ghost predicate SlotsKeptWhenLeading(host: Host, attached: Devices) {
    forall slot: nat :: Gamepad(slot) in attached ==>
      (SlotKept(host, attached, slot) <==> LeadingPath(host.joysticks, attached[Gamepad(slot)].path))
  }

  ghost predicate SlotKept(host: Host, attached: Devices, slot: nat)
    requires Gamepad(slot) in attached
  {
    var after := Discovered(host, attached);
    Gamepad(slot) in after && after[Gamepad(slot)].path == attached[Gamepad(slot)].path
  }

  lemma AllKeptWhenLeading(host: Host, attached: Devices)
    requires Listing(host.joysticks) && PathsOnce(attached)
    requires forall s: nat :: Gamepad(s) in attached ==> s < GAMEPAD_LIMIT
    ensures SlotsKeptWhenLeading(host, attached)
  {
    forall slot: nat | Gamepad(slot) in attached
      ensures SlotKept(host, attached, slot) <==> LeadingPath(host.joysticks, attached[Gamepad(slot)].path)
    {
      SlotKeptExactlyWhen(host, attached, slot);
    }
  }

  /** A discovery gives no path two slots. */
  lemma DiscoveredOnce(host: Host, attached: Devices)
    requires Listing(host.joysticks)
    ensures PathsOnce(Discovered(host, attached))
  {
    var all, D := Candidates(host.joysticks, {}), Discovered(host, attached);
    CandidatesDistinct(host.joysticks, {});
    AllocatedShared(host, attached);
    forall s: nat, t: nat | s < t && Gamepad(s) in D && Gamepad(t) in D
      ensures D[Gamepad(s)].path != D[Gamepad(t)].path
    {
      var i :| 0 <= i < |all| && all[i] == D[Gamepad(s)];
      var j :| 0 <= j < |all| && all[j] == D[Gamepad(t)];
      assert i != j;
    }
  }

  /** A path that is attached and discovered again is discovered where it is attached. */
  lemma DiscoveredInPlace(host: Host, attached: Devices, s: nat, t: nat)
    requires Listing(host.joysticks) && PathsOnce(attached) && s < GAMEPAD_LIMIT && Gamepad(s) in attached
    requires Gamepad(t) in Discovered(host, attached)
    requires Discovered(host, attached)[Gamepad(t)].path == attached[Gamepad(s)].path
    ensures s == t
  {
    var D := Discovered(host, attached);
    AllocatedShared(host, attached);
    CandidateIsLeader(host.joysticks, {}, D[Gamepad(t)]);
    var i: nat :| Leads(host.joysticks, i) && host.joysticks[i].found.value == D[Gamepad(t)];
    assert LeadingPath(host.joysticks, attached[Gamepad(s)].path);
    SlotKeptExactlyWhen(host, attached, s);
    DiscoveredOnce(host, attached);
  }

  /** However far a reconciliation gets, no path ends up on two slots. */
  lemma MixedOnce(host: Host, attached: Devices, after: Devices)
    requires Listing(host.joysticks) && PathsOnce(attached) && Known(attached)
    requires forall role :: Get(after, role) in {Get(attached, role), None, Get(Discovered(host, attached), role)}
    ensures PathsOnce(after)
  {
    DiscoveredOnce(host, attached);
    forall s: nat, t: nat | s < t && Gamepad(s) in after && Gamepad(t) in after
      ensures after[Gamepad(s)].path != after[Gamepad(t)].path
    {
      var D := Discovered(host, attached);
      assert Get(after, Gamepad(s)) == Some(after[Gamepad(s)]) && Get(after, Gamepad(t)) == Some(after[Gamepad(t)]);
      assert Get(after, Gamepad(s)) in {Get(attached, Gamepad(s)), Get(D, Gamepad(s))};
      assert Get(after, Gamepad(t)) in {Get(attached, Gamepad(t)), Get(D, Gamepad(t))};
      if after[Gamepad(s)].path == after[Gamepad(t)].path {
        if Get(after, Gamepad(s)) == Get(attached, Gamepad(s)) && Get(after, Gamepad(t)) == Get(D, Gamepad(t)) {
          DiscoveredInPlace(host, attached, s, t);
        } else if Get(after, Gamepad(t)) == Get(attached, Gamepad(t)) && Get(after, Gamepad(s)) == Get(D, Gamepad(s)) {
          DiscoveredInPlace(host, attached, t, s);
        }
      }
    }
  }

  /**
   A path that is still present can lose its slot: when a link that sorts earlier appears for
   the same device, the earlier link takes its place.
   */
  lemma PresentPathCanLoseItsSlot() returns (host: Host, attached: Devices)
    ensures Listing(host.joysticks) && Gamepad(0) in attached
    ensures exists i :: 0 <= i < |host.joysticks| && host.joysticks[i].found == Some(attached[Gamepad(0)])
    ensures Gamepad(0) in Discovered(host, attached)
    ensures Discovered(host, attached)[Gamepad(0)].path != attached[Gamepad(0)].path
  {
    var byId := Device("/dev/input/by-id/pad-event-joystick", 7, 0);
    var byPath := Device("/dev/input/by-path/pad-event-joystick", 7, 0);
    assert byId.path[14] != byPath.path[14];
    host := Host([], [], [Probe(byId.path, Some(byId)), Probe(byPath.path, Some(byPath))]);
    attached := map[Gamepad(0) := byPath];
    assert host.joysticks[1].found == Some(attached[Gamepad(0)]);
    assert host.joysticks[1..] == [Probe(byPath.path, Some(byPath))];
    assert Candidates(host.joysticks[1..], {7}) == [] by {
      assert host.joysticks[1..][1..] == [];
    }
    assert {} + {7} == {7};
    assert Candidates(host.joysticks, {}) == [byId];
    assert Find([byId], byPath.path) == 1;
    assert Keep(0, [byId], attached, map[]) == Allocation(map[], [byId]) by {
      assert Keep(4, [byId], attached, map[]) == Allocation(map[], [byId]);
      assert Keep(2, [byId], attached, map[]) == Allocation(map[], [byId]);
    }
    assert Singles(host) == map[];
    assert Fill([byId], map[]).devices == map[Gamepad(0) := byId];
  }

  // ----- what is discovered ----------------------------------------------------------------

  /** The first of these paths where a device was found. */
  ghost predicate First(probes: seq<Probe>, i: nat) {
    i < |probes| && probes[i].found.Some? && forall j :: 0 <= j < i ==> probes[j].found.None?
  }

  lemma {:induction false} FirstIsFound(probes: seq<Probe>)
    ensures FirstFound(probes).None? ==> forall i: nat :: !First(probes, i)
    ensures FirstFound(probes).Some? ==>
              exists i: nat :: First(probes, i) && probes[i].found == FirstFound(probes)
    ensures forall i: nat :: First(probes, i) ==> FirstFound(probes) == probes[i].found
  {
    if probes != [] {
      FirstIsFound(probes[1..]);
      if probes[0].found.Some? {
        assert First(probes, 0);
        assert forall i: nat :: First(probes, i) ==> i == 0;
      } else {
        forall i: nat ensures First(probes, i + 1) <==> First(probes[1..], i) {
          assert forall j :: 0 <= j < i && i < |probes[1..]| ==> probes[1..][j] == probes[j + 1];
          if First(probes[1..], i) {
            forall j | 0 <= j < i + 1 ensures probes[j].found.None? {
              assert j > 0 ==> probes[1..][j - 1].found.None?;
            }
          }
        }
        assert !First(probes, 0);
        if i: nat :| First(probes[1..], i) {
          assert First(probes, i + 1);
        }
        forall i: nat | First(probes, i) ensures FirstFound(probes) == probes[i].found {
          assert First(probes, i - 1 + 1);
        }
      }
    }
  }

  /** The keyboard and the pointer are the first devices found among their own paths, if any are. */
  lemma FirstOfEach(host: Host, attached: Devices)
    requires Listing(host.joysticks)
    ensures var found := Discovered(host, attached);
            && (Keyboard in found <==> exists i: nat :: First(host.keyboards, i))
            && (Pointer in found <==> exists i: nat :: First(host.pointers, i))
            && (forall i: nat :: First(host.keyboards, i) ==>
                  Keyboard in found && Some(found[Keyboard]) == host.keyboards[i].found)
            && (forall i: nat :: First(host.pointers, i) ==>
                  Pointer in found && Some(found[Pointer]) == host.pointers[i].found)
  {
    SettledSingles(host, attached);
    FirstIsFound(host.keyboards);
    FirstIsFound(host.pointers);
  }

  /** Device `d` is found before device `e`, each as the first of the listing with its number. */
  ghost predicate Precedes(probes: seq<Probe>, d: Device, e: Device) {
    exists i: nat, j: nat ::
      i < j && Leads(probes, i) && Leads(probes, j) && probes[i].found.value == d && probes[j].found.value == e
  }

  ghost predicate InListingOrder(probes: seq<Probe>, devices: seq<Device>) {
    forall a, b :: 0 <= a < b < |devices| ==> Precedes(probes, devices[a], devices[b])
  }

  /** No device precedes one that precedes it. */
  lemma PrecedesOneWay(probes: seq<Probe>, d: Device, e: Device)
    requires Precedes(probes, d, e)
    ensures !Precedes(probes, e, d)
  {
    var i: nat, j: nat :| i < j && Leads(probes, i) && Leads(probes, j) && probes[i].found.value == d
                          && probes[j].found.value == e;
    if k: nat, l: nat :| k < l && Leads(probes, k) && Leads(probes, l) && probes[k].found.value == e
                         && probes[l].found.value == d {
      LeaderUnique(probes, i, l);
      LeaderUnique(probes, j, k);
      assert false;
    }
  }

  lemma LeaderUnique(probes: seq<Probe>, i: nat, j: nat)
    requires Leads(probes, i) && Leads(probes, j) && probes[i].found.value.number == probes[j].found.value.number
    ensures i == j
  {
  }

  lemma {:induction false} CandidatesInOrder(probes: seq<Probe>, from: nat, seen: set<nat>)
    requires from <= |probes|
    requires forall n :: n in seen <==>
               exists k: nat :: k < from && Leads(probes, k) && probes[k].found.value.number == n
    ensures InListingOrder(probes, Candidates(probes[from..], seen))
    ensures forall d :: d in Candidates(probes[from..], seen) ==>
              exists i: nat :: from <= i && Leads(probes, i) && probes[i].found.value == d
    decreases |probes| - from
  {
    if from < |probes| {
      var rest := probes[from..];
      assert rest[0] == probes[from] && rest[1..] == probes[from + 1..];
      NumbersSeen(probes, from, seen);
      if rest[0].found.Some? && rest[0].found.value.number !in seen {
        var seen' := seen + {rest[0].found.value.number};
        assert Leads(probes, from);
        CandidatesInOrder(probes, from + 1, seen');
        var later := Candidates(probes[from + 1..], seen');
        forall b | 0 <= b < |later| ensures Precedes(probes, rest[0].found.value, later[b]) {
          assert later[b] in later;
        }
      } else {
        assert !Leads(probes, from);
        CandidatesInOrder(probes, from + 1, seen);
      }
    }
  }

  /** The numbers of the leaders so far are the numbers found so far. */
  lemma NumbersSeen(probes: seq<Probe>, from: nat, seen: set<nat>)
    requires from < |probes|
    requires forall n :: n in seen <==>
               exists k: nat :: k < from && Leads(probes, k) && probes[k].found.value.number == n
    ensures Leads(probes, from) <==> probes[from].found.Some? && probes[from].found.value.number !in seen
  {
    if probes[from].found.Some? {
      var n := probes[from].found.value.number;
      if j: nat :| j < from && probes[j].found.Some? && probes[j].found.value.number == n {
        var k := FirstWithNumber(probes, j);
        assert k < from && Leads(probes, k);
      }
    }
  }

  lemma {:induction false} FirstWithNumber(probes: seq<Probe>, j: nat) returns (k: nat)
    requires j < |probes| && probes[j].found.Some?
    ensures k <= j && Leads(probes, k) && probes[k].found.value.number == probes[j].found.value.number
  {
    if i: nat :| i < j && probes[i].found.Some? && probes[i].found.value.number == probes[j].found.value.number {
      k := FirstWithNumber(probes, i);
    } else {
      k := j;
    }
  }

  lemma WithoutInOrder(probes: seq<Probe>, devices: seq<Device>, index: nat)
    requires InListingOrder(probes, devices) && index < |devices|
    ensures InListingOrder(probes, Without(devices, index))
  {
    var rest := Without(devices, index);
    forall a, b | 0 <= a < b < |rest| ensures Precedes(probes, rest[a], rest[b]) {
      assert rest[a] == devices[if a < index then a else a + 1] && rest[b] == devices[if b < index then b else b + 1];
    }
  }

  /** Who waits still waits in listing order. */
  lemma {:induction false} KeepInOrder(
    probes: seq<Probe>, slot: nat, candidates: seq<Device>, attached: Devices, devices: Devices)
    requires InListingOrder(probes, candidates)
    ensures InListingOrder(probes, Keep(slot, candidates, attached, devices).rest)
    decreases GAMEPAD_LIMIT - slot
  {
    if slot < GAMEPAD_LIMIT {
      var taken := Retake(slot, candidates, attached, devices);
      if Gamepad(slot) in attached && Find(candidates, attached[Gamepad(slot)].path) < |candidates| {
        WithoutInOrder(probes, candidates, Find(candidates, attached[Gamepad(slot)].path));
      }
      KeepInOrder(probes, slot + 1, taken.rest, attached, taken.devices);
    }
  }

  /** A slot that is kept is kept for its own path. */
  lemma {:induction false} KeepOwn(slot: nat, candidates: seq<Device>, attached: Devices, devices: Devices, s: nat)
    requires Gamepad(s) in Keep(slot, candidates, attached, devices).devices && Gamepad(s) !in devices
    ensures Gamepad(s) in attached
    ensures attached[Gamepad(s)].path == Keep(slot, candidates, attached, devices).devices[Gamepad(s)].path
    decreases GAMEPAD_LIMIT - slot
  {
    var taken := Retake(slot, candidates, attached, devices);
    if Gamepad(s) in taken.devices {
      assert s == slot;
      KeepEarlier(slot + 1, taken.rest, attached, taken.devices, slot);
    } else {
      KeepOwn(slot + 1, taken.rest, attached, taken.devices, s);
    }
  }

  /** Filling leaves no gap below a slot it fills, and fills the slots in the order of the items. */
  lemma {:induction false} FillInOrder(items: seq<Device>, devices: Devices, t: nat)
    requires Gamepad(t) in Fill(items, devices).devices && Gamepad(t) !in devices
    ensures var filled := Fill(items, devices).devices;
            && t < GAMEPAD_LIMIT
            && (forall s: nat :: s < t ==> Gamepad(s) in filled)
            && exists b :: 0 <= b < |items| && items[b] == filled[Gamepad(t)]
                 && forall a :: 0 <= a < b ==>
                      exists s: nat :: s < t && Gamepad(s) in filled && filled[Gamepad(s)] == items[a]
  {
    var filled := Fill(items, devices).devices;
    var free := FreeSlot(0, devices);
    assert items != [] && free < GAMEPAD_LIMIT;
    var next := devices[Gamepad(free) := items[0]];
    FillKeeps(items[1..], next);
    if t == free {
      FillKeeps(items, devices);
    } else {
      FillInOrder(items[1..], next, t);
      assert free < t;
      var b :| 0 <= b < |items[1..]| && items[1..][b] == filled[Gamepad(t)]
               && forall a :: 0 <= a < b ==>
                    exists s: nat :: s < t && Gamepad(s) in filled && filled[Gamepad(s)] == items[1..][a];
      forall a | 0 <= a < b + 1
        ensures exists s: nat :: s < t && Gamepad(s) in filled && filled[Gamepad(s)] == items[a]
      {
        if a > 0 {
          assert items[1..][a - 1] == items[a];
        }
      }
    }
  }

  lemma {:induction false} FillKeeps(items: seq<Device>, devices: Devices)
    ensures forall role :: role in devices ==>
              role in Fill(items, devices).devices && Fill(items, devices).devices[role] == devices[role]
  {
    if items != [] && FreeSlot(0, devices) < GAMEPAD_LIMIT {
      FillKeeps(items[1..], devices[Gamepad(FreeSlot(0, devices)) := items[0]]);
    }
  }

  /** A waiting device found before one that is placed is placed lower. */
  lemma PlacedInOrder(probes: seq<Probe>, items: seq<Device>, devices: Devices, t: nat, d: Device)
    requires Gamepad(t) in Fill(items, devices).devices && Gamepad(t) !in devices
    requires InListingOrder(probes, items) && d in items
    requires Precedes(probes, d, Fill(items, devices).devices[Gamepad(t)])
    ensures var filled := Fill(items, devices).devices;
            exists s: nat :: s < t && Gamepad(s) in filled && filled[Gamepad(s)] == d
  {
    var filled := Fill(items, devices).devices;
    FillInOrder(items, devices, t);
    var i :| 0 <= i < |items| && items[i] == d;
    var b :| 0 <= b < |items| && items[b] == filled[Gamepad(t)]
             && forall a :: 0 <= a < b ==>
                  exists s: nat :: s < t && Gamepad(s) in filled && filled[Gamepad(s)] == items[a];
    PrecedesOneWay(probes, d, filled[Gamepad(t)]);
    assert i != b;
    assert i < b;
  }

  /** What keeping leaves: who waits is in listing order, and who does not wait has its own slot. */
  lemma KeptInOrder(host: Host, attached: Devices, d: Device)
    requires Listing(host.joysticks)
    ensures var kept := Keep(0, Candidates(host.joysticks, {}), attached, Singles(host));
            && InListingOrder(host.joysticks, kept.rest)
            && (forall s: nat :: Gamepad(s) in kept.devices ==>
                  Gamepad(s) in attached && attached[Gamepad(s)].path == kept.devices[Gamepad(s)].path)
            && (d in Candidates(host.joysticks, {}) ==> d in kept.rest || OnSlot(kept.devices, d))
  {
    var all := Candidates(host.joysticks, {});
    CandidatesDistinct(host.joysticks, {});
    assert host.joysticks[0..] == host.joysticks;
    CandidatesInOrder(host.joysticks, 0, {});
    KeepInOrder(host.joysticks, 0, all, attached, Singles(host));
    KeepShared(0, all, attached, Singles(host), all);
    forall s: nat | Gamepad(s) in Keep(0, all, attached, Singles(host)).devices
      ensures Gamepad(s) in attached
      ensures attached[Gamepad(s)].path == Keep(0, all, attached, Singles(host)).devices[Gamepad(s)].path
    {
      KeepOwn(0, all, attached, Singles(host), s);
    }
  }

  /**
   A gamepad on a slot it was not attached to has come to the lowest slot that was free for it:
   below it there is no gap, and every device that is found before it is on a slot as well; a
   slot of its own if it was attached to that, and otherwise a lower one.
   */
  lemma NewcomersInOrder(host: Host, attached: Devices, t: nat, d: Device)
    requires Listing(host.joysticks)
    requires Gamepad(t) in Discovered(host, attached)
    requires Gamepad(t) in attached ==> attached[Gamepad(t)].path != Discovered(host, attached)[Gamepad(t)].path
    requires Precedes(host.joysticks, d, Discovered(host, attached)[Gamepad(t)])
    ensures var found := Discovered(host, attached);
            && t < 4 && (forall s: nat :: s < t ==> Gamepad(s) in found)
            && exists s: nat :: Gamepad(s) in found && found[Gamepad(s)] == d
                 && (s < t || (Gamepad(s) in attached && attached[Gamepad(s)].path == d.path))
  {
    var found := Discovered(host, attached);
    var kept := Keep(0, Candidates(host.joysticks, {}), attached, Singles(host));
    KeptInOrder(host, attached, d);
    CandidateIsLeader(host.joysticks, {}, d);
    FillKeeps(kept.rest, kept.devices);
    FillInOrder(kept.rest, kept.devices, t);
    if d in kept.rest {
      PlacedInOrder(host.joysticks, kept.rest, kept.devices, t, d);
    } else {
      var s: nat :| Gamepad(s) in kept.devices && kept.devices[Gamepad(s)] == d;
      assert Gamepad(s) in found && found[Gamepad(s)] == d;
    }
  }

  /** Every slot holds a leader of the listing, and a leader is left out only when all are taken. */
  lemma SlotsHoldLeaders(host: Host, attached: Devices)
    requires Listing(host.joysticks)
    ensures var found := Discovered(host, attached);
            && (forall s: nat :: Gamepad(s) in found ==>
                  exists i: nat :: Leads(host.joysticks, i) && host.joysticks[i].found.value == found[Gamepad(s)])
            && (forall i: nat :: Leads(host.joysticks, i) ==>
                  OnSlot(found, host.joysticks[i].found.value) || forall s: nat :: s < 4 ==> Gamepad(s) in found)
  {
    var all, found := Candidates(host.joysticks, {}), Discovered(host, attached);
    AllocatedShared(host, attached);
    forall s: nat | Gamepad(s) in found
      ensures exists i: nat :: Leads(host.joysticks, i) && host.joysticks[i].found.value == found[Gamepad(s)]
    {
      CandidateIsLeader(host.joysticks, {}, found[Gamepad(s)]);
    }
    forall i: nat | Leads(host.joysticks, i)
      ensures OnSlot(found, host.joysticks[i].found.value) || forall s: nat :: s < 4 ==> Gamepad(s) in found
    {
      CandidateIsLeader(host.joysticks, {}, host.joysticks[i].found.value);
      assert host.joysticks[i].found.value in all;
    }
  }

  // ----- discover, as the program runs it --------------------------------------------------

  method FirstDevice(probes: seq<Probe>) returns (found: Option<Device>)
    ensures found == FirstFound(probes)
  {
    var i := 0;
    while i < |probes|
      invariant i <= |probes|
      invariant FirstFound(probes) == FirstFound(probes[i..])
    {
      if probes[i].found.Some? {
        return probes[i].found;
      }
      i := i + 1;
    }
    return None;
  }

  method Discover(host: Host, attached: Devices) returns (devices: Devices)
    ensures devices == Discovered(host, attached)
  {
    devices := map[];
    var keyboard := FirstDevice(host.keyboards);
    if keyboard.Some? {
      devices := devices[Keyboard := keyboard.value];
    }
    var pointer := FirstDevice(host.pointers);
    if pointer.Some? {
      devices := devices[Pointer := pointer.value];
    }
    assert devices == Singles(host);
    var candidates := CollectCandidates(host.joysticks);
    devices, candidates := KeepSlots(candidates, attached, devices);
    devices := FillSlots(candidates, devices);
  }

  method KeepSlots(candidates: seq<Device>, attached: Devices, devices: Devices)
    returns (kept: Devices, rest: seq<Device>)
    ensures Allocation(kept, rest) == Keep(0, candidates, attached, devices)
  {
    kept, rest := devices, candidates;
    var slot := 0;
    while slot < GAMEPAD_LIMIT
      invariant slot <= GAMEPAD_LIMIT
      invariant Keep(slot, rest, attached, kept) == Keep(0, candidates, attached, devices)
    {
      if Gamepad(slot) in attached {
        var index := Find(rest, attached[Gamepad(slot)].path);
        if index < |rest| {
          kept := kept[Gamepad(slot) := rest[index]];
          rest := Without(rest, index);
        }
      }
      slot := slot + 1;
    }
  }

  method FillSlots(candidates: seq<Device>, devices: Devices) returns (filled: Devices)
    ensures filled == Fill(candidates, devices).devices
  {
    filled := devices;
    var i := 0;
    while i < |candidates|
      invariant i <= |candidates|
      invariant Fill(candidates[i..], filled) == Fill(candidates, devices)
    {
      var free := FreeSlot(0, filled);
      if free == GAMEPAD_LIMIT {
        break;
      }
      filled := filled[Gamepad(free) := candidates[i]];
      assert candidates[i..][1..] == candidates[i + 1..];
      i := i + 1;
    }
  }

  method CollectCandidates(probes: seq<Probe>) returns (candidates: seq<Device>)
    ensures candidates == Candidates(probes, {})
  {
    candidates := [];
    var seen: set<nat> := {};
    var i := 0;
    while i < |probes|
      invariant i <= |probes|
      invariant candidates + Candidates(probes[i..], seen) == Candidates(probes, {})
    {
      if probes[i].found.Some? && probes[i].found.value.number !in seen {
        seen := seen + {probes[i].found.value.number};
        candidates := candidates + [probes[i].found.value];
      }
      assert probes[i..][1..] == probes[i + 1..];
      i := i + 1;
    }
  }

  // ----- reconcile -------------------------------------------------------------------------

  datatype Command = Delete(role: Role) | Add(role: Role, device: Device)

  /** The emulator: the objects it holds and the commands it was sent, with their fate. */
  class Qemu {
    var objects: Devices
    var sent: seq<(Command, bool)>

    constructor ()
      ensures objects == map[] && sent == []
    {
      objects, sent := map[], [];
    }

    /** A command is executed or rejected; a rejected one is not executed, and an impossible one is rejected. */
    method Execute(command: Command) returns (accepted: bool)
      modifies this
      ensures sent == old(sent) + [(command, accepted)]
      ensures accepted ==> (command.Delete? <==> command.role in old(objects))
      ensures objects == if accepted then Executed(old(objects), command) else old(objects)
    {
      accepted := *;
      if command.Delete? != (command.role in objects) {
        accepted := false;
      }
      sent := sent + [(command, accepted)];
      if accepted {
        objects := Executed(objects, command);
      }
    }
  }

  function Executed(objects: Devices, command: Command): Devices {
    match command
    case Delete(role) => objects - {role}
    case Add(role, device) => objects[role := device]
  }

  function Get(devices: Devices, role: Role): Option<Device> {
    if role in devices then Some(devices[role]) else None
  }

  const ROLES: seq<Role> :=
    [Keyboard, Pointer, Gamepad(0), Gamepad(1), Gamepad(2), Gamepad(3)]

  const KNOWN: set<Role> := {Keyboard, Pointer, Gamepad(0), Gamepad(1), Gamepad(2), Gamepad(3)}

  ghost predicate Known(devices: Devices) {
    devices.Keys <= KNOWN
  }

  /** The roles of the first `n` turns of the loop. */
  ghost function Handled(n: nat): set<Role>
    requires n <= |ROLES|
  {
    set role | role in ROLES[..n]
  }

  lemma HandledGrows(n: nat)
    requires n < |ROLES|
    ensures Handled(n + 1) == Handled(n) + {ROLES[n]} && ROLES[n] !in Handled(n) && ROLES[n] in KNOWN
  {
    assert ROLES[..n + 1] == ROLES[..n] + [ROLES[n]];
  }

  lemma AllHandled()
    ensures Handled(|ROLES|) == KNOWN
  {
    assert ROLES[..|ROLES|] == ROLES;
    assert ROLES[0] == Keyboard && ROLES[1] == Pointer && ROLES[2] == Gamepad(0);
    assert ROLES[3] == Gamepad(1) && ROLES[4] == Gamepad(2) && ROLES[5] == Gamepad(3);
  }

  lemma SameEverywhere(a: Devices, b: Devices)
    requires Known(a) && Known(b)
    requires forall role :: role in KNOWN ==> Get(a, role) == Get(b, role)
    ensures a == b
  {
    assert forall role :: role in a ==> Get(a, role) == Get(b, role);
    assert forall role :: role in b ==> Get(a, role) == Get(b, role);
  }

  /** The commands that bring a role from what it holds to what it should hold. */
  function RolePlan(role: Role, current: Option<Device>, wanted: Option<Device>): seq<Command> {
    if current == wanted then []
    else (if current.Some? then [Delete(role)] else []) + (if wanted.Some? then [Add(role, wanted.value)] else [])
  }

  /** These commands were sent one after the other, to the last or to the first that was rejected. */
  ghost predicate Followed(sent: seq<(Command, bool)>, plan: seq<Command>) {
    && |sent| <= |plan|
    && (forall i :: 0 <= i < |sent| ==> sent[i].0 == plan[i])
    && (forall i :: 0 <= i < |sent| - 1 ==> sent[i].1)
    && (|sent| < |plan| ==> sent != [] && !sent[|sent| - 1].1)
  }

  /** The commands of a stretch that concern one role, with their fate. */
  function Concerning(sent: seq<(Command, bool)>, role: Role): seq<(Command, bool)> {
    if sent == [] then []
    else (if sent[0].0.role == role then [sent[0]] else []) + Concerning(sent[1..], role)
  }

  lemma {:induction false} ConcerningBoth(a: seq<(Command, bool)>, b: seq<(Command, bool)>, role: Role)
    ensures Concerning(a + b, role) == Concerning(a, role) + Concerning(b, role)
  {
    if a == [] {
      assert a + b == b;
    } else {
      ConcerningBoth(a[1..], b, role);
      assert (a + b)[0] == a[0] && (a + b)[1..] == a[1..] + b;
      var first := if a[0].0.role == role then [a[0]] else [];
      assert first + (Concerning(a[1..], role) + Concerning(b, role))
          == (first + Concerning(a[1..], role)) + Concerning(b, role);
    }
  }

  lemma {:induction false} ConcerningOne(sent: seq<(Command, bool)>, one: Role, role: Role)
    requires forall i :: 0 <= i < |sent| ==> sent[i].0.role == one
    ensures Concerning(sent, role) == if role == one then sent else []
  {
    if sent != [] {
      assert forall i :: 0 <= i < |sent[1..]| ==> sent[1..][i] == sent[i + 1];
      ConcerningOne(sent[1..], one, role);
      assert sent == [sent[0]] + sent[1..];
    }
  }

  /** Every role in `roles` has had its commands, and no other role any. */
  ghost predicate AllFollowed(sent: seq<(Command, bool)>, before: Devices, desired: Devices, roles: set<Role>) {
    forall role :: RoleFollowed(sent, before, desired, roles, role)
  }

  ghost predicate RoleFollowed(sent: seq<(Command, bool)>, before: Devices, desired: Devices, roles: set<Role>,
                               role: Role) {
    var plan := if role in roles then RolePlan(role, Get(before, role), Get(desired, role)) else [];
    Followed(Concerning(sent, role), plan)
  }

  lemma OneMoreFollowed(a: seq<(Command, bool)>, b: seq<(Command, bool)>, before: Devices, desired: Devices,
                        roles: set<Role>, role: Role)
    requires AllFollowed(a, before, desired, roles) && role !in roles
    requires forall i :: 0 <= i < |b| ==> b[i].0.role == role
    requires Followed(b, RolePlan(role, Get(before, role), Get(desired, role)))
    ensures AllFollowed(a + b, before, desired, roles + {role})
  {
    forall r: Role ensures RoleFollowed(a + b, before, desired, roles + {role}, r) {
      ConcerningBoth(a, b, r);
      ConcerningOne(b, role, r);
      assert RoleFollowed(a, before, desired, roles, r);
      if r == role {
        assert Concerning(a, r) == [];
        assert [] + b == b;
      } else {
        assert Concerning(a, r) + [] == Concerning(a, r);
      }
    }
  }

  /** Every command of this stretch was accepted. */
  ghost predicate AllAccepted(sent: seq<(Command, bool)>) {
    forall i :: 0 <= i < |sent| ==> sent[i].1
  }

  /** No command of this stretch concerns a role whose device is already the wanted one. */
  ghost predicate OnlyChanges(sent: seq<(Command, bool)>, before: Devices, desired: Devices) {
    forall i :: 0 <= i < |sent| ==> Get(before, sent[i].0.role) != Get(desired, sent[i].0.role)
  }

  lemma JoinStretches(a: seq<(Command, bool)>, b: seq<(Command, bool)>, c: seq<(Command, bool)>)
    requires |a| <= |b| <= |c| && b[..|a|] == a && c[..|b|] == b
    ensures c[|a|..] == b[|a|..] + c[|b|..] && c[..|a|] == a
  {
    assert c[|a|..] == b[|a|..] + c[|b|..];
  }

  lemma JoinChanges(
    all: seq<(Command, bool)>, first: seq<(Command, bool)>, second: seq<(Command, bool)>,
    before: Devices, belief: Devices, desired: Devices, role: Role)
    requires all == first + second && OnlyChanges(first, before, desired) && OnlyChanges(second, belief, desired)
    requires Get(belief, role) == Get(before, role)
    requires forall i :: 0 <= i < |second| ==> second[i].0.role == role
    ensures OnlyChanges(all, before, desired)
  {
    forall i | 0 <= i < |all| ensures Get(before, all[i].0.role) != Get(desired, all[i].0.role) {
      if i < |first| {
        assert all[i] == first[i];
      } else {
        assert all[i] == second[i - |first|];
      }
    }
  }

  /** What `n` turns of the loop have done: these commands, and what is attached now. */
  ghost predicate Turns(sent: seq<(Command, bool)>, before: Devices, now: Devices, desired: Devices, n: nat)
    requires n <= |ROLES|
  {
    && OnlyChanges(sent, before, desired) && AllFollowed(sent, before, desired, Handled(n))
    && (forall role :: role !in Handled(n) ==> Get(now, role) == Get(before, role))
    && (forall role :: role in Handled(n) ==> Get(now, role) in {Get(before, role), None, Get(desired, role)})
    && (AllAccepted(sent) ==> forall role :: role in Handled(n) ==> Get(now, role) == Get(desired, role))
  }

  lemma NextTurn(first: seq<(Command, bool)>, second: seq<(Command, bool)>, before: Devices, belief: Devices,
                 now: Devices, desired: Devices, n: nat)
    requires n < |ROLES| && Turns(first, before, belief, desired, n) && Known(belief)
    requires forall i :: 0 <= i < |second| ==> second[i].0.role == ROLES[n]
    requires forall r :: r != ROLES[n] ==> Get(now, r) == Get(belief, r)
    requires Get(now, ROLES[n]) in {Get(belief, ROLES[n]), None, Get(desired, ROLES[n])}
    requires OnlyChanges(second, belief, desired)
    requires Followed(second, RolePlan(ROLES[n], Get(belief, ROLES[n]), Get(desired, ROLES[n])))
    requires AllAccepted(second) ==> Get(now, ROLES[n]) == Get(desired, ROLES[n])
    ensures Turns(first + second, before, now, desired, n + 1) && Known(now)
  {
    var role := ROLES[n];
    HandledGrows(n);
    assert Get(belief, role) == Get(before, role);
    JoinChanges(first + second, first, second, before, belief, desired, role);
    OneMoreFollowed(first, second, before, desired, Handled(n), role);
    if AllAccepted(first + second) {
      assert AllAccepted(first) by {
        assert forall i :: 0 <= i < |first| ==> first[i] == (first + second)[i];
      }
      assert AllAccepted(second) by {
        assert forall i :: 0 <= i < |second| ==> second[i] == (first + second)[|first| + i];
      }
    }
    forall r | r in now ensures r in KNOWN {
      assert r != role ==> Get(now, r) == Get(belief, r);
    }
  }

  /** What the controller believes is attached. */
  class Controller {
    var attached: Devices

    constructor ()
      ensures attached == map[]
    {
      attached := map[];
    }

    /** One role: at most a detach and an attach, stopping at the first rejection. */
    method ReconcileRole(qmp: Qemu, role: Role, desired: Devices)
      requires qmp.objects == attached
      modifies this, qmp
      ensures qmp.objects == attached
      ensures forall r :: r != role ==> Get(attached, r) == Get(old(attached), r)
      ensures |old(qmp.sent)| <= |qmp.sent| && qmp.sent[..|old(qmp.sent)|] == old(qmp.sent)
      ensures Get(attached, role) in {Get(old(attached), role), None, Get(desired, role)}
      ensures OnlyChanges(qmp.sent[|old(qmp.sent)|..], old(attached), desired)
      ensures forall i :: |old(qmp.sent)| <= i < |qmp.sent| ==> qmp.sent[i].0.role == role
      ensures Followed(qmp.sent[|old(qmp.sent)|..], RolePlan(role, Get(old(attached), role), Get(desired, role)))
      ensures AllAccepted(qmp.sent[|old(qmp.sent)|..]) ==> Get(attached, role) == Get(desired, role)
    {
      var current, wanted := Get(attached, role), Get(desired, role);
      if current == wanted {
        return;
      }
      if current.Some? {
        var accepted := qmp.Execute(Delete(role));
        if !accepted {
          assert !qmp.sent[|old(qmp.sent)|..][0].1;
          return;
        }
        attached := attached - {role};
      }
      if wanted.Some? {
        var accepted := qmp.Execute(Add(role, wanted.value));
        if !accepted {
          assert !qmp.sent[|old(qmp.sent)|..][|qmp.sent| - 1 - |old(qmp.sent)|].1;
          return;
        }
        attached := attached[role := wanted.value];
      }
    }

    /**
     Every role in turn, each until it is done or a command for it is rejected, whatever happened
     to the others.  The controller's belief stays what the emulator holds; a pass with nothing
     rejected reaches the desired devices.
     */
    method Reconcile(qmp: Qemu, desired: Devices)
      requires qmp.objects == attached && Known(attached) && Known(desired)
      modifies this, qmp
      ensures qmp.objects == attached && Known(attached)
      ensures |old(qmp.sent)| <= |qmp.sent| && qmp.sent[..|old(qmp.sent)|] == old(qmp.sent)
      ensures OnlyChanges(qmp.sent[|old(qmp.sent)|..], old(attached), desired)
      ensures AllFollowed(qmp.sent[|old(qmp.sent)|..], old(attached), desired, KNOWN)
      ensures forall role :: Get(attached, role) in {Get(old(attached), role), None, Get(desired, role)}
      ensures AllAccepted(qmp.sent[|old(qmp.sent)|..]) ==> attached == desired
    {
      var n := 0;
      while n < |ROLES|
        invariant n <= |ROLES|
        invariant qmp.objects == attached && Known(attached)
        invariant |old(qmp.sent)| <= |qmp.sent| && qmp.sent[..|old(qmp.sent)|] == old(qmp.sent)
        invariant Turns(qmp.sent[|old(qmp.sent)|..], old(attached), attached, desired, n)
      {
        ghost var mid, belief := qmp.sent, attached;
        ReconcileRole(qmp, ROLES[n], desired);
        JoinStretches(old(qmp.sent), mid, qmp.sent);
        NextTurn(mid[|old(qmp.sent)|..], qmp.sent[|mid|..], old(attached), belief, attached, desired, n);
        n := n + 1;
      }
      AllHandled();
      if AllAccepted(qmp.sent[|old(qmp.sent)|..]) {
        SameEverywhere(attached, desired);
      }
    }

    /** One pass: nothing to do, no connection, or a reconciliation. */
    method Synchronize(qmp: Qemu, desired: Devices, connects: bool)
      requires qmp.objects == attached && Known(attached) && Known(desired)
      modifies this, qmp
      ensures qmp.objects == attached && Known(attached)
      ensures |old(qmp.sent)| <= |qmp.sent| && qmp.sent[..|old(qmp.sent)|] == old(qmp.sent)
      ensures OnlyChanges(qmp.sent[|old(qmp.sent)|..], old(attached), desired)
      ensures forall role :: Get(attached, role) in {Get(old(attached), role), None, Get(desired, role)}
      ensures connects ==> AllFollowed(qmp.sent[|old(qmp.sent)|..], old(attached), desired, KNOWN)
      ensures connects && AllAccepted(qmp.sent[|old(qmp.sent)|..]) ==> attached == desired
      ensures !connects || old(attached) == desired ==> attached == old(attached) && qmp.sent == old(qmp.sent)
    {
      if attached == desired || !connects {
        return;
      }
      Reconcile(qmp, desired);
    }

    /**
     The controller's life: a pass per reading of the host, then a last pass that detaches
     everything.  However commands fail, it never loses track of what the emulator holds.
     `history` is what was attached before each pass and at the end, `marks` how many commands
     had been sent by then.  A pass sends nothing for a role that is right already, and one that
     connects and meets no rejection, the last included, reaches what it was after.
     */
    method RunPasses(qmp: Qemu, hosts: seq<Host>, connects: seq<bool>)
      returns (ghost history: seq<Devices>, ghost marks: seq<nat>)
      requires |connects| == |hosts| + 1
      requires forall i :: 0 <= i < |hosts| ==> Listing(hosts[i].joysticks)
      requires attached == map[] && qmp.objects == map[] && qmp.sent == []
      modifies this, qmp
      ensures qmp.objects == attached
      ensures |history| == |marks| == |hosts| + 2 && history[0] == map[] && history[|hosts| + 1] == attached
      ensures marks[0] == 0 && marks[|hosts| + 1] == |qmp.sent|
      ensures PassesSoFar(qmp.sent, hosts, connects, history, marks, |hosts|)
      ensures Passed(qmp.sent, marks[|hosts|], |qmp.sent|, history[|hosts|], map[], attached, connects[|hosts|])
    {
      history, marks := [attached], [0];
      for i := 0 to |hosts|
        invariant qmp.objects == attached && Known(attached) && PathsOnce(attached)
        invariant |history| == |marks| == i + 1 && history[0] == map[] && history[i] == attached
        invariant marks[0] == 0 && marks[i] == |qmp.sent|
        invariant PassesSoFar(qmp.sent, hosts, connects, history, marks, i)
      {
        ghost var sent := qmp.sent;
        KnownSlots(attached);
        AllKeptWhenLeading(hosts[i], attached);
        Pass(qmp, hosts[i], connects[i]);
        OneMorePass(sent, qmp.sent, hosts, connects, history, marks, i, attached);
        history, marks := history + [attached], marks + [|qmp.sent|];
      }
      ghost var sent := qmp.sent;
      Synchronize(qmp, map[], connects[|hosts|]);
      assert qmp.sent[|sent|..] == qmp.sent[|sent|..|qmp.sent|];
      LastPass(sent, qmp.sent, hosts, connects, history, marks, attached);
      history, marks := history + [attached], marks + [|qmp.sent|];
    }

    /** One reading of the host and what follows from it. */
    method Pass(qmp: Qemu, host: Host, connects: bool)
      requires Listing(host.joysticks) && qmp.objects == attached && Known(attached) && PathsOnce(attached)
      modifies this, qmp
      ensures qmp.objects == attached && Known(attached) && PathsOnce(attached)
      ensures |old(qmp.sent)| <= |qmp.sent| && qmp.sent[..|old(qmp.sent)|] == old(qmp.sent)
      ensures Passed(qmp.sent, |old(qmp.sent)|, |qmp.sent|, old(attached), Discovered(host, old(attached)), attached,
                     connects)
    {
      var desired := Discover(host, attached);
      DiscoveredKnown(host, attached);
      Synchronize(qmp, desired, connects);
      MixedOnce(host, old(attached), attached);
      assert qmp.sent[|old(qmp.sent)|..] == qmp.sent[|old(qmp.sent)|..|qmp.sent|];
    }
  }

  /** The commands of one pass, and what it comes to. */
  ghost predicate Passed(sent: seq<(Command, bool)>, from: nat, to: nat, before: Devices, desired: Devices,
                         after: Devices, connects: bool) {
    && from <= to <= |sent| && OnlyChanges(sent[from..to], before, desired)
    && (forall role :: Get(after, role) in {Get(before, role), None, Get(desired, role)})
    && (connects ==> AllFollowed(sent[from..to], before, desired, KNOWN))
    && (connects && AllAccepted(sent[from..to]) ==> after == desired)
    && (!connects ==> from == to && after == before)
  }

  /** What is known of the first `n` readings of the host. */
  ghost predicate PassesSoFar(sent: seq<(Command, bool)>, hosts: seq<Host>, connects: seq<bool>,
                              history: seq<Devices>, marks: seq<nat>, n: nat)
    requires n <= |hosts| <= |connects| && n < |history| && n < |marks|
  {
    forall i :: 0 <= i < n ==>
      && SlotsKeptWhenLeading(hosts[i], history[i])
      && Passed(sent, marks[i], marks[i + 1], history[i], Discovered(hosts[i], history[i]), history[i + 1], connects[i])
  }

  lemma SliceOfPrefix<T>(s: seq<T>, t: seq<T>, from: nat, to: nat)
    requires |s| <= |t| && t[..|s|] == s && from <= to <= |s|
    ensures t[from..to] == s[from..to]
  {
    forall k | 0 <= k < to - from ensures t[from..to][k] == s[from..to][k] {
      assert t[..|s|][from + k] == s[from + k];
    }
  }

  /** Later commands do not change what a pass was. */
  lemma PassedStill(sent: seq<(Command, bool)>, more: seq<(Command, bool)>, from: nat, to: nat,
                    before: Devices, desired: Devices, after: Devices, connects: bool)
    requires |sent| <= |more| && more[..|sent|] == sent
    requires Passed(sent, from, to, before, desired, after, connects)
    ensures Passed(more, from, to, before, desired, after, connects)
  {
    SliceOfPrefix(sent, more, from, to);
  }

  lemma LastPass(sent: seq<(Command, bool)>, more: seq<(Command, bool)>, hosts: seq<Host>, connects: seq<bool>,
                 history: seq<Devices>, marks: seq<nat>, after: Devices)
    requires |hosts| < |connects| && |history| == |marks| == |hosts| + 1
    requires |sent| <= |more| && more[..|sent|] == sent
    requires PassesSoFar(sent, hosts, connects, history, marks, |hosts|)
    ensures PassesSoFar(more, hosts, connects, history + [after], marks + [|more|], |hosts|)
  {
    var h, m := history + [after], marks + [|more|];
    forall k | 0 <= k < |hosts|
      ensures SlotsKeptWhenLeading(hosts[k], h[k])
      ensures Passed(more, m[k], m[k + 1], h[k], Discovered(hosts[k], h[k]), h[k + 1], connects[k])
    {
      PassedStill(sent, more, marks[k], marks[k + 1], history[k], Discovered(hosts[k], history[k]), history[k + 1],
                  connects[k]);
    }
  }

  lemma OneMorePass(sent: seq<(Command, bool)>, more: seq<(Command, bool)>, hosts: seq<Host>, connects: seq<bool>,
                    history: seq<Devices>, marks: seq<nat>, i: nat, after: Devices)
    requires i < |hosts| < |connects| && |history| == |marks| == i + 1 && marks[i] == |sent|
    requires |sent| <= |more| && more[..|sent|] == sent
    requires PassesSoFar(sent, hosts, connects, history, marks, i)
    requires SlotsKeptWhenLeading(hosts[i], history[i])
    requires Passed(more, marks[i], |more|, history[i], Discovered(hosts[i], history[i]), after, connects[i])
    ensures PassesSoFar(more, hosts, connects, history + [after], marks + [|more|], i + 1)
  {
    var h, m := history + [after], marks + [|more|];
    forall k | 0 <= k < i + 1
      ensures SlotsKeptWhenLeading(hosts[k], h[k])
      ensures Passed(more, m[k], m[k + 1], h[k], Discovered(hosts[k], h[k]), h[k + 1], connects[k])
    {
      if k < i {
        PassedStill(sent, more, marks[k], marks[k + 1], history[k], Discovered(hosts[k], history[k]), history[k + 1],
                    connects[k]);
      }
    }
  }

  lemma KnownSlots(devices: Devices)
    requires Known(devices)
    ensures forall s: nat :: Gamepad(s) in devices ==> s < GAMEPAD_LIMIT
  {
    forall s: nat | Gamepad(s) in devices ensures s < GAMEPAD_LIMIT {
      assert Gamepad(s) in KNOWN;
    }
  }

  lemma DiscoveredKnown(host: Host, attached: Devices)
    requires Listing(host.joysticks)
    ensures Known(Discovered(host, attached))
  {
    AllocatedShared(host, attached);
    SettledSingles(host, attached);
    forall role | role in Discovered(host, attached) ensures role in KNOWN {
      match role
      case Gamepad(s) => assert s < GAMEPAD_LIMIT;
      case _ =>
    }
  }
}
