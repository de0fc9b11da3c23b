/**
 * Two of the native client's address-keyed object lists:
 *   - the scan-device list (`g_deviceList`): the `BluetoothDevice` objects
 *     found while scanning, at most one per address;
 *   - the GATT-object list (`g_gattObjectList`): the connected
 *     `BluetoothGatt` objects, at most one per remote address.
 * Each list may be missing (a NULL pointer): it is created once and freed
 * at teardown. The two lists answer a missing list differently, and the
 * status codes below keep those differences.
 */
module AddressLists {
  import opened BtTypes
  import opened KeyedList

  /** The key the scan-device list is searched by. */
  function DeviceAddress(d: Device): Address {
    d.address
  }

  class ScanDeviceList {
    /** `g_deviceList != NULL`. */
    var isCreated: bool
    var devices: seq<Device>
    /** `g_isStartedScan`, which a failed add clears. */
    var isStartedScan: bool

    ghost predicate Valid()
      reads this
    {
      (!isCreated ==> devices == []) && Unique(devices, DeviceAddress)
    }

    /** The list is missing until it is created. */
    constructor (scanning: bool)
      ensures Valid() && !isCreated && isStartedScan == scanning
    {
      isCreated := false;
      devices := [];
      isStartedScan := scanning;
    }

    /**
     * `CALEClientCreateScanDeviceList`, and the scan-list part of
     * `CALEClientCreateDeviceList`: creates the list only if it is missing.
     */
    method Create()
      requires Valid()
      modifies this
      ensures Valid() && isCreated
      ensures devices == old(devices) && isStartedScan == old(isStartedScan)
    {
      if !isCreated {
        isCreated := true;
        devices := [];
      }
    }

    /**
     * `CALEClientIsDeviceInScanDeviceList`: a missing list answers "already
     * there", so that nothing is ever added to it.
     */
    method IsDeviceInScanDeviceList(address: Address) returns (found: bool)
      requires Valid()
      ensures found <==> !isCreated || Has(devices, DeviceAddress, address)
    {
      if !isCreated {
        return true;
      }
      var index := 0;
      while index < |devices|
        invariant 0 <= index <= |devices|
        invariant forall j :: 0 <= j < index ==> devices[j].address != address
      {
        if devices[index].address == address {
          return true;
        }
        index := index + 1;
      }
      return false;
    }

    /**
     * `CALEClientAddScanDeviceToList`: on a missing list the scan flag is
     * cleared and the call fails; otherwise the device is appended unless a
     * device with its address is listed already.
     */
    method AddScanDeviceToList(device: Device) returns (res: CAResult)
      requires Valid()
      modifies this
      ensures Valid() && isCreated == old(isCreated)
      ensures res == if old(isCreated) then StatusOk else StatusFailed
      ensures devices == if old(isCreated) then AddIfAbsent(old(devices), DeviceAddress, device) else old(devices)
      ensures isStartedScan == (old(isCreated) && old(isStartedScan))
    {
      if !isCreated {
        isStartedScan := false;
        return StatusFailed;
      }
      var inList := IsDeviceInScanDeviceList(device.address);
      if !inList {
        devices := devices + [device];
      }
      AddIfAbsentUnique(old(devices), DeviceAddress, device);
      return StatusOk;
    }

    /** `CALEClientRemoveAllScanDevices`: frees the list, which is missing afterwards. */
    method RemoveAllScanDevices() returns (res: CAResult)
      requires Valid()
      modifies this
      ensures Valid() && !isCreated && devices == []
      ensures isStartedScan == old(isStartedScan)
      ensures res == if old(isCreated) then StatusOk else StatusFailed
    {
      if !isCreated {
        return StatusFailed;
      }
      isCreated := false;
      devices := [];
      return StatusOk;
    }

    /**
     * `CALEClientRemoveDeviceInScanDeviceList`: removes the first device with
     * the address; an unknown address still succeeds.
     */
    method RemoveDeviceInScanDeviceList(address: Address) returns (res: CAResult)
      requires Valid()
      modifies this
      ensures Valid() && isCreated == old(isCreated)
      ensures isStartedScan == old(isStartedScan)
      ensures res == if old(isCreated) then StatusOk else StatusFailed
      ensures devices == RemoveFirst(old(devices), DeviceAddress, address)
    {
      if !isCreated {
        return StatusFailed;
      }
      var index := 0;
      while index < |devices|
        invariant 0 <= index <= |devices|
        invariant Find(devices, DeviceAddress, address) == FindFrom(devices, DeviceAddress, address, index)
      {
        if devices[index].address == address {
          devices := RemoveAt(devices, index);
          RemoveFirstUnique(old(devices), DeviceAddress, address);
          return StatusOk;
        }
        index := index + 1;
      }
      return StatusOk;
    }
  }

  /** What `CALEClientGetGattObjInList` answers: the first GATT object for the address. */
  function GattFor(gatts: seq<Gatt>, address: Address): (r: Option<Gatt>)
    ensures r.Some? ==> r.value in gatts && GattAddress(r.value) == address
    ensures r.None? <==> !Has(gatts, GattAddress, address)
  {
    FindIffHas(gatts, GattAddress, address);
    match Find(gatts, GattAddress, address)
    case Some(i) => Some(gatts[i])
    case None => None
  }

  /** The status `CALEClientRemoveGattObjForAddr` returns. */
  function RemoveForAddrStatus(created: bool, gatts: seq<Gatt>, address: Address): CAResult {
    if created && !Has(gatts, GattAddress, address) then StatusFailed else StatusOk
  }

  class GattObjectList {
    /** `g_gattObjectList != NULL`. */
    var isCreated: bool
    var gatts: seq<Gatt>

    ghost predicate Valid()
      reads this
    {
      (!isCreated ==> gatts == []) && Unique(gatts, GattAddress)
    }

    /** The list is missing until it is created. */
    constructor ()
      ensures Valid() && !isCreated
    {
      isCreated := false;
      gatts := [];
    }

    /** The GATT-list part of `CALEClientCreateDeviceList`: creates the list only if it is missing. */
    method Create()
      requires Valid()
      modifies this
      ensures Valid() && isCreated
      ensures gatts == old(gatts)
    {
      if !isCreated {
        isCreated := true;
        gatts := [];
      }
    }

    /**
     * `CALEClientIsGattObjInList`. It does not test for a missing list; the
     * length of a missing list reads as 0, so the answer is then "not there".
     */
    method IsGattObjInList(address: Address) returns (found: bool)
      requires Valid()
      ensures found <==> Has(gatts, GattAddress, address)
    {
      var index := 0;
      while index < |gatts|
        invariant 0 <= index <= |gatts|
        invariant forall j :: 0 <= j < index ==> GattAddress(gatts[j]) != address
      {
        if gatts[index].device.address == address {
          return true;
        }
        index := index + 1;
      }
      return false;
    }

    /** `CALEClientGetGattObjInList`. */
    method GetGattObjInList(address: Address) returns (r: Option<Gatt>)
      requires Valid()
      ensures r == GattFor(gatts, address)
    {
      var index := 0;
      while index < |gatts|
        invariant 0 <= index <= |gatts|
        invariant Find(gatts, GattAddress, address) == FindFrom(gatts, GattAddress, address, index)
      {
        if gatts[index].device.address == address {
          return Some(gatts[index]);
        }
        index := index + 1;
      }
      return None;
    }

    /**
     * `CALEClientAddGattobjToList`: fails on a missing list; otherwise the
     * object is appended unless an object for its address is listed already.
     */
    method AddGattobjToList(gatt: Gatt) returns (res: CAResult)
      requires Valid()
      modifies this
      ensures Valid() && isCreated == old(isCreated)
      ensures res == if old(isCreated) then StatusOk else StatusFailed
      ensures gatts == if old(isCreated) then AddIfAbsent(old(gatts), GattAddress, gatt) else old(gatts)
    {
      if !isCreated {
        return StatusFailed;
      }
      var inList := IsGattObjInList(GattAddress(gatt));
      if !inList {
        gatts := gatts + [gatt];
      }
      AddIfAbsentUnique(old(gatts), GattAddress, gatt);
      return StatusOk;
    }

    /** `CALEClientRemoveAllGattObjs`: frees the list; a missing list is not an error here. */
    method RemoveAllGattObjs() returns (res: CAResult)
      requires Valid()
      modifies this
      ensures Valid() && !isCreated && gatts == []
      ensures res == StatusOk
    {
      if !isCreated {
        return StatusOk;
      }
      isCreated := false;
      gatts := [];
      return StatusOk;
    }

    /** The search-and-remove loop both removals share; reports whether it found the address. */
    method RemoveFirstFor(address: Address) returns (removed: bool)
      requires Valid()
      modifies this
      ensures Valid() && isCreated == old(isCreated)
      ensures removed <==> Has(old(gatts), GattAddress, address)
      ensures gatts == RemoveFirst(old(gatts), GattAddress, address)
    {
      FindIffHas(gatts, GattAddress, address);
      var index := 0;
      while index < |gatts|
        invariant 0 <= index <= |gatts|
        invariant gatts == old(gatts)
        invariant Find(gatts, GattAddress, address) == FindFrom(gatts, GattAddress, address, index)
      {
        if gatts[index].device.address == address {
          gatts := RemoveAt(gatts, index);
          RemoveFirstUnique(old(gatts), GattAddress, address);
          return true;
        }
        index := index + 1;
      }
      return false;
    }

    /**
     * `CALEClientRemoveGattObj`: removes the first object with the address of
     * `gatt`; a missing list and an unknown address both succeed.
     */
    method RemoveGattObj(gatt: Gatt) returns (res: CAResult)
      requires Valid()
      modifies this
      ensures Valid() && isCreated == old(isCreated)
      ensures res == StatusOk
      ensures gatts == RemoveFirst(old(gatts), GattAddress, GattAddress(gatt))
    {
      if !isCreated {
        return StatusOk;
      }
      var _ := RemoveFirstFor(GattAddress(gatt));
      return StatusOk;
    }

    /**
     * `CALEClientRemoveGattObjForAddr`: like `RemoveGattObj`, except that an
     * address not in an existing list is reported as a failure.
     */
    method RemoveGattObjForAddr(address: Address) returns (res: CAResult)
      requires Valid()
      modifies this
      ensures Valid() && isCreated == old(isCreated)
      ensures res == RemoveForAddrStatus(old(isCreated), old(gatts), address)
      ensures gatts == RemoveFirst(old(gatts), GattAddress, address)
    {
      if !isCreated {
        return StatusOk;
      }
      var removed := RemoveFirstFor(address);
      return if removed then StatusOk else StatusFailed;
    }
  }

  // ---------------------------------------------------------------------------
  // Properties of the specification functions

  /**
   * The first object added for an address is the one the list keeps: a later
   * add of another object for the same address leaves the lookup unchanged,
   * and an add for a new address makes that object the answer.
   */
  lemma FirstGattWins(gatts: seq<Gatt>, g: Gatt)
    requires Unique(gatts, GattAddress)
    ensures GattFor(AddIfAbsent(gatts, GattAddress, g), GattAddress(g))
         == if Has(gatts, GattAddress, GattAddress(g)) then GattFor(gatts, GattAddress(g)) else Some(g)
  {
    var a := GattAddress(g);
    var r := AddIfAbsent(gatts, GattAddress, g);
    if !Has(gatts, GattAddress, a) {
      AddIfAbsentUnique(gatts, GattAddress, g);
      assert r[|gatts|] == g;
      FindInUnique(r, GattAddress, a, |gatts|);
    }
  }

  /** An add never disturbs the lookup of another address. */
  lemma AddKeepsOtherLookups(gatts: seq<Gatt>, g: Gatt, other: Address)
    requires other != GattAddress(g)
    ensures GattFor(AddIfAbsent(gatts, GattAddress, g), other) == GattFor(gatts, other)
  {
    var r := AddIfAbsent(gatts, GattAddress, g);
    if r != gatts {
      assert r == gatts + [g];
      FindPrefix(gatts, g, other, 0);
    }
  }

  /** Appending an element keyed differently does not change where a search stops. */
  lemma {:induction false} FindPrefix(gatts: seq<Gatt>, g: Gatt, k: Address, from: nat)
    requires from <= |gatts| && GattAddress(g) != k
    decreases |gatts| - from
    ensures FindFrom(gatts + [g], GattAddress, k, from) == FindFrom(gatts, GattAddress, k, from)
  {
    var r := gatts + [g];
    if from < |gatts| {
      assert r[from] == gatts[from];
      FindPrefix(gatts, g, k, from + 1);
    } else {
      assert r[from] == g;
      assert FindFrom(r, GattAddress, k, from + 1) == None;
    }
  }

  /** After a removal by address nothing is found for it, and other lookups are unchanged. */
  lemma RemoveForgetsGatt(gatts: seq<Gatt>, address: Address, other: Address)
    requires Unique(gatts, GattAddress)
    ensures GattFor(RemoveFirst(gatts, GattAddress, address), address) == None
    ensures other != address ==>
      GattFor(RemoveFirst(gatts, GattAddress, address), other) == GattFor(gatts, other)
  {
    var r := RemoveFirst(gatts, GattAddress, address);
    RemoveFirstUnique(gatts, GattAddress, address);
    if other != address {
      FindIffHas(gatts, GattAddress, other);
      match Find(gatts, GattAddress, other)
      case None =>
      case Some(i) =>
        var j :| 0 <= j < |r| && GattAddress(r[j]) == other;
        FindInUnique(r, GattAddress, other, j);
        assert r[j] in gatts;
        var k :| 0 <= k < |gatts| && gatts[k] == r[j];
        FindInUnique(gatts, GattAddress, other, k);
    }
  }

  /**
   * On an existing list, the address-based removal fails exactly when the
   * address is not listed, and then the list is left as it was.
   */
  lemma RemoveForAddrFailsIffAbsent(gatts: seq<Gatt>, address: Address)
    ensures RemoveForAddrStatus(true, gatts, address) == StatusFailed
        <==> !Has(gatts, GattAddress, address)
    ensures RemoveForAddrStatus(true, gatts, address) == StatusFailed
        ==> RemoveFirst(gatts, GattAddress, address) == gatts
  {
    FindIffHas(gatts, GattAddress, address);
  }
}
