/**
 * `CaLeClientInterface`: the Java side of the Android BLE client. It turns
 * the platform's scan, GATT and broadcast callbacks into calls of the native
 * client, keeps the latest `BluetoothGatt` of each remote address in
 * `mBluetoothGatts`, and disconnects those GATT objects on request.
 *
 * The static state of the Java class is the state of one `ClientInterface`
 * object: the address map, and the sequence of calls made so far (native
 * callbacks and `BluetoothGatt.disconnect`), in the order they were made.
 */
module LeClientInterface {
  import opened BtTypes
  import opened UuidText
  import opened AdParser

  // ---------------------------------------------------------------------------
  // The service UUID

  /** `SERVICE_UUID`, spelt as the source spells it: upper case; here written group by group. */
  const ServiceUuidString: string := "ADE3D529" + "-" + "C784" + "-" + "4F63" + "-" + "A987" + "-" + "EB69F70EE816"

  /** The UUID that `SERVICE_UUID` names. */
  const ServiceUuid: Uuid := Uuid(0xADE3_D529_C784_4F63, 0xA987_EB69_F70E_E816)

  /** The three groups of the service UUID's high word, one digit at a time. */
  lemma ServiceHighGroups()
    ensures Hex(0xade3d529, 8) == "ade3d529"
    ensures Hex(0xc784, 4) == "c784"
    ensures Hex(0x4f63, 4) == "4f63"
  {
    assert Hex(0xa, 1) == "a";
    assert Hex(0xad, 2) == "ad";
    assert Hex(0xade, 3) == "ade";
    assert Hex(0xade3, 4) == "ade3";
    assert Hex(0xade3d, 5) == "ade3d";
    assert Hex(0xade3d5, 6) == "ade3d5";
    assert Hex(0xade3d52, 7) == "ade3d52";
    assert Hex(0xc, 1) == "c";
    assert Hex(0xc7, 2) == "c7";
    assert Hex(0xc78, 3) == "c78";
    assert Hex(0x4, 1) == "4";
    assert Hex(0x4f, 2) == "4f";
    assert Hex(0x4f6, 3) == "4f6";
  }

  /** The two groups of the service UUID's low word, one digit at a time. */
  lemma ServiceLowGroups()
    ensures Hex(0xa987, 4) == "a987"
    ensures Hex(0xeb69f70ee816, 12) == "eb69f70ee816"
  {
    assert Hex(0xa, 1) == "a";
    assert Hex(0xa9, 2) == "a9";
    assert Hex(0xa98, 3) == "a98";
    assert Hex(0xe, 1) == "e";
    assert Hex(0xeb, 2) == "eb";
    assert Hex(0xeb6, 3) == "eb6";
    assert Hex(0xeb69, 4) == "eb69";
    assert Hex(0xeb69f, 5) == "eb69f";
    assert Hex(0xeb69f7, 6) == "eb69f7";
    assert Hex(0xeb69f70, 7) == "eb69f70";
    assert Hex(0xeb69f70e, 8) == "eb69f70e";
    assert Hex(0xeb69f70ee, 9) == "eb69f70ee";
    assert Hex(0xeb69f70ee8, 10) == "eb69f70ee8";
    assert Hex(0xeb69f70ee81, 11) == "eb69f70ee81";
  }

  /** The canonical text of the service UUID. */
  lemma ServiceUuidText()
    ensures ToString(ServiceUuid) == "ade3d529" + "-" + "c784" + "-" + "4f63" + "-" + "a987" + "-" + "eb69f70ee816"
  {
    var u := ServiceUuid;
    assert u.msb / 0x1_0000_0000 == 0xade3d529;
    assert (u.msb / 0x1_0000) % 0x1_0000 == 0xc784;
    assert u.msb % 0x1_0000 == 0x4f63;
    assert u.lsb / 0x1_0000_0000_0000 == 0xa987;
    assert u.lsb % 0x1_0000_0000_0000 == 0xeb69f70ee816;
    ServiceHighGroups();
    ServiceLowGroups();
  }

  /** The upper-case groups of `SERVICE_UUID`, lower-cased. */
  lemma LowerServiceGroups()
    ensures ToLower("ADE3D529") == "ade3d529"
    ensures ToLower("-") == "-"
    ensures ToLower("C784") == "c784"
    ensures ToLower("4F63") == "4f63"
    ensures ToLower("A987") == "a987"
    ensures ToLower("EB69F70EE816") == "eb69f70ee816"
  {
  }

  /** `SERVICE_UUID.toLowerCase()` is the canonical text of the service UUID. */
  lemma LowerServiceText()
    ensures ToLower(ServiceUuidString) == ToString(ServiceUuid)
  {
    ServiceUuidText();
    LowerServiceGroups();
    var g1, g2, g3, g4, g5 := "ADE3D529", "C784", "4F63", "A987", "EB69F70EE816";
    ToLowerAppend(g1, "-");
    ToLowerAppend(g1 + "-", g2);
    ToLowerAppend(g1 + "-" + g2, "-");
    ToLowerAppend(g1 + "-" + g2 + "-", g3);
    ToLowerAppend(g1 + "-" + g2 + "-" + g3, "-");
    ToLowerAppend(g1 + "-" + g2 + "-" + g3 + "-", g4);
    ToLowerAppend(g1 + "-" + g2 + "-" + g3 + "-" + g4, "-");
    ToLowerAppend(g1 + "-" + g2 + "-" + g3 + "-" + g4 + "-", g5);
  }

  /** The test `onLeScan` applies to each parsed UUID. */
  predicate IsServiceMatch(u: Uuid) {
    Contains(ToString(u), ToLower(ServiceUuidString))
  }

  /**
   * The containment test matches exactly one UUID, the service UUID: both
   * texts are 36 characters long, so containment is equality, and the text of
   * a UUID determines it.
   */
  lemma ServiceMatchIff(u: Uuid)
    ensures IsServiceMatch(u) <==> u == ServiceUuid
  {
    LowerServiceText();
    ContainsSameLength(ToString(u), ToString(ServiceUuid));
    if ToString(u) == ToString(ServiceUuid) {
      ToStringInjective(u, ServiceUuid);
    }
  }

  // ---------------------------------------------------------------------------
  // Calls and events

  /** A call this layer makes: a native callback of the client, or `BluetoothGatt.disconnect`. */
  datatype Call =
    | LeScanFound(device: Device)                                           // caLeScanCallback
    | GattConnectionStateChanged(gatt: Gatt, status: int, newState: int)    // caLeGattConnectionStateChangeCallback
    | ManagerConnectionStateChanged(gatt: Gatt, status: int, newState: int) // caManagerLeGattConnectionStateChangeCB
    | NwConnectionStateChanged(gatt: Gatt, status: int, newState: int)      // caLeGattNWConnectionStateChangeCallback
    | ServicesDiscovered(gatt: Gatt, status: int)                           // caLeGattServicesDiscoveredCallback
    | ManagerServicesDiscovered(gatt: Gatt, status: int)                    // caManagerLeServicesDiscoveredCallback
    | CharacteristicWritten(gatt: Gatt, data: seq<JByte>, status: int)      // caLeGattCharacteristicWriteCallback
    | CharacteristicChanged(gatt: Gatt, data: seq<JByte>)                   // caLeGattCharacteristicChangedCallback
    | DescriptorWritten(gatt: Gatt, descriptor: nat, status: int)           // caLeGattDescriptorWriteCallback
    | ManagerRemoteRssi(gatt: Gatt, rssi: int, status: int)                 // caManagerLeRemoteRssiCallback
    | MtuChanged(gatt: Gatt, mtu: int, status: int)                         // caLeGattMtuChangedCallback
    | LeStateChanged(state: int)                                            // caLeStateChangedCallback
    | ManagerAdapterStateChanged(state: int)                                // caManagerAdapterStateChangedCallback
    | BondStateChanged(bondDevice: Option<Device>, bondState: int, prevBondState: int) // caLeBondStateChangedCallback
    | GattDisconnect(gatt: Gatt)                                            // BluetoothGatt.disconnect()

  /** The calls that go to the connection manager (`caManager...`). */
  predicate IsManagerCall(c: Call) {
    c.ManagerConnectionStateChanged? || c.ManagerServicesDiscovered? || c.ManagerRemoteRssi?
      || c.ManagerAdapterStateChanged?
  }

  /** The GATT object a call is about, if it is about one. */
  function CallGatt(c: Call): Option<Gatt> {
    match c
    case LeScanFound(_) => None
    case LeStateChanged(_) => None
    case ManagerAdapterStateChanged(_) => None
    case BondStateChanged(_, _, _) => None
    case _ => Some(c.gatt)
  }

  /**
   * A `BluetoothGattCallback` event: the callback method and its arguments
   * other than the GATT object. A characteristic is seen only through its
   * value, a descriptor only through its identity.
   */
  datatype GattEvent =
    | OnConnectionStateChange(status: int, newState: int)
    | OnServicesDiscovered(status: int)
    | OnCharacteristicRead(status: int)
    | OnCharacteristicWrite(value: seq<JByte>, status: int)
    | OnCharacteristicChanged(value: seq<JByte>)
    | OnDescriptorRead(status: int)
    | OnDescriptorWrite(descriptor: nat, status: int)
    | OnReliableWriteCompleted(status: int)
    | OnReadRemoteRssi(rssi: int, status: int)
    | OnMtuChanged(mtu: int, status: int)

  /** The native calls a GATT callback makes, in order. */
  function GattSinks(gatt: Gatt, e: GattEvent): seq<Call> {
    match e
    case OnConnectionStateChange(status, newState) =>
      [GattConnectionStateChanged(gatt, status, newState),
       ManagerConnectionStateChanged(gatt, status, newState),
       NwConnectionStateChanged(gatt, status, newState)]
    case OnServicesDiscovered(status) =>
      [ServicesDiscovered(gatt, status), ManagerServicesDiscovered(gatt, status)]
    case OnCharacteristicRead(_) => []
    case OnCharacteristicWrite(value, status) => [CharacteristicWritten(gatt, value, status)]
    case OnCharacteristicChanged(value) => [CharacteristicChanged(gatt, value)]
    case OnDescriptorRead(_) => []
    case OnDescriptorWrite(descriptor, status) => [DescriptorWritten(gatt, descriptor, status)]
    case OnReliableWriteCompleted(_) => []
    case OnReadRemoteRssi(rssi, status) => [ManagerRemoteRssi(gatt, rssi, status)]
    case OnMtuChanged(mtu, status) => [MtuChanged(gatt, mtu, status)]
  }

  /** Every call a GATT callback makes is about the GATT object it was given. */
  lemma GattSinksAboutGatt(gatt: Gatt, e: GattEvent)
    ensures forall i :: 0 <= i < |GattSinks(gatt, e)| ==> CallGatt(GattSinks(gatt, e)[i]) == Some(gatt)
  {
  }

  /** A GATT callback makes no native call exactly for a read, a descriptor read and a completed reliable write. */
  lemma SilentGattEvents(gatt: Gatt, e: GattEvent)
    ensures GattSinks(gatt, e) == []
        <==> e.OnCharacteristicRead? || e.OnDescriptorRead? || e.OnReliableWriteCompleted?
  {
  }

  /**
   * The connection manager hears of a connection change, a service discovery
   * and an RSSI reading, always as the last call of the callback, and of no
   * other GATT event.
   */
  lemma ManagerGattEvents(gatt: Gatt, e: GattEvent)
    ensures (exists i :: 0 <= i < |GattSinks(gatt, e)| && IsManagerCall(GattSinks(gatt, e)[i]))
        <==> e.OnConnectionStateChange? || e.OnServicesDiscovered? || e.OnReadRemoteRssi?
    ensures e.OnServicesDiscovered? || e.OnReadRemoteRssi?
        ==> IsManagerCall(GattSinks(gatt, e)[|GattSinks(gatt, e)| - 1])
  {
    var calls := GattSinks(gatt, e);
    if e.OnConnectionStateChange? {
      assert IsManagerCall(calls[1]);
    } else if e.OnServicesDiscovered? || e.OnReadRemoteRssi? {
      assert IsManagerCall(calls[|calls| - 1]);
    }
  }

  /** The map after GATT callbacks with the objects `gs`, in order, starting from `m`. */
  function Recorded(m: map<Address, Gatt>, gs: seq<Gatt>): map<Address, Gatt> {
    if gs == [] then m
    else
      var last := gs[|gs| - 1];
      Recorded(m, gs[..|gs| - 1])[GattAddress(last) := last]
  }

  /** After a run of callbacks the map holds, for an address, the GATT object of the latest callback from it. */
  lemma {:induction false} RecordedLatest(m: map<Address, Gatt>, gs: seq<Gatt>, i: nat)
    requires i < |gs|
    requires forall j :: i < j < |gs| ==> GattAddress(gs[j]) != GattAddress(gs[i])
    ensures GattAddress(gs[i]) in Recorded(m, gs)
    ensures Recorded(m, gs)[GattAddress(gs[i])] == gs[i]
  {
    if i < |gs| - 1 {
      RecordedLatest(m, gs[..|gs| - 1], i);
    }
  }

  /** The callbacks only ever add addresses: the map's keys are the old keys and the addresses called back from. */
  lemma {:induction false} RecordedKeys(m: map<Address, Gatt>, gs: seq<Gatt>, a: Address)
    ensures a in Recorded(m, gs) <==> a in m || exists j :: 0 <= j < |gs| && GattAddress(gs[j]) == a
  {
    if gs != [] {
      var init := gs[..|gs| - 1];
      RecordedKeys(m, init, a);
      if exists j :: 0 <= j < |init| && GattAddress(init[j]) == a {
        var j :| 0 <= j < |init| && GattAddress(init[j]) == a;
        assert gs[j] == init[j];
      }
      if exists j :: 0 <= j < |gs| && GattAddress(gs[j]) == a {
        var j :| 0 <= j < |gs| && GattAddress(gs[j]) == a;
        if j < |gs| - 1 {
          assert init[j] == gs[j];
        }
      }
    }
  }

  // ---------------------------------------------------------------------------
  // Broadcasts

  const ActionStateChanged: string := "android.bluetooth.adapter.action.STATE_CHANGED"
  const ActionBondStateChanged: string := "android.bluetooth.device.action.BOND_STATE_CHANGED"
  const ExtraState: string := "android.bluetooth.adapter.extra.STATE"
  const ExtraBondState: string := "android.bluetooth.device.extra.BOND_STATE"
  const ExtraPreviousBondState: string := "android.bluetooth.device.extra.PREVIOUS_BOND_STATE"

  /** `BluetoothAdapter.STATE_OFF`, `STATE_TURNING_ON`, `STATE_ON`, `STATE_TURNING_OFF`. */
  const StateOff: int := 10
  const StateTurningOn: int := 11
  const StateOn: int := 12
  const StateTurningOff: int := 13
  /** `BluetoothDevice.BOND_NONE` and `BOND_BONDED`. */
  const BondNone: int := 10
  const BondBonded: int := 12
  /** `BluetoothAdapter.ERROR` and `BluetoothDevice.ERROR`: `Integer.MIN_VALUE`. */
  const Error: int := -0x8000_0000

  /** A broadcast `Intent`: its action (possibly null), its int extras and its device extra. */
  datatype Intent = Intent(action: Option<string>, extras: map<string, int>, device: Option<Device>)

  /** `intent.getIntExtra(name, fallback)`. */
  function IntExtra(intent: Intent, name: string, fallback: int): int {
    if name in intent.extras then intent.extras[name] else fallback
  }

  /** The adapter states that are forwarded to the client. */
  predicate IsForwardedState(state: int) {
    state == StateOn || state == StateOff || state == StateTurningOff
  }

  /** The native calls `mReceiver.onReceive` makes for an intent, in order. */
  function ReceiverCalls(intent: Intent): seq<Call> {
    var state := IntExtra(intent, ExtraState, Error);
    var adapterCalls :=
      if intent.action == Some(ActionStateChanged) && IsForwardedState(state)
      then [LeStateChanged(state), ManagerAdapterStateChanged(state)]
      else [];
    var bondCalls :=
      if intent.action == Some(ActionBondStateChanged)
      then [BondStateChanged(intent.device, IntExtra(intent, ExtraBondState, Error),
                             IntExtra(intent, ExtraPreviousBondState, Error))]
      else [];
    adapterCalls + bondCalls
  }

  /**
   * The adapter state reaches the client exactly for a state-changed intent
   * whose state is ON, OFF or TURNING_OFF, and then first to the network
   * monitor and second to the connection manager.
   */
  lemma AdapterStateForwarded(intent: Intent)
    ensures (exists i :: 0 <= i < |ReceiverCalls(intent)| && ReceiverCalls(intent)[i].LeStateChanged?)
        <==> intent.action == Some(ActionStateChanged) && IsForwardedState(IntExtra(intent, ExtraState, Error))
    ensures intent.action == Some(ActionStateChanged) && IsForwardedState(IntExtra(intent, ExtraState, Error))
        ==> |ReceiverCalls(intent)| == 2
            && ReceiverCalls(intent)[0].LeStateChanged?
            && ReceiverCalls(intent)[1].ManagerAdapterStateChanged?
            && ReceiverCalls(intent)[0].state == ReceiverCalls(intent)[1].state == IntExtra(intent, ExtraState, Error)
  {
    var calls := ReceiverCalls(intent);
    if intent.action == Some(ActionStateChanged) && IsForwardedState(IntExtra(intent, ExtraState, Error)) {
      assert calls[0].LeStateChanged?;
    }
  }

  /**
   * A bond-state intent makes exactly one call, to the client's bond
   * callback, whatever the states; a bond removal (NONE after BONDED) makes
   * no further call.
   */
  lemma BondStateForwarded(intent: Intent)
    requires intent.action == Some(ActionBondStateChanged)
    ensures ReceiverCalls(intent)
         == [BondStateChanged(intent.device, IntExtra(intent, ExtraBondState, Error),
                              IntExtra(intent, ExtraPreviousBondState, Error))]
  {
    assert ActionBondStateChanged != ActionStateChanged by {
      assert ActionBondStateChanged[19] != ActionStateChanged[19];
    }
  }

  /** An intent without an action or with any other action makes no call. */
  lemma OtherIntentsSilent(intent: Intent)
    requires intent.action != Some(ActionStateChanged) && intent.action != Some(ActionBondStateChanged)
    ensures ReceiverCalls(intent) == []
  {
  }

  // ---------------------------------------------------------------------------
  // Scan results

  /** The `caLeScanCallback` calls of the `onLeScan` loop over `uuids`. */
  function ScanCalls(device: Device, uuids: seq<Uuid>): seq<Call> {
    if uuids == [] then []
    else
      ScanCalls(device, uuids[..|uuids| - 1])
        + (if IsServiceMatch(uuids[|uuids| - 1]) then [LeScanFound(device)] else [])
  }

  /** The scan callback is made once per occurrence of the service UUID, and only with the scanned device. */
  lemma {:induction false} ScanCallsCount(device: Device, uuids: seq<Uuid>)
    ensures |ScanCalls(device, uuids)| == multiset(uuids)[ServiceUuid]
    ensures forall i :: 0 <= i < |ScanCalls(device, uuids)| ==> ScanCalls(device, uuids)[i] == LeScanFound(device)
  {
    if uuids != [] {
      var init, last := uuids[..|uuids| - 1], uuids[|uuids| - 1];
      assert uuids == init + [last];
      assert multiset(uuids) == multiset(init) + multiset{last};
      ScanCallsCount(device, init);
      ScanCallsLast(device, uuids);
    }
  }

  /** The last UUID adds a scan callback exactly when it is the service UUID. */
  lemma ScanCallsLast(device: Device, uuids: seq<Uuid>)
    requires uuids != []
    ensures ScanCalls(device, uuids)
         == ScanCalls(device, uuids[..|uuids| - 1])
            + (if uuids[|uuids| - 1] == ServiceUuid then [LeScanFound(device)] else [])
  {
    ServiceMatchIff(uuids[|uuids| - 1]);
  }

  /**
   * A scan record made of well-formed structures makes one scan callback for
   * each time the structures list the service UUID.
   */
  lemma AdvertisedServiceFound(device: Device, ss: seq<AdStructure>)
    requires AllWellFormed(ss)
    ensures ParseUuids(EncodeAll(ss)).Parsed?
    ensures |ScanCalls(device, ParseUuids(EncodeAll(ss)).uuids)| == multiset(AllUuids(ss))[ServiceUuid]
  {
    ParseEncoded(ss);
    ScanCallsCount(device, AllUuids(ss));
  }

  /**
   * How `onLeScan` ends: normally, by the escaping `ArrayIndexOutOfBoundsException`,
   * or with the parse loop going round a cycle of offsets. The model's UUID list is
   * unbounded, so it does not tell a cycle that only spins from one that adds UUIDs
   * on every lap, which in Java ends in an escaping `OutOfMemoryError`.
   */
  datatype ScanOutcome = ScanReturned | ScanThrew | ScanLoops

  /** The outcome of `method.invoke` on `removeBond` by reflection: a `Boolean` (possibly null) or an exception. */
  datatype Invocation = InvokeReturned(result: Option<bool>) | InvokeThrew

  /**
   * `removeBond`: the reflected call's result; an exception, including the
   * one from unboxing a null result, is caught and gives false.
   */
  function RemoveBond(invoked: Invocation): (removed: bool)
    ensures removed <==> invoked == InvokeReturned(Some(true))
  {
    match invoked
    case InvokeReturned(Some(b)) => b
    case InvokeReturned(None) => false
    case InvokeThrew => false
  }

  // ---------------------------------------------------------------------------
  // The calls a disconnect makes

  /** The call `disconnect(hostAddress)` makes: none for an address without a GATT object. */
  function DisconnectCalls(gatts: map<Address, Gatt>, a: Address): seq<Call> {
    if a in gatts then [GattDisconnect(gatts[a])] else []
  }

  /** The calls of `disconnect` on each of `addresses`, in order. */
  function DisconnectEach(gatts: map<Address, Gatt>, addresses: seq<Address>): seq<Call> {
    if addresses == [] then []
    else DisconnectEach(gatts, addresses[..|addresses| - 1]) + DisconnectCalls(gatts, addresses[|addresses| - 1])
  }

  /** Disconnecting addresses that all have a GATT object disconnects each of those objects once, in order. */
  lemma {:induction false} DisconnectEachKnown(gatts: map<Address, Gatt>, addresses: seq<Address>)
    requires forall i :: 0 <= i < |addresses| ==> addresses[i] in gatts
    ensures |DisconnectEach(gatts, addresses)| == |addresses|
    ensures forall i :: 0 <= i < |addresses| ==> DisconnectEach(gatts, addresses)[i] == GattDisconnect(gatts[addresses[i]])
  {
    if addresses != [] {
      DisconnectEachKnown(gatts, addresses[..|addresses| - 1]);
    }
  }

  /** After a callback from a GATT object, disconnecting its address disconnects that object. */
  lemma DisconnectAfterCallback(gatts: map<Address, Gatt>, gatt: Gatt)
    ensures DisconnectCalls(gatts[GattAddress(gatt) := gatt], GattAddress(gatt)) == [GattDisconnect(gatt)]
  {
  }

  predicate NoDuplicates(s: seq<Address>) {
    forall i, j :: 0 <= i < j < |s| ==> s[i] != s[j]
  }

  // ---------------------------------------------------------------------------
  // The interface object

  class ClientInterface {
    /** `mBluetoothGatts`: the latest GATT object seen for each remote address. */
    var gatts: map<Address, Gatt>
    /** The calls made so far, oldest first. */
    var calls: seq<Call>

    constructor ()
      ensures gatts == map[] && calls == []
    {
      gatts := map[];
      calls := [];
    }

    /** Makes one call. */
    method Emit(c: Call)
      modifies this
      ensures gatts == old(gatts) && calls == old(calls) + [c]
    {
      calls := calls + [c];
    }

    /** Any `mGattCallback` method: `mBluetoothGatts.put` first, then its native calls in order. */
    method OnGattCallback(gatt: Gatt, e: GattEvent)
      modifies this
      ensures gatts == old(gatts)[GattAddress(gatt) := gatt]
      ensures calls == old(calls) + GattSinks(gatt, e)
    {
      gatts := gatts[GattAddress(gatt) := gatt];
      match e
      case OnConnectionStateChange(status, newState) =>
        Emit(GattConnectionStateChanged(gatt, status, newState));
        Emit(ManagerConnectionStateChanged(gatt, status, newState));
        Emit(NwConnectionStateChanged(gatt, status, newState));
      case OnServicesDiscovered(status) =>
        Emit(ServicesDiscovered(gatt, status));
        Emit(ManagerServicesDiscovered(gatt, status));
      case OnCharacteristicRead(_) =>
      case OnCharacteristicWrite(value, status) =>
        Emit(CharacteristicWritten(gatt, value, status));
      case OnCharacteristicChanged(value) =>
        Emit(CharacteristicChanged(gatt, value));
      case OnDescriptorRead(_) =>
      case OnDescriptorWrite(descriptor, status) =>
        Emit(DescriptorWritten(gatt, descriptor, status));
      case OnReliableWriteCompleted(_) =>
      case OnReadRemoteRssi(rssi, status) =>
        Emit(ManagerRemoteRssi(gatt, rssi, status));
      case OnMtuChanged(mtu, status) =>
        Emit(MtuChanged(gatt, mtu, status));
    }

    /** `mReceiver.onReceive`: the adapter-state filter, then the bond-state forward. */
    method OnReceive(intent: Intent)
      modifies this
      ensures gatts == old(gatts)
      ensures calls == old(calls) + ReceiverCalls(intent)
    {
      if intent.action.Some? && intent.action.value == ActionStateChanged {
        var state := IntExtra(intent, ExtraState, Error);
        if state == StateOn || state == StateOff || state == StateTurningOff {
          Emit(LeStateChanged(state));
          Emit(ManagerAdapterStateChanged(state));
        }
      }
      if intent.action.Some? && intent.action.value == ActionBondStateChanged {
        var bondState := IntExtra(intent, ExtraBondState, Error);
        var prevBondState := IntExtra(intent, ExtraPreviousBondState, Error);
        Emit(BondStateChanged(intent.device, bondState, prevBondState));
      }
    }

    /**
     * `mLeScanCallback.onLeScan`: parses the record, then calls back once for
     * each UUID whose text contains the lower-cased `SERVICE_UUID`. A parse
     * that throws leaves before any callback; one caught in a cycle never
     * reaches the loop.
     */
    method OnLeScan(device: Device, scanRecord: seq<JByte>) returns (outcome: ScanOutcome)
      modifies this
      ensures outcome == ScanReturned <==> ParseUuids(scanRecord).Parsed?
      ensures outcome == ScanThrew <==> ParseUuids(scanRecord).IndexFault?
      ensures gatts == old(gatts)
      ensures calls == old(calls)
        + (if ParseUuids(scanRecord).Parsed? then ScanCalls(device, ParseUuids(scanRecord).uuids) else [])
    {
      var parse := GetUuids(scanRecord);
      match parse
      case IndexFault =>
        return ScanThrew;
      case Diverges =>
        return ScanLoops;
      case Parsed(uuids) =>
        ReportServiceMatches(device, uuids);
        return ScanReturned;
    }

    /** The loop of `onLeScan`: one scan callback per UUID that matches the service UUID. */
    method ReportServiceMatches(device: Device, uuids: seq<Uuid>)
      modifies this
      ensures gatts == old(gatts)
      ensures calls == old(calls) + ScanCalls(device, uuids)
    {
      var i := 0;
      while i < |uuids|
        invariant 0 <= i <= |uuids|
        invariant gatts == old(gatts)
        invariant calls == old(calls) + ScanCalls(device, uuids[..i])
      {
        ghost var seen := uuids[..i + 1];
        assert seen[..i] == uuids[..i] && seen[i] == uuids[i];
        if IsServiceMatch(uuids[i]) {
          Emit(LeScanFound(device));
        }
        i := i + 1;
      }
      assert uuids[..|uuids|] == uuids;
    }

    /** `disconnect(hostAddress)`: disconnects the address's GATT object, if there is one. */
    method Disconnect(hostAddress: Address)
      modifies this
      ensures gatts == old(gatts)
      ensures calls == old(calls) + DisconnectCalls(gatts, hostAddress)
    {
      if hostAddress in gatts {
        Emit(GattDisconnect(gatts[hostAddress]));
      }
    }

    /**
     * The first step of `disconnectAll`: a copy of the key set, in the map's
     * iteration order (which the model leaves open).
     */
    method KeySnapshot() returns (hostAddresses: seq<Address>)
      ensures NoDuplicates(hostAddresses)
      ensures forall a :: a in hostAddresses <==> a in gatts
    {
      var rest := gatts.Keys;
      hostAddresses := [];
      while rest != {}
        invariant rest <= gatts.Keys
        invariant NoDuplicates(hostAddresses)
        invariant forall a :: a in hostAddresses <==> a in gatts && a !in rest
        decreases |rest|
      {
        var a :| a in rest;
        assert a !in hostAddresses;
        hostAddresses := hostAddresses + [a];
        rest := rest - {a};
      }
    }

    /** `disconnectAll`: disconnects each address of the key snapshot, in the snapshot's order. */
    method DisconnectAll() returns (hostAddresses: seq<Address>)
      modifies this
      ensures gatts == old(gatts)
      ensures NoDuplicates(hostAddresses)
      ensures forall a :: a in hostAddresses <==> a in gatts
      ensures calls == old(calls) + DisconnectEach(gatts, hostAddresses)
    {
      hostAddresses := KeySnapshot();
      var i := 0;
      while i < |hostAddresses|
        invariant 0 <= i <= |hostAddresses|
        invariant gatts == old(gatts)
        invariant calls == old(calls) + DisconnectEach(gatts, hostAddresses[..i])
      {
        assert hostAddresses[..i + 1][..i] == hostAddresses[..i];
        Disconnect(hostAddresses[i]);
        i := i + 1;
      }
      assert hostAddresses[..|hostAddresses|] == hostAddresses;
    }
  }
}
