/**
 * The native client's per-device state list (`g_deviceStateList` of
 * `CALEState_t`): one entry per remote address holding its connection
 * state, send state, auto-connect flag and negotiated MTU. The list is
 * created once, scanned front to back by address, updated in place, and
 * freed at teardown (after which it is missing again).
 */
module DeviceState {
  import opened BtTypes
  import opened KeyedList

  /** A C `uint16_t`. */
  newtype U16 = x: int | 0 <= x < 0x1_0000

  /** `CA_LE_CONNECTION_STATE`: selects `connectedState`. */
  const ConnectionStateType: U16 := 1
  /** `CA_LE_SEND_STATE`: selects `sendState`. */
  const SendStateType: U16 := 2

  /** `STATE_DISCONNECTED`, the connection state of a fresh or reset entry. */
  const StateDisconnected: U16 := 3
  /** `STATE_SEND_NONE`, the send state of a fresh or reset entry. */
  const StateSendNone: U16 := 1

  /** `CA_LE_AUTO_CONNECT_FLAG`: selects `autoConnectFlag`. */
  const AutoConnectFlag: int := 1

  /** `CA_DEFAULT_BLE_MTU_SIZE`: the MTU of a fresh entry and of an unknown device. */
  const DefaultBleMtuSize: U16 := 20
  /** `CA_MACADDR_SIZE`: the longest address a new entry accepts. */
  const MacAddrSize: nat := 18

  /** `CALEState_t`. */
  datatype LeState = LeState(
    address: Address,
    connectedState: U16,
    sendState: U16,
    autoConnectFlag: bool,
    mtuSize: U16)

  /** The key the list is searched by (`strcmp` on the address). */
  function StateAddress(s: LeState): Address {
    s.address
  }

  /** `s` with the field that `stateType` selects set to `target`; any other type changes nothing. */
  function WithField(s: LeState, stateType: U16, target: U16): LeState {
    if stateType == ConnectionStateType then s.(connectedState := target)
    else if stateType == SendStateType then s.(sendState := target)
    else s
  }

  /**
   * The zero-initialised entry for a new address: the selected field holds
   * `target`, the other one its idle value, and an unknown type leaves both 0.
   */
  function NewEntry(address: Address, stateType: U16, target: U16): LeState {
    LeState(
      address,
      if stateType == ConnectionStateType then target
      else if stateType == SendStateType then StateDisconnected
      else 0,
      if stateType == ConnectionStateType then StateSendNone
      else if stateType == SendStateType then target
      else 0,
      false,
      DefaultBleMtuSize)
  }

  /** The list after a successful update: the first entry for `address` changed, or a new entry appended. */
  function Upsert(states: seq<LeState>, address: Address, stateType: U16, target: U16): seq<LeState> {
    match Find(states, StateAddress, address)
    case Some(i) => states[i := WithField(states[i], stateType, target)]
    case None => states + [NewEntry(address, stateType, target)]
  }

  /** The status `CALEClientUpdateDeviceState` returns. */
  function UpdateStatus(created: bool, states: seq<LeState>, address: Address): CAResult {
    if !created then StatusFailed
    else if !Has(states, StateAddress, address) && |address| > MacAddrSize then StatusInvalidParam
    else StatusOk
  }

  /** The entry `CALEClientGetStateInfo` points to, if any. */
  function StateOf(states: seq<LeState>, address: Address): Option<LeState> {
    match Find(states, StateAddress, address)
    case Some(i) => Some(states[i])
    case None => None
  }

  /** The value `CALEClientIsValidState` compares: the selected field, or 0 for an unknown type. */
  function FieldValue(s: LeState, stateType: U16): U16 {
    if stateType == ConnectionStateType then s.connectedState
    else if stateType == SendStateType then s.sendState
    else 0
  }

  /** `CALEClientIsValidState`: an entry exists and its selected field equals `target`. */
  function IsValid(created: bool, states: seq<LeState>, address: Address, stateType: U16, target: U16): bool {
    created &&
    match StateOf(states, address)
    case Some(s) => FieldValue(s, stateType) == target
    case None => false
  }

  /** An entry after `CALEClientResetDeviceStateForAll`. */
  function Reset(s: LeState): LeState {
    s.(connectedState := StateDisconnected, sendState := StateSendNone)
  }

  /** The whole list after `CALEClientResetDeviceStateForAll`. */
  function ResetAll(states: seq<LeState>): (r: seq<LeState>)
    ensures |r| == |states|
    ensures forall i :: 0 <= i < |states| ==> r[i] == Reset(states[i])
  {
    seq(|states|, i requires 0 <= i < |states| => Reset(states[i]))
  }

  /** What `CALEClientGetMtuSize` answers. */
  function MtuOf(states: seq<LeState>, address: Address): U16 {
    match StateOf(states, address)
    case Some(s) => s.mtuSize
    case None => DefaultBleMtuSize
  }

  /** The list after `CALEClientSetMtuSize`: only an existing entry is changed. */
  function SetMtu(states: seq<LeState>, address: Address, mtu: U16): seq<LeState> {
    match Find(states, StateAddress, address)
    case Some(i) => states[i := states[i].(mtuSize := mtu)]
    case None => states
  }

  /** What `CALEClientGetFlagFromState` answers. */
  function FlagOf(states: seq<LeState>, address: Address, stateIdx: int): bool {
    match StateOf(states, address)
    case Some(s) => stateIdx == AutoConnectFlag && s.autoConnectFlag
    case None => false
  }

  /** The list after `CALEClientSetFlagToState`: only an existing entry, only the auto-connect flag. */
  function SetFlag(states: seq<LeState>, address: Address, stateIdx: int, flag: bool): seq<LeState> {
    match Find(states, StateAddress, address)
    case Some(i) =>
      if stateIdx == AutoConnectFlag then states[i := states[i].(autoConnectFlag := flag)] else states
    case None => states
  }

  class DeviceStateList {
    /** `g_deviceStateList != NULL`. */
    var isCreated: bool
    var states: seq<LeState>

    ghost predicate Valid()
      reads this
    {
      (!isCreated ==> states == []) && Unique(states, StateAddress)
    }

    /** The list is missing until it is created. */
    constructor ()
      ensures Valid() && !isCreated
    {
      isCreated := false;
      states := [];
    }

    /** The state-list part of `CALEClientCreateDeviceList`: creates the list if it is missing. */
    method Create()
      requires Valid()
      modifies this
      ensures Valid() && isCreated
      ensures states == old(states)
    {
      if !isCreated {
        isCreated := true;
        states := [];
      }
    }

    /** `CALEClientIsDeviceInList`. */
    method IsDeviceInList(address: Address) returns (found: bool)
      requires Valid()
      ensures found <==> isCreated && Has(states, StateAddress, address)
    {
      if !isCreated {
        return false;
      }
      var index := 0;
      while index < |states|
        invariant 0 <= index <= |states|
        invariant forall j :: 0 <= j < index ==> states[j].address != address
      {
        if states[index].address == address {
          return true;
        }
        index := index + 1;
      }
      return false;
    }

    /** `CALEClientGetStateInfo`: the index of the first entry for `address`. */
    method GetStateInfo(address: Address) returns (r: Option<nat>)
      requires Valid()
      ensures r.Some? ==> r.value < |states| && states[r.value].address == address
      ensures r == (if isCreated then Find(states, StateAddress, address) else None)
    {
      if !isCreated {
        return None;
      }
      var index := 0;
      while index < |states|
        invariant 0 <= index <= |states|
        invariant Find(states, StateAddress, address) == FindFrom(states, StateAddress, address, index)
      {
        if states[index].address == address {
          return Some(index);
        }
        index := index + 1;
      }
      return None;
    }

    /** `CALEClientUpdateDeviceState`. */
    method UpdateDeviceState(address: Address, stateType: U16, target: U16) returns (res: CAResult)
      requires Valid()
      modifies this
      ensures Valid() && isCreated == old(isCreated)
      ensures res == UpdateStatus(old(isCreated), old(states), address)
      ensures states == if res == StatusOk then Upsert(old(states), address, stateType, target) else old(states)
    {
      if !isCreated {
        return StatusFailed;
      }
      var inList := IsDeviceInList(address);
      FindIffHas(states, StateAddress, address);
      if inList {
        var cur := GetStateInfo(address);
        var i := cur.value;
        var state := states[i];
        if stateType == ConnectionStateType {
          state := state.(connectedState := target);
        } else if stateType == SendStateType {
          state := state.(sendState := target);
        }
        states := states[i := state];
        UpsertKeepsUnique(old(states), address, stateType, target);
      } else {
        if |address| > MacAddrSize {
          return StatusInvalidParam;
        }
        var newState := LeState(address, 0, 0, false, DefaultBleMtuSize);
        if stateType == ConnectionStateType {
          newState := newState.(connectedState := target, sendState := StateSendNone);
        } else if stateType == SendStateType {
          newState := newState.(connectedState := StateDisconnected, sendState := target);
        }
        states := states + [newState];
        UpsertKeepsUnique(old(states), address, stateType, target);
      }
      return StatusOk;
    }

    /** `CALEClientIsValidState`. */
    method IsValidState(address: Address, stateType: U16, target: U16) returns (valid: bool)
      requires Valid()
      ensures valid == IsValid(isCreated, states, address, stateType, target)
    {
      if !isCreated {
        return false;
      }
      var cur := GetStateInfo(address);
      if cur.None? {
        return false;
      }
      var state := states[cur.value];
      var curValue: U16 := 0;
      if stateType == ConnectionStateType {
        curValue := state.connectedState;
      } else if stateType == SendStateType {
        curValue := state.sendState;
      }
      valid := target == curValue;
    }

    /** `CALEClientResetDeviceStateForAll`. */
    method ResetDeviceStateForAll() returns (res: CAResult)
      requires Valid()
      modifies this
      ensures Valid() && isCreated == old(isCreated)
      ensures res == if old(isCreated) then StatusOk else StatusFailed
      ensures states == ResetAll(old(states))
    {
      if !isCreated {
        return StatusFailed;
      }
      var index := 0;
      while index < |states|
        invariant 0 <= index <= |states| == |old(states)|
        invariant isCreated
        invariant forall j :: 0 <= j < index ==> states[j] == Reset(old(states)[j])
        invariant forall j :: index <= j < |states| ==> states[j] == old(states)[j]
      {
        var state := states[index];
        // the auto-connect flag and the MTU are kept
        states := states[index := state.(connectedState := StateDisconnected, sendState := StateSendNone)];
        index := index + 1;
      }
      ResetAllKeepsAddresses(old(states));
      return StatusOk;
    }

    /** `CALEClientRemoveDeviceState`: removes the first entry for `address`. */
    method RemoveDeviceState(address: Address) returns (res: CAResult)
      requires Valid()
      modifies this
      ensures Valid() && isCreated == old(isCreated)
      ensures res == if old(isCreated) then StatusOk else StatusFailed
      ensures states == RemoveFirst(old(states), StateAddress, address)
    {
      if !isCreated {
        return StatusFailed;
      }
      var index := 0;
      while index < |states|
        invariant 0 <= index <= |states|
        invariant Find(states, StateAddress, address) == FindFrom(states, StateAddress, address, index)
      {
        if states[index].address == address {
          states := RemoveAt(states, index);
          RemoveFirstUnique(old(states), StateAddress, address);
          return StatusOk;
        }
        index := index + 1;
      }
      return StatusOk;
    }

    /** `CALEClientRemoveAllDeviceState`: frees every entry and the list itself. */
    method RemoveAllDeviceState() returns (res: CAResult)
      requires Valid()
      modifies this
      ensures Valid() && !isCreated && states == []
      ensures res == if old(isCreated) then StatusOk else StatusFailed
    {
      if !isCreated {
        return StatusFailed;
      }
      isCreated := false;
      states := [];
      return StatusOk;
    }

    /** `CALEClientSetMtuSize`: changes an existing entry only, and succeeds either way. */
    method SetMtuSize(address: Address, mtu: U16) returns (res: CAResult)
      requires Valid()
      modifies this
      ensures Valid() && isCreated == old(isCreated)
      ensures res == StatusOk
      ensures states == SetMtu(old(states), address, mtu)
    {
      var inList := IsDeviceInList(address);
      FindIffHas(states, StateAddress, address);
      if inList {
        var cur := GetStateInfo(address);
        var i := cur.value;
        states := states[i := states[i].(mtuSize := mtu)];
        SetMtuKeepsAddresses(old(states), address, mtu);
      }
      return StatusOk;
    }

    /** `CALEClientGetMtuSize`. */
    method GetMtuSize(address: Address) returns (mtu: U16)
      requires Valid()
      ensures mtu == MtuOf(states, address)
    {
      var inList := IsDeviceInList(address);
      FindIffHas(states, StateAddress, address);
      if inList {
        var cur := GetStateInfo(address);
        return states[cur.value].mtuSize;
      }
      return DefaultBleMtuSize;
    }

    /** `CALEClientSetFlagToState`: sets the auto-connect flag of an existing entry. */
    method SetFlagToState(address: Address, stateIdx: int, flag: bool) returns (res: CAResult)
      requires Valid()
      modifies this
      ensures Valid() && isCreated == old(isCreated)
      ensures res == StatusOk
      ensures states == SetFlag(old(states), address, stateIdx, flag)
    {
      var inList := IsDeviceInList(address);
      FindIffHas(states, StateAddress, address);
      if inList {
        var cur := GetStateInfo(address);
        var i := cur.value;
        if stateIdx == AutoConnectFlag {
          states := states[i := states[i].(autoConnectFlag := flag)];
        }
        SetFlagKeepsAddresses(old(states), address, stateIdx, flag);
      }
      return StatusOk;
    }

    /** `CALEClientGetFlagFromState`: false for an unknown device or an unknown flag. */
    method GetFlagFromState(address: Address, stateIdx: int) returns (flag: bool)
      requires Valid()
      ensures flag == FlagOf(states, address, stateIdx)
    {
      var cur := GetStateInfo(address);
      if cur.None? {
        return false;
      }
      flag := false;
      if stateIdx == AutoConnectFlag {
        flag := states[cur.value].autoConnectFlag;
      }
    }
  }

  // ---------------------------------------------------------------------------
  // Properties of the specification functions

  /** Replacing an entry by one with the same address keeps the list free of duplicate addresses. */
  lemma ReplaceKeepsUnique(states: seq<LeState>, i: nat, s: LeState)
    requires Unique(states, StateAddress)
    requires i < |states| && s.address == states[i].address
    ensures Unique(states[i := s], StateAddress)
  {
    var r := states[i := s];
    forall a, b | 0 <= a < b < |r| ensures StateAddress(r[a]) != StateAddress(r[b]) {
      assert StateAddress(r[a]) == StateAddress(states[a]);
      assert StateAddress(r[b]) == StateAddress(states[b]);
    }
  }

  /** An update never creates a second entry for an address. */
  lemma UpsertKeepsUnique(states: seq<LeState>, address: Address, stateType: U16, target: U16)
    requires Unique(states, StateAddress)
    ensures Unique(Upsert(states, address, stateType, target), StateAddress)
  {
    match Find(states, StateAddress, address)
    case Some(i) =>
      ReplaceKeepsUnique(states, i, WithField(states[i], stateType, target));
    case None =>
      FindIffHas(states, StateAddress, address);
      AddIfAbsentUnique(states, StateAddress, NewEntry(address, stateType, target));
  }

  /**
   * Updating a known address changes only the selected field of its entry:
   * every other field, every other entry and the length stay as they were.
   */
  lemma UpdateKnownChangesOnlySelectedField(
    states: seq<LeState>, address: Address, stateType: U16, target: U16, i: nat)
    requires Unique(states, StateAddress)
    requires i < |states| && states[i].address == address
    ensures var r := Upsert(states, address, stateType, target);
      && |r| == |states|
      && (forall j :: 0 <= j < |r| && j != i ==> r[j] == states[j])
      && r[i].address == address
      && r[i].autoConnectFlag == states[i].autoConnectFlag
      && r[i].mtuSize == states[i].mtuSize
      && r[i].connectedState == (if stateType == ConnectionStateType then target else states[i].connectedState)
      && r[i].sendState == (if stateType == SendStateType then target else states[i].sendState)
  {
    FindInUnique(states, StateAddress, address, i);
  }

  /**
   * Updating an unknown address appends exactly one entry: the default MTU,
   * the auto-connect flag off, the selected field set, the other one idle;
   * for any other state type both fields keep the zero of the fresh allocation.
   */
  lemma UpdateUnknownAppendsOne(states: seq<LeState>, address: Address, stateType: U16, target: U16)
    requires !Has(states, StateAddress, address)
    ensures var r := Upsert(states, address, stateType, target);
      && |r| == |states| + 1
      && r[..|states|] == states
      && r[|states|].address == address
      && r[|states|].mtuSize == DefaultBleMtuSize
      && !r[|states|].autoConnectFlag
      && (stateType == ConnectionStateType ==>
            r[|states|].connectedState == target && r[|states|].sendState == StateSendNone)
      && (stateType == SendStateType ==>
            r[|states|].connectedState == StateDisconnected && r[|states|].sendState == target)
      && (stateType != ConnectionStateType && stateType != SendStateType ==>
            r[|states|].connectedState == 0 && r[|states|].sendState == 0)
  {
    FindIffHas(states, StateAddress, address);
  }

  /** Applying the same update twice leaves the list as a single application does. */
  lemma UpsertIdempotent(states: seq<LeState>, address: Address, stateType: U16, target: U16)
    requires Unique(states, StateAddress)
    ensures var once := Upsert(states, address, stateType, target);
      Upsert(once, address, stateType, target) == once
  {
    var once := Upsert(states, address, stateType, target);
    UpsertKeepsUnique(states, address, stateType, target);
    match Find(states, StateAddress, address)
    case Some(i) =>
      FindInUnique(once, StateAddress, address, i);
    case None =>
      FindInUnique(once, StateAddress, address, |states|);
  }

  /** After an update the queried state of the address is the one just written (0 for an unknown type). */
  lemma ValidAfterUpdate(states: seq<LeState>, address: Address, stateType: U16, target: U16)
    requires Unique(states, StateAddress)
    ensures IsValid(true, Upsert(states, address, stateType, target), address, stateType,
                    if stateType == ConnectionStateType || stateType == SendStateType then target else 0)
  {
    var r := Upsert(states, address, stateType, target);
    UpsertKeepsUnique(states, address, stateType, target);
    match Find(states, StateAddress, address)
    case Some(i) =>
      FindInUnique(r, StateAddress, address, i);
    case None =>
      FindInUnique(r, StateAddress, address, |states|);
  }

  /** A missing list, or no entry for the address, is never a valid state. */
  lemma NoEntryNeverValid(created: bool, states: seq<LeState>, address: Address, stateType: U16, target: U16)
    requires !created || !Has(states, StateAddress, address)
    ensures !IsValid(created, states, address, stateType, target)
  {
    FindIffHas(states, StateAddress, address);
  }

  /** Resetting keeps the length, the order, the addresses, the flags and the MTUs. */
  lemma ResetAllKeepsAddresses(states: seq<LeState>)
    requires Unique(states, StateAddress)
    ensures var r := ResetAll(states);
      && Unique(r, StateAddress)
      && forall i :: 0 <= i < |r| ==>
           && r[i].address == states[i].address
           && r[i].autoConnectFlag == states[i].autoConnectFlag
           && r[i].mtuSize == states[i].mtuSize
           && r[i].connectedState == StateDisconnected
           && r[i].sendState == StateSendNone
  {
    var r := ResetAll(states);
    forall a, b | 0 <= a < b < |r| ensures StateAddress(r[a]) != StateAddress(r[b]) {
      assert StateAddress(r[a]) == StateAddress(states[a]);
      assert StateAddress(r[b]) == StateAddress(states[b]);
    }
  }

  /** After a reset every known device reads as disconnected and not sending. */
  lemma ResetAllDisconnects(states: seq<LeState>, address: Address)
    requires Unique(states, StateAddress)
    requires Has(states, StateAddress, address)
    ensures IsValid(true, ResetAll(states), address, ConnectionStateType, StateDisconnected)
    ensures IsValid(true, ResetAll(states), address, SendStateType, StateSendNone)
  {
    var i :| 0 <= i < |states| && StateAddress(states[i]) == address;
    ResetAllKeepsAddresses(states);
    FindInUnique(ResetAll(states), StateAddress, address, i);
  }

  /** After removing an address it is no longer in the list, and no other address is lost. */
  lemma RemoveForgetsAddress(states: seq<LeState>, address: Address, other: Address)
    requires Unique(states, StateAddress)
    ensures !Has(RemoveFirst(states, StateAddress, address), StateAddress, address)
    ensures other != address ==>
      (Has(RemoveFirst(states, StateAddress, address), StateAddress, other) <==> Has(states, StateAddress, other))
  {
    RemoveFirstUnique(states, StateAddress, address);
  }

  /** Setting the MTU keeps the addresses and the list free of duplicates. */
  lemma SetMtuKeepsAddresses(states: seq<LeState>, address: Address, mtu: U16)
    requires Unique(states, StateAddress)
    ensures Unique(SetMtu(states, address, mtu), StateAddress)
    ensures |SetMtu(states, address, mtu)| == |states|
  {
    match Find(states, StateAddress, address)
    case Some(i) => ReplaceKeepsUnique(states, i, states[i].(mtuSize := mtu));
    case None =>
  }

  /**
   * Reading the MTU back: the value just set for a known device, the default
   * for an unknown one, and other devices' MTUs untouched.
   */
  lemma MtuRoundTrip(states: seq<LeState>, address: Address, mtu: U16, other: Address)
    requires Unique(states, StateAddress)
    ensures MtuOf(SetMtu(states, address, mtu), address)
         == if Has(states, StateAddress, address) then mtu else DefaultBleMtuSize
    ensures other != address ==> MtuOf(SetMtu(states, address, mtu), other) == MtuOf(states, other)
  {
    var r := SetMtu(states, address, mtu);
    SetMtuKeepsAddresses(states, address, mtu);
    FindIffHas(states, StateAddress, address);
    match Find(states, StateAddress, address)
    case Some(i) =>
      FindInUnique(r, StateAddress, address, i);
      if other != address {
        match Find(states, StateAddress, other)
        case Some(k) =>
          FindInUnique(r, StateAddress, other, k);
        case None =>
          FindIffHas(states, StateAddress, other);
          FindIffHas(r, StateAddress, other);
          assert forall j :: 0 <= j < |r| ==> r[j].address == states[j].address;
      }
    case None =>
      assert r == states;
  }

  /** A state update never touches the MTU: a new entry reads the default. */
  lemma UpsertKeepsMtu(states: seq<LeState>, address: Address, stateType: U16, target: U16)
    requires Unique(states, StateAddress)
    ensures MtuOf(Upsert(states, address, stateType, target), address) == MtuOf(states, address)
  {
    var r := Upsert(states, address, stateType, target);
    UpsertKeepsUnique(states, address, stateType, target);
    match Find(states, StateAddress, address)
    case Some(i) =>
      FindInUnique(r, StateAddress, address, i);
    case None =>
      FindInUnique(r, StateAddress, address, |states|);
  }

  /** Setting the flag keeps the addresses and the list free of duplicates. */
  lemma SetFlagKeepsAddresses(states: seq<LeState>, address: Address, stateIdx: int, flag: bool)
    requires Unique(states, StateAddress)
    ensures Unique(SetFlag(states, address, stateIdx, flag), StateAddress)
  {
    match Find(states, StateAddress, address)
    case Some(i) =>
      if stateIdx == AutoConnectFlag {
        ReplaceKeepsUnique(states, i, states[i].(autoConnectFlag := flag));
      }
    case None =>
  }

  /** Reading the auto-connect flag back after setting it on a known device gives the value set. */
  lemma FlagRoundTrip(states: seq<LeState>, address: Address, flag: bool)
    requires Unique(states, StateAddress)
    ensures FlagOf(SetFlag(states, address, AutoConnectFlag, flag), address, AutoConnectFlag)
         == (Has(states, StateAddress, address) && flag)
  {
    var r := SetFlag(states, address, AutoConnectFlag, flag);
    SetFlagKeepsAddresses(states, address, AutoConnectFlag, flag);
    FindIffHas(states, StateAddress, address);
    match Find(states, StateAddress, address)
    case Some(i) =>
      FindInUnique(r, StateAddress, address, i);
    case None =>
  }
}
