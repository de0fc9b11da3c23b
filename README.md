# IoTivity Android BLE client, modelled in Dafny

This project models the Bluetooth Low Energy (GATT) client of IoTivity's Android connectivity layer, in three parts.

- **The Java callback layer** (`CaLeClientInterface`):
  - It receives the platform's scan, GATT and broadcast callbacks and forwards them to the native client.
  - It keeps the latest `BluetoothGatt` of each remote address in `mBluetoothGatts` and disconnects those objects on request.
  - Its scan callback parses the advertising data of a scan record (`getUuids`). It then reports the device once for every listed UUID whose text contains the lower-cased `SERVICE_UUID`.
- **The native client's bookkeeping** (`caleclient.c`):
  - the per-device state list: connection state, send state, auto-connect flag and MTU;
  - the scan-device list and the GATT-object list;
  - the response-characteristic key list;
  - the classification of a disconnect status;
  - the delivery counter that tells a waiting sender that a send has finished.
- **The transport-adapter enumeration** (`OcTransportAdapter`): it decodes a native adapter bitmask into a set of adapters.

Module by module:

| module | models |
|---|---|
| `BtTypes` | Java signed bytes, the `BluetoothDevice` and `BluetoothGatt` objects (seen through their address and identity), and `CAResult_t` |
| `KeyedList` | the front-to-back, first-match search of a `u_arraylist` by key, and the add-if-absent and remove-first updates built on it |
| `UuidText` | `java.util.UUID` as two 64-bit words; `UUID.toString()`, `String.contains` and `String.toLowerCase` |
| `AdParser` | `getUuids`, loop for loop. Its specification is `ParseUuids`, and a record built from well-formed structures parses back to the UUIDs it lists |
| `AdParserTermination` | a proof that the pass bound used to represent a loop that never ends does not change the parser's outcome |
| `LeClientInterface` | the Java class as a `ClientInterface` object: the address-to-GATT map and the sequence of native calls and `disconnect` calls made so far |
| `DeviceState` | `g_deviceStateList` as a class over a sequence of `CALEState_t` values |
| `AddressLists` | `g_deviceList` (scanned devices) and `g_gattObjectList` (GATT objects) |
| `ResponseChars` | `g_responseCharList`: the address-plus-UUID keys of the characteristics whose notifications are enabled |
| `SendCount` | `CALECheckConnectionStateValue`, the decision taken on a disconnect, and `CALEClientUpdateSendCnt` over `g_targetCnt`, `g_currentSentCnt`, `g_sendBuffer` and `g_isFinishedSendData` |
| `TransportAdapter` | the enum constants, `getValue`, and `convertToEnumSet` |

How the model represents the source:

- **Native lists.** Each native list is a class. A boolean `isCreated` stands for the global pointer being non-NULL, and a sequence holds the list's elements in order. The methods keep the source's loops and its status codes, including the places where two lists treat a missing list differently.
- **Malformed scan records.** The parser follows the source on malformed input:
  - a read past either end of the record is the `ArrayIndexOutOfBoundsException` that escapes `onLeScan`;
  - a 128-bit block that does not fit is skipped (the exception is caught inside the loop);
  - a negative length byte can send the offset backwards into a cycle. The model reports every such cycle as the loop never ending. In Java, a cycle that adds UUIDs on each lap instead grows the list until an `OutOfMemoryError` escapes (see "## Left out").
- **Signed 16-bit read.** A 16-bit UUID is read from signed bytes, exactly as the source reads it. `AdParser.Uuid16SignedRead` shows that the result is the intended unsigned little-endian value exactly when neither byte has its top bit set.

`OcTransportAdapter.java` lines 64 and 66 name the type `OcTrasportAdapter`, which the file does not declare. The model reads both as `OcTransportAdapter`, the enum being defined.

## Model

| member | source | states |
|---|---|---|
| `BtTypes.Unsigned` | android/android_api/base/src/main/java/org/iotivity/ca/CaLeClientInterface.java:208-211 | the unsigned value of a Java byte lies in 0..255 and has the byte's bit pattern (agrees with it modulo 256) |
| `KeyedList.FindFrom` | resource/csdk/connectivity/src/bt_le_adapter/android/caleclient.c:4159-4186 | a search from `from` returns the first index holding the key at or after `from`, or none exactly when no element from there on holds it |
| `KeyedList.RemoveAt` | resource/csdk/connectivity/src/bt_le_adapter/android/caleclient.c:4118-4157 | removing index `i` shortens the list by one, keeps the elements before `i` and shifts those after it down by one |
| `KeyedList.FindIffHas` | resource/csdk/connectivity/src/bt_le_adapter/android/caleclient.c:4020-4053 | a search succeeds exactly when some element holds the key |
| `KeyedList.FindInUnique` | resource/csdk/connectivity/src/bt_le_adapter/android/caleclient.c:4159-4186 | in a list without duplicate keys the search finds the one element holding the key |
| `KeyedList.RemoveFirstUnique` | resource/csdk/connectivity/src/bt_le_adapter/android/caleclient.c:4118-4157 | removing the first element with a key from a duplicate-free list leaves no element with that key, keeps every other key, and keeps the list duplicate-free |
| `KeyedList.AddIfAbsentUnique` | resource/csdk/connectivity/src/bt_le_adapter/android/caleclient.c:3341-3383 | add-if-absent keeps a list duplicate-free and leaves the key present |
| `KeyedList.AddIfAbsentIdempotent` | resource/csdk/connectivity/src/bt_le_adapter/android/caleclient.c:2903-2954 | adding the same element twice is the same as adding it once |
| `UuidText.Hex` | android/android_api/base/src/main/java/org/iotivity/ca/CaLeClientInterface.java:170 | the zero-padded hexadecimal text of a value below 16^k has exactly k characters |
| `UuidText.HexInjective` | android/android_api/base/src/main/java/org/iotivity/ca/CaLeClientInterface.java:170 | distinct values below 16^k have distinct k-digit texts |
| `UuidText.ToString` | android/android_api/base/src/main/java/org/iotivity/ca/CaLeClientInterface.java:170 | `UUID.toString()` is 36 characters with dashes at 8, 13, 18 and 23 |
| `UuidText.ToStringGroups` | android/android_api/base/src/main/java/org/iotivity/ca/CaLeClientInterface.java:170 | the five dash-separated groups are the 8-, 4-, 4-, 4- and 12-digit texts of the corresponding bits of the two words |
| `UuidText.MsbGroups` | android/android_api/base/src/main/java/org/iotivity/ca/CaLeClientInterface.java:170 | a high word is determined by its three groups |
| `UuidText.LsbGroups` | android/android_api/base/src/main/java/org/iotivity/ca/CaLeClientInterface.java:170 | a low word is determined by its two groups |
| `UuidText.ToStringInjective` | android/android_api/base/src/main/java/org/iotivity/ca/CaLeClientInterface.java:170 | two UUIDs with the same text are the same UUID |
| `UuidText.ContainsSameLength` | android/android_api/base/src/main/java/org/iotivity/ca/CaLeClientInterface.java:170 | between strings of equal length, `contains` is equality |
| `UuidText.ToLowerAppend` | android/android_api/base/src/main/java/org/iotivity/ca/CaLeClientInterface.java:170 | lower-casing a concatenation lower-cases each part |
| `AdParser.BaseGroupsText` | android/android_api/base/src/main/java/org/iotivity/ca/CaLeClientInterface.java:200-201 | the fixed groups of the format string are the texts of 0, 0x1000, 0x8000 and 0x00805f9b34fb |
| `AdParser.ExpandedMsbGroups` | android/android_api/base/src/main/java/org/iotivity/ca/CaLeClientInterface.java:200-201 | the high word of an expanded UUID splits into the 32-bit value, `0000` and `1000` |
| `AdParser.FromUuid16Groups` | android/android_api/base/src/main/java/org/iotivity/ca/CaLeClientInterface.java:200-201 | the text of an expanded UUID has the value's 32-bit pattern as its first group and the base UUID's groups after it |
| `AdParser.FromUuid16Text` | android/android_api/base/src/main/java/org/iotivity/ca/CaLeClientInterface.java:200-201 | the text of the UUID built from a 16-bit value is `%08x-0000-1000-8000-00805f9b34fb` filled with the value's 32-bit pattern, so `UUID.fromString` of the formatted text is that UUID |
| `AdParser.GetLong` | android/android_api/base/src/main/java/org/iotivity/ca/CaLeClientInterface.java:208-211 | a little-endian `getLong` of eight bytes is their unsigned little-endian value, a 64-bit pattern |
| `AdParser.LeValueBound` | android/android_api/base/src/main/java/org/iotivity/ca/CaLeClientInterface.java:208-211 | n bytes hold a value below 256^n |
| `AdParser.LeValueAppend` | android/android_api/base/src/main/java/org/iotivity/ca/CaLeClientInterface.java:208-211 | the little-endian value of a concatenation is the first part's value plus the second's shifted past it |
| `AdParser.Block128IsLittleEndian` | android/android_api/base/src/main/java/org/iotivity/ca/CaLeClientInterface.java:208-212 | swapping the two words read from a block makes the UUID the 128-bit little-endian value of its 16 bytes |
| `AdParser.JoinAssoc` | android/android_api/base/src/main/java/org/iotivity/ca/CaLeClientInterface.java:186-226 | collecting UUIDs in two steps is collecting them at once, and a fault or divergence discards them either way |
| `AdParser.ReadUuid16List` | android/android_api/base/src/main/java/org/iotivity/ca/CaLeClientInterface.java:194-203 | the 16-bit arm faults exactly when its `len / 2` pairs run past the end; otherwise it moves past them and collects their expanded UUIDs in order |
| `AdParser.ReadUuid128List` | android/android_api/base/src/main/java/org/iotivity/ca/CaLeClientInterface.java:204-221 | the 128-bit arm always moves on by 16 per block for `len / 16` blocks and collects the blocks that fit, in order |
| `AdParser.ReadStructure` | android/android_api/base/src/main/java/org/iotivity/ca/CaLeClientInterface.java:186-225 | one pass of the outer loop is `StepAt`: a zero length stops, a fault faults, and otherwise the pass moves to the next offset with the UUIDs found |
| `AdParser.GetUuids` | android/android_api/base/src/main/java/org/iotivity/ca/CaLeClientInterface.java:182-228 | the loop's outcome is `ParseUuids`: the UUID list, the index exception, or a cycle of offsets that the loop never leaves |
| `AdParser.Uuid16SignedRead` | android/android_api/base/src/main/java/org/iotivity/ca/CaLeClientInterface.java:197-198 | the signed-byte read gives the unsigned little-endian UUID exactly when both bytes are below 0x80 |
| `AdParser.Uuid16sAt` | android/android_api/base/src/main/java/org/iotivity/ca/CaLeClientInterface.java:196-202 | the i-th 16-bit UUID is read from the pair at offset d + 2i |
| `AdParser.Uuid128sAt` | android/android_api/base/src/main/java/org/iotivity/ca/CaLeClientInterface.java:206-220 | when all blocks fit, the i-th 128-bit UUID is the block at d + 16i |
| `AdParser.ToJByte` | android/android_api/base/src/main/java/org/iotivity/ca/CaLeClientInterface.java:197-198 | the Java byte built for an unsigned value has that unsigned value |
| `AdParser.LeBytesRoundTrip` | android/android_api/base/src/main/java/org/iotivity/ca/CaLeClientInterface.java:208-211 | reading back the little-endian bytes of a value below 256^n gives the value |
| `AdParser.Block128ReadBack` | android/android_api/base/src/main/java/org/iotivity/ca/CaLeClientInterface.java:208-212 | a UUID laid down low word first reads back as itself |
| `AdParser.Uuid16ListReadBack` | android/android_api/base/src/main/java/org/iotivity/ca/CaLeClientInterface.java:196-202 | a laid-down list of well-formed 16-bit UUIDs reads back as their expansions, in order |
| `AdParser.Uuid128ListReadBack` | android/android_api/base/src/main/java/org/iotivity/ca/CaLeClientInterface.java:206-220 | a laid-down list of 128-bit UUIDs reads back as the same list |
| `AdParser.StepEncoded` | android/android_api/base/src/main/java/org/iotivity/ca/CaLeClientInterface.java:186-225 | a pass over a well-formed structure moves exactly past it and collects exactly its UUIDs |
| `AdParser.EncodedLaid` | android/android_api/base/src/main/java/org/iotivity/ca/CaLeClientInterface.java:186-226 | the encoding of a list of structures lays them down one after another to the end of the record |
| `AdParser.LaidChain` | android/android_api/base/src/main/java/org/iotivity/ca/CaLeClientInterface.java:186-226 | each pass starting at a laid-down structure moves to the next structure |
| `AdParser.RunChain` | android/android_api/base/src/main/java/org/iotivity/ca/CaLeClientInterface.java:186-226 | the loop over a chain of structures collects all their UUIDs, in order |
| `AdParser.ParseEncoded` | android/android_api/base/src/main/java/org/iotivity/ca/CaLeClientInterface.java:182-228 | a record made of well-formed structures parses to exactly the UUIDs they list, in order |
| `AdParserTermination.DivergesForever` | android/android_api/base/src/main/java/org/iotivity/ca/CaLeClientInterface.java:186-226 | a loop still going after as many passes as the record has bytes has repeated an offset, and never ends under any bound |
| `AdParserTermination.CycleDiverges` | android/android_api/base/src/main/java/org/iotivity/ca/CaLeClientInterface.java:186-226 | a run that returns to its starting offset never ends |
| `AdParserTermination.FuelMonotone` | android/android_api/base/src/main/java/org/iotivity/ca/CaLeClientInterface.java:186-226 | a run that ends within a bound ends the same way under any larger one |
| `AdParserTermination.ParseUuidsAnyBound` | android/android_api/base/src/main/java/org/iotivity/ca/CaLeClientInterface.java:182-228 | every bound of at least the record length gives `ParseUuids`, so it is the unbounded loop's outcome |
| `LeClientInterface.ServiceUuidText` | android/android_api/base/src/main/java/org/iotivity/ca/CaLeClientInterface.java:45 | the canonical text of the service UUID is `ade3d529-c784-4f63-a987-eb69f70ee816` |
| `LeClientInterface.LowerServiceText` | android/android_api/base/src/main/java/org/iotivity/ca/CaLeClientInterface.java:170 | `SERVICE_UUID.toLowerCase()` is the canonical text of the service UUID |
| `LeClientInterface.ServiceMatchIff` | android/android_api/base/src/main/java/org/iotivity/ca/CaLeClientInterface.java:170 | a UUID's text contains the lower-cased service UUID exactly when it is the service UUID |
| `LeClientInterface.GattSinksAboutGatt` | android/android_api/base/src/main/java/org/iotivity/ca/CaLeClientInterface.java:230-324 | every native call of a GATT callback is about the GATT object the callback received |
| `LeClientInterface.SilentGattEvents` | android/android_api/base/src/main/java/org/iotivity/ca/CaLeClientInterface.java:255-306 | a GATT callback makes no native call exactly for a characteristic read, a descriptor read and a completed reliable write |
| `LeClientInterface.ManagerGattEvents` | android/android_api/base/src/main/java/org/iotivity/ca/CaLeClientInterface.java:230-324 | the connection manager hears of connection changes, service discoveries and RSSI readings and nothing else; for the last two its call comes last |
| `LeClientInterface.RecordedLatest` | android/android_api/base/src/main/java/org/iotivity/ca/CaLeClientInterface.java:238 | after a run of callbacks the map holds for an address the GATT object of its latest callback |
| `LeClientInterface.RecordedKeys` | android/android_api/base/src/main/java/org/iotivity/ca/CaLeClientInterface.java:230-324 | callbacks only add addresses: the keys are the old ones plus the addresses called back from |
| `LeClientInterface.AdapterStateForwarded` | android/android_api/base/src/main/java/org/iotivity/ca/CaLeClientInterface.java:333-344 | an adapter state reaches the client exactly for a state-changed intent with state ON, OFF or TURNING_OFF, first to the network monitor and then to the manager |
| `LeClientInterface.BondStateForwarded` | android/android_api/base/src/main/java/org/iotivity/ca/CaLeClientInterface.java:346-364 | a bond-state intent makes exactly one bond callback with the extras (or `ERROR`), and a bond removal makes no further call |
| `LeClientInterface.OtherIntentsSilent` | android/android_api/base/src/main/java/org/iotivity/ca/CaLeClientInterface.java:329-365 | an intent with no action or another action makes no call |
| `LeClientInterface.ScanCallsCount` | android/android_api/base/src/main/java/org/iotivity/ca/CaLeClientInterface.java:164-179 | the scan callback is made once per occurrence of the service UUID in the parsed list, always with the scanned device |
| `LeClientInterface.ScanCallsLast` | android/android_api/base/src/main/java/org/iotivity/ca/CaLeClientInterface.java:168-175 | one more UUID adds a scan callback exactly when it is the service UUID |
| `LeClientInterface.AdvertisedServiceFound` | android/android_api/base/src/main/java/org/iotivity/ca/CaLeClientInterface.java:164-228 | a record of well-formed structures parses, and is reported once per listing of the service UUID |
| `LeClientInterface.RemoveBond` | android/android_api/base/src/main/java/org/iotivity/ca/CaLeClientInterface.java:92-100 | `removeBond` is true exactly when the reflected call returns `TRUE`; a null result or an exception gives false |
| `LeClientInterface.DisconnectEachKnown` | android/android_api/base/src/main/java/org/iotivity/ca/CaLeClientInterface.java:78-83 | disconnecting addresses that all have a GATT object disconnects each of those objects once, in order |
| `LeClientInterface.DisconnectAfterCallback` | android/android_api/base/src/main/java/org/iotivity/ca/CaLeClientInterface.java:85-90 | after a callback from a GATT object, disconnecting its address disconnects that object |
| `LeClientInterface.ClientInterface.constructor` | android/android_api/base/src/main/java/org/iotivity/ca/CaLeClientInterface.java:48 | the map starts empty and no call has been made |
| `LeClientInterface.ClientInterface.OnGattCallback` | android/android_api/base/src/main/java/org/iotivity/ca/CaLeClientInterface.java:230-324 | every GATT callback first records the GATT object under its address, then makes its native calls in order |
| `LeClientInterface.ClientInterface.OnReceive` | android/android_api/base/src/main/java/org/iotivity/ca/CaLeClientInterface.java:326-366 | a broadcast makes the calls `ReceiverCalls` lists and leaves the map alone |
| `LeClientInterface.ClientInterface.OnLeScan` | android/android_api/base/src/main/java/org/iotivity/ca/CaLeClientInterface.java:164-179 | a scan returns exactly when the record parses, then reporting each service match; it throws the index exception exactly on an index fault, before any callback, and reports a cycle of the parse loop otherwise |
| `LeClientInterface.ClientInterface.ReportServiceMatches` | android/android_api/base/src/main/java/org/iotivity/ca/CaLeClientInterface.java:168-175 | the loop makes one scan callback per matching UUID, in order |
| `LeClientInterface.ClientInterface.Disconnect` | android/android_api/base/src/main/java/org/iotivity/ca/CaLeClientInterface.java:85-90 | disconnects the address's GATT object if there is one, and does nothing otherwise |
| `LeClientInterface.ClientInterface.KeySnapshot` | android/android_api/base/src/main/java/org/iotivity/ca/CaLeClientInterface.java:79 | the snapshot lists each address of the map once, and nothing else |
| `LeClientInterface.ClientInterface.DisconnectAll` | android/android_api/base/src/main/java/org/iotivity/ca/CaLeClientInterface.java:78-83 | disconnects every address of the snapshot, in its order, and leaves the map unchanged |
| `DeviceState.DeviceStateList.constructor` | resource/csdk/connectivity/src/bt_le_adapter/android/caleclient.c:67 | the list is missing until created |
| `DeviceState.DeviceStateList.Create` | resource/csdk/connectivity/src/bt_le_adapter/android/caleclient.c:4239-4264 | creates the list if it is missing and keeps an existing one |
| `DeviceState.DeviceStateList.IsDeviceInList` | resource/csdk/connectivity/src/bt_le_adapter/android/caleclient.c:4020-4053 | true exactly when the list exists and has an entry for the address |
| `DeviceState.DeviceStateList.GetStateInfo` | resource/csdk/connectivity/src/bt_le_adapter/android/caleclient.c:4159-4186 | the first entry for the address, or none on a missing list or unknown address |
| `DeviceState.DeviceStateList.UpdateDeviceState` | resource/csdk/connectivity/src/bt_le_adapter/android/caleclient.c:3937-4018 | fails on a missing list, rejects a new address longer than `CA_MACADDR_SIZE`, and otherwise updates the selected field of the entry or appends a new one; the list stays duplicate-free |
| `DeviceState.DeviceStateList.IsValidState` | resource/csdk/connectivity/src/bt_le_adapter/android/caleclient.c:4188-4237 | true exactly when an entry exists and its selected field equals the target |
| `DeviceState.DeviceStateList.ResetDeviceStateForAll` | resource/csdk/connectivity/src/bt_le_adapter/android/caleclient.c:4086-4116 | every entry becomes disconnected and not sending; fails on a missing list |
| `DeviceState.DeviceStateList.RemoveDeviceState` | resource/csdk/connectivity/src/bt_le_adapter/android/caleclient.c:4118-4157 | removes the first entry for the address; fails only on a missing list |
| `DeviceState.DeviceStateList.RemoveAllDeviceState` | resource/csdk/connectivity/src/bt_le_adapter/android/caleclient.c:4055-4084 | frees every entry and the list; fails on a missing list |
| `DeviceState.DeviceStateList.SetMtuSize` | resource/csdk/connectivity/src/bt_le_adapter/android/caleclient.c:3878-3903 | sets the MTU of an existing entry only, and always succeeds |
| `DeviceState.DeviceStateList.GetMtuSize` | resource/csdk/connectivity/src/bt_le_adapter/android/caleclient.c:3905-3931 | the entry's MTU, or the default MTU for an unknown device |
| `DeviceState.DeviceStateList.SetFlagToState` | resource/csdk/connectivity/src/bt_le_adapter/android/caleclient.c:1609-1651 | sets the auto-connect flag of an existing entry only, and always succeeds |
| `DeviceState.DeviceStateList.GetFlagFromState` | resource/csdk/connectivity/src/bt_le_adapter/android/caleclient.c:1653-1693 | the entry's auto-connect flag; false for an unknown device or another flag index |
| `DeviceState.ReplaceKeepsUnique` | resource/csdk/connectivity/src/bt_le_adapter/android/caleclient.c:3950-3975 | changing an entry in place keeps the list duplicate-free |
| `DeviceState.UpsertKeepsUnique` | resource/csdk/connectivity/src/bt_le_adapter/android/caleclient.c:3937-4018 | an update never creates a second entry for an address |
| `DeviceState.UpdateKnownChangesOnlySelectedField` | resource/csdk/connectivity/src/bt_le_adapter/android/caleclient.c:3950-3975 | updating a known address changes only the selected field of its entry |
| `DeviceState.UpdateUnknownAppendsOne` | resource/csdk/connectivity/src/bt_le_adapter/android/caleclient.c:3976-4013 | updating an unknown address appends one entry with the default MTU, the flag off, the selected field set and the other idle, or both state fields 0 for any other state type |
| `DeviceState.UpsertIdempotent` | resource/csdk/connectivity/src/bt_le_adapter/android/caleclient.c:3937-4018 | applying an update twice is applying it once |
| `DeviceState.ValidAfterUpdate` | resource/csdk/connectivity/src/bt_le_adapter/android/caleclient.c:4188-4237 | after an update, the validity query of the address reads the value just written (0 for an unknown type) |
| `DeviceState.NoEntryNeverValid` | resource/csdk/connectivity/src/bt_le_adapter/android/caleclient.c:4188-4237 | a missing list or an unknown address is never in a valid state |
| `DeviceState.ResetAllKeepsAddresses` | resource/csdk/connectivity/src/bt_le_adapter/android/caleclient.c:4086-4116 | a reset keeps the length, order, addresses, flags and MTUs |
| `DeviceState.ResetAllDisconnects` | resource/csdk/connectivity/src/bt_le_adapter/android/caleclient.c:4086-4116 | after a reset every known device reads as disconnected and not sending |
| `DeviceState.RemoveForgetsAddress` | resource/csdk/connectivity/src/bt_le_adapter/android/caleclient.c:4118-4157 | after removing an address it is gone, and no other address is lost |
| `DeviceState.SetMtuKeepsAddresses` | resource/csdk/connectivity/src/bt_le_adapter/android/caleclient.c:3878-3903 | setting the MTU keeps the length and the list duplicate-free |
| `DeviceState.MtuRoundTrip` | resource/csdk/connectivity/src/bt_le_adapter/android/caleclient.c:3878-3931 | the MTU read back is the one set for a known device, the default for an unknown one, and unchanged for others |
| `DeviceState.UpsertKeepsMtu` | resource/csdk/connectivity/src/bt_le_adapter/android/caleclient.c:3937-4018 | a state update never changes the MTU read for the address |
| `DeviceState.SetFlagKeepsAddresses` | resource/csdk/connectivity/src/bt_le_adapter/android/caleclient.c:1609-1651 | setting the flag keeps the list duplicate-free |
| `DeviceState.FlagRoundTrip` | resource/csdk/connectivity/src/bt_le_adapter/android/caleclient.c:1609-1693 | the auto-connect flag read back after setting it on a known device is the value set |
| `AddressLists.ScanDeviceList.constructor` | resource/csdk/connectivity/src/bt_le_adapter/android/caleclient.c:65 | the list is missing until created |
| `AddressLists.ScanDeviceList.Create` | resource/csdk/connectivity/src/bt_le_adapter/android/caleclient.c:2888-2901 | creates the list only if it is missing |
| `AddressLists.ScanDeviceList.IsDeviceInScanDeviceList` | resource/csdk/connectivity/src/bt_le_adapter/android/caleclient.c:2956-3006 | true exactly when the list is missing or lists a device with the address |
| `AddressLists.ScanDeviceList.AddScanDeviceToList` | resource/csdk/connectivity/src/bt_le_adapter/android/caleclient.c:2903-2954 | on a missing list clears the scan flag and fails; otherwise appends a device with a new address and succeeds |
| `AddressLists.ScanDeviceList.RemoveAllScanDevices` | resource/csdk/connectivity/src/bt_le_adapter/android/caleclient.c:3008-3040 | frees the list; fails on a missing list |
| `AddressLists.ScanDeviceList.RemoveDeviceInScanDeviceList` | resource/csdk/connectivity/src/bt_le_adapter/android/caleclient.c:3042-3118 | removes the first device with the address; fails only on a missing list |
| `AddressLists.GattFor` | resource/csdk/connectivity/src/bt_le_adapter/android/caleclient.c:3433-3480 | the answer is a listed object with the address, and none exactly when no object has it |
| `AddressLists.GattObjectList.constructor` | resource/csdk/connectivity/src/bt_le_adapter/android/caleclient.c:66 | the list is missing until created |
| `AddressLists.GattObjectList.Create` | resource/csdk/connectivity/src/bt_le_adapter/android/caleclient.c:4239-4264 | creates the list only if it is missing |
| `AddressLists.GattObjectList.IsGattObjInList` | resource/csdk/connectivity/src/bt_le_adapter/android/caleclient.c:3385-3431 | true exactly when an object with the address is listed |
| `AddressLists.GattObjectList.GetGattObjInList` | resource/csdk/connectivity/src/bt_le_adapter/android/caleclient.c:3433-3480 | the first object with the address, if any |
| `AddressLists.GattObjectList.AddGattobjToList` | resource/csdk/connectivity/src/bt_le_adapter/android/caleclient.c:3341-3383 | fails on a missing list; otherwise appends an object with a new address and succeeds |
| `AddressLists.GattObjectList.RemoveAllGattObjs` | resource/csdk/connectivity/src/bt_le_adapter/android/caleclient.c:3482-3513 | frees the list and always succeeds |
| `AddressLists.GattObjectList.RemoveGattObj` | resource/csdk/connectivity/src/bt_le_adapter/android/caleclient.c:3515-3598 | removes the first object with the GATT object's address and always succeeds |
| `AddressLists.GattObjectList.RemoveGattObjForAddr` | resource/csdk/connectivity/src/bt_le_adapter/android/caleclient.c:3600-3674 | removes the first object with the address; fails exactly when an existing list does not have it |
| `AddressLists.FirstGattWins` | resource/csdk/connectivity/src/bt_le_adapter/android/caleclient.c:3341-3383 | after an add, the lookup of its address gives the object listed first for that address |
| `AddressLists.AddKeepsOtherLookups` | resource/csdk/connectivity/src/bt_le_adapter/android/caleclient.c:3341-3383 | an add never changes the lookup of another address |
| `AddressLists.FindPrefix` | resource/csdk/connectivity/src/bt_le_adapter/android/caleclient.c:3433-3480 | appending an element with another key does not change where a search stops |
| `AddressLists.RemoveForgetsGatt` | resource/csdk/connectivity/src/bt_le_adapter/android/caleclient.c:3600-3674 | after a removal nothing is found for the address, and other lookups are unchanged |
| `AddressLists.RemoveForAddrFailsIffAbsent` | resource/csdk/connectivity/src/bt_le_adapter/android/caleclient.c:3600-3674 | on an existing list the removal fails exactly when the address is absent, and then changes nothing |
| `ResponseChars.ResponseKey` | resource/csdk/connectivity/src/bt_le_adapter/android/caleclient.c:3125-3167 | the key is the address followed by the UUID's 36-character text |
| `ResponseChars.ResponseCharList.constructor` | resource/csdk/connectivity/src/bt_le_adapter/android/caleclient.c:74 | the list is missing until created |
| `ResponseChars.ResponseCharList.Create` | resource/csdk/connectivity/src/bt_le_adapter/android/caleclient.c:3169-3177 | always starts a fresh empty list |
| `ResponseChars.ResponseCharList.IsResponseCharInList` | resource/csdk/connectivity/src/bt_le_adapter/android/caleclient.c:3215-3270 | true exactly when the key of the GATT object's address and the UUID is listed |
| `ResponseChars.ResponseCharList.AddResponseCharToList` | resource/csdk/connectivity/src/bt_le_adapter/android/caleclient.c:3179-3213 | fails on a missing list; otherwise appends the key unless present, keeping the list duplicate-free |
| `ResponseChars.ResponseCharList.RemoveResponseCharListKeysForAddress` | resource/csdk/connectivity/src/bt_le_adapter/android/caleclient.c:3272-3335 | removes every key that starts with the address, keeping the others in order; fails on a missing list |
| `ResponseChars.WithoutPrefixMembers` | resource/csdk/connectivity/src/bt_le_adapter/android/caleclient.c:3272-3335 | a key survives exactly when it was there and does not start with the address |
| `ResponseChars.WithoutPrefixAppend` | resource/csdk/connectivity/src/bt_le_adapter/android/caleclient.c:3272-3335 | the filter works piece by piece, so kept keys stay in order |
| `ResponseChars.WithoutPrefixUnique` | resource/csdk/connectivity/src/bt_le_adapter/android/caleclient.c:3272-3335 | filtering keeps the list duplicate-free |
| `ResponseChars.RemovesEveryKeyOfAddress` | resource/csdk/connectivity/src/bt_le_adapter/android/caleclient.c:3272-3335 | after the removal no key of the address is left, whatever characteristic it named |
| `ResponseChars.KeepsKeysOfOtherAddresses` | resource/csdk/connectivity/src/bt_le_adapter/android/caleclient.c:3272-3335 | keys of another address of the same length survive, and none is invented |
| `ResponseChars.ResponseKeyInjective` | resource/csdk/connectivity/src/bt_le_adapter/android/caleclient.c:3125-3167 | for addresses of one length, two keys are equal exactly when they name the same address and UUID |
| `SendCount.CheckConnectionStateValue` | resource/csdk/connectivity/src/bt_le_adapter/android/caleclient.c:143-159 | true exactly for the nine GATT statuses after which the connection logic of a device is destroyed |
| `SendCount.OnDisconnected` | resource/csdk/connectivity/src/bt_le_adapter/android/caleclient.c:4868-4958 | a disconnect retries exactly on `GATT_ERROR` after a successful state write, finishes exactly on a failed write or a stop status, and otherwise counts a delivery |
| `SendCount.AfterDelivery` | resource/csdk/connectivity/src/bt_le_adapter/android/caleclient.c:4269-4297 | a delivery raises the count by one modulo 2^32; reaching the target resets both counters, drops the buffer and finishes the send |
| `SendCount.SendCounter.constructor` | resource/csdk/connectivity/src/bt_le_adapter/android/caleclient.c:87-90 | the four globals start at 0, NULL and false |
| `SendCount.SendCounter.UpdateSendCnt` | resource/csdk/connectivity/src/bt_le_adapter/android/caleclient.c:4269-4297 | the globals after the call are `AfterDelivery` of the globals before it |
| `SendCount.FinishesAtTarget` | resource/csdk/connectivity/src/bt_le_adapter/android/caleclient.c:4269-4297 | a send to n devices finishes at exactly the n-th delivery; before that only the count changes |
| `SendCount.LateDeliveriesStayFinished` | resource/csdk/connectivity/src/bt_le_adapter/android/caleclient.c:4269-4297 | deliveries after a finished send leave it finished, with both counters 0 |
| `SendCount.CountWraps` | resource/csdk/connectivity/src/bt_le_adapter/android/caleclient.c:4277 | a count of 2^32 - 1 wraps to 0, which finishes the send only for a target of 0 |
| `SendCount.DisconnectStatuses` | resource/csdk/connectivity/src/bt_le_adapter/android/caleclient.c:4882-4957 | a disconnect with success status finishes; `GATT_ERROR` is never a stop status, so after a successful state write it retries, while a failed state write finishes the send first |
| `TransportAdapter.GetValue` | android/android_api/base/src/main/java/org/iotivity/base/OcTransportAdapter.java:31-61 | the default adapter's value is 0 and every other value is a single bit among the six low bits |
| `TransportAdapter.ConvertToEnumSet` | android/android_api/base/src/main/java/org/iotivity/base/OcTransportAdapter.java:63-81 | returns the adapters whose bit is set, and throws exactly when there is none |
| `TransportAdapter.SelectedAmongSnoc` | android/android_api/base/src/main/java/org/iotivity/base/OcTransportAdapter.java:66-73 | one more constant adds itself to the set exactly when its bit is set |
| `TransportAdapter.SelectedExactly` | android/android_api/base/src/main/java/org/iotivity/base/OcTransportAdapter.java:66-73 | an adapter is in the set exactly when the mask has its bit |
| `TransportAdapter.DefaultNeverSelected` | android/android_api/base/src/main/java/org/iotivity/base/OcTransportAdapter.java:32 | the default adapter, of value 0, is never in the set |
| `TransportAdapter.InvalidIffNoKnownBit` | android/android_api/base/src/main/java/org/iotivity/base/OcTransportAdapter.java:76-78 | the conversion throws exactly when none of the six known bits is set, 0 included |
| `TransportAdapter.UnknownBitsIgnored` | android/android_api/base/src/main/java/org/iotivity/base/OcTransportAdapter.java:66-73 | bits outside the six known ones do not change the set |
| `TransportAdapter.DistinctBits` | android/android_api/base/src/main/java/org/iotivity/base/OcTransportAdapter.java:32-50 | distinct adapters have disjoint bits |
| `TransportAdapter.MaskOfBit` | android/android_api/base/src/main/java/org/iotivity/base/OcTransportAdapter.java:32-50 | the mask of a set carries an adapter's bit exactly when the adapter is a non-default member |
| `TransportAdapter.ConvertMaskOf` | android/android_api/base/src/main/java/org/iotivity/base/OcTransportAdapter.java:63-81 | decoding the mask of a set gives the set back, less the default adapter |

## Left out

- JNI failure paths: a null `JNIEnv`, a failed `GetStringUTFChars`, `FindClass`, `GetMethodID` or `CallObjectMethod`, and a null address or UUID string from a Java object. The model's Java objects always answer.
- `ResponseChars.ResponseKey`: the source tests `jAddress` a second time where it evidently means the UUID string (caleclient.c line 3137). A null UUID string is a JNI failure, which the model does not produce.
- Mutexes, condition variables and threads: each operation is modelled as one atomic step. Signalling the waiting sender (`ca_cond_signal`) is represented by `isFinishedSendData` becoming true.
- Memory: `OICCalloc` failure (`CA_MEMORY_ALLOC_FAILED`), `DeleteGlobalRef`/`NewGlobalRef`, and freeing list elements.
- `DeviceState.DeviceStateList.UpdateDeviceState`: does not model any truncation by `OICStrcpy` of an accepted address into the fixed-size address field of a new entry. `CALEState_t` is declared in a header that is not part of this model, so the stored address is the address given.
- The header constants are model constants with their IoTivity and Android values: `STATE_*`, `CA_LE_*`, `CA_DEFAULT_BLE_MTU_SIZE` (20), `CA_MACADDR_SIZE` (18), `GATT_ERROR` (0x85), the `BluetoothAdapter`/`BluetoothDevice` state and bond values and the intent action and extra names. The headers and SDK classes that define them are not part of this model.
- The connect, send, write, discovery and scan orchestration of `caleclient.c`: for example `CALEClientSendUnicastMessageImpl`, `CALEClientConnect`, the JNI GATT callbacks other than the disconnect branch, thread start/stop and the UUID list. Of the disconnect branch, only the decision after the state write is modelled (`SendCount.OnDisconnected`). The reconnect's own failures are JNI or platform failures.
- `LeClientInterface.ClientInterface.KeySnapshot`: the order of `HashMap.keySet()` is left open. The model proves that each key is listed once and nothing else, and not in which order.
- `LeClientInterface.RemoveBond`: the reflective lookup and invocation are an input (`Invocation`), since they call into the platform.
- `AdParser.GetUuids`: the collected UUID list is unbounded, so a cycle of offsets that adds UUIDs on each lap (a negative length after a 16-bit or 128-bit UUID list) is reported as `Diverges`, like a cycle that adds none. In Java the `ArrayList` grows on every lap until an `OutOfMemoryError` ends the loop. Heap size and the list's capacity limit are not modelled.
- `LeClientInterface.ClientInterface.OnLeScan`: for the same reason, a scan record whose parse cycles while adding UUIDs gives `ScanLoops`. In Java the `OutOfMemoryError` is not an `UnsatisfiedLinkError`, so it escapes `onLeScan`. The model's `ScanThrew` covers only the index exception.
- `onLeScan`'s `catch (UnsatisfiedLinkError)`: a missing native library is not modelled; native calls always succeed.
- Logging, `printStackTrace`, the receiver's registration and unregistration, and the callback-registration natives.
- A missing list passed to `u_arraylist_length`, as in `CALEClientIsGattObjInList`, reads as length 0. That function is not part of this model.
