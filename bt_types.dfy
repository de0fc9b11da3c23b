/**
 * Values shared by the Java callback layer and the native client: Java's
 * signed byte, the Bluetooth objects the client keeps references to, and
 * the native result codes.
 */
module BtTypes {

  datatype Option<T> = None | Some(value: T)

  /** A Java `byte`: signed, -128..127. */
  newtype JByte = b: int | -128 <= b < 128

  /** The unsigned value of the bit pattern of a Java byte (`b & 0xFF`). */
  function Unsigned(b: JByte): (u: nat)
    ensures u < 256
    ensures u % 256 == (b as int) % 256
  {
    if b < 0 then b as int + 256 else b as int
  }

  /** A Bluetooth MAC address as the platform reports it ("AA:BB:CC:DD:EE:FF"). */
  type Address = string

  /**
   * A `BluetoothDevice` object: only its address is observable to this
   * model; `id` tells apart distinct objects for the same address.
   */
  datatype Device = Device(address: Address, id: nat)

  /** A `BluetoothGatt` object: its remote device and its object identity. */
  datatype Gatt = Gatt(device: Device, id: nat)

  /** The address a GATT object is keyed by (`gatt.getDevice().getAddress()`). */
  function GattAddress(g: Gatt): Address {
    g.device.address
  }

  /** The `CAResult_t` codes the native client returns. */
  datatype CAResult = StatusOk | StatusInvalidParam | StatusFailed
}
