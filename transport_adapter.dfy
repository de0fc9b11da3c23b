/**
 * The transport adapters a resource can be reached over (the Java enum
 * OcTransportAdapter) and the decoding of the native adapter bitmask into
 * the set of adapters whose bit it carries.
 *
 * A Java `int` is modelled by its 32-bit two's-complement pattern (`bv32`),
 * so the source's `value & v.getValue()` is the bit-vector `&` exactly.
 */
module TransportAdapter {
  import opened BtTypes

  datatype Adapter =
    | DefaultAdapter       // value zero: discovery
    | AdapterIp            // IPv4 and IPv6, including 6LoWPAN
    | AdapterGattBtle      // GATT over Bluetooth LE
    | AdapterRfcommBtedr   // RFCOMM over Bluetooth EDR
    | AdapterRemoteAccess  // remote access over XMPP
    | AdapterTcp           // CoAP over TCP
    | AdapterNfc           // NFC transport

  /** `values()`: the enum constants in declaration order. */
  const Values: seq<Adapter> :=
    [DefaultAdapter, AdapterIp, AdapterGattBtle, AdapterRfcommBtedr,
     AdapterRemoteAccess, AdapterTcp, AdapterNfc]

  /** The bits of the six non-default adapters. */
  const KnownBits: bv32 := 0x3F

  /** `getValue()`: the value each constant was constructed with. */
  function GetValue(a: Adapter): (v: bv32)
    ensures a == DefaultAdapter <==> v == 0
    ensures a != DefaultAdapter ==> v & (v - 1) == 0 && v & KnownBits == v
  {
    match a
    case DefaultAdapter => 0
    case AdapterIp => 1 << 0
    case AdapterGattBtle => 1 << 1
    case AdapterRfcommBtedr => 1 << 2
    case AdapterRemoteAccess => 1 << 3
    case AdapterTcp => 1 << 4
    case AdapterNfc => 1 << 5
  }

  /** The adapters among `xs` whose bit is set in `mask`. */
  function SelectedAmong(mask: bv32, xs: seq<Adapter>): set<Adapter> {
    set a | a in xs && mask & GetValue(a) != 0
  }

  lemma SelectedAmongSnoc(mask: bv32, xs: seq<Adapter>, v: Adapter)
    ensures SelectedAmong(mask, xs + [v])
         == SelectedAmong(mask, xs) + (if mask & GetValue(v) != 0 then {v} else {})
  {
  }

  /** The adapters whose bit is set in `mask`: what a successful conversion returns. */
  function Selected(mask: bv32): set<Adapter> {
    SelectedAmong(mask, Values)
  }

  /** Outcome of `convertToEnumSet`: the set, or the `InvalidParameterException` it throws. */
  datatype Conversion = Converted(adapters: set<Adapter>) | InvalidParameter(mask: bv32)

  /**
   * `convertToEnumSet`: walks `values()`, creating the set on the first
   * match and adding to it afterwards, then throws if nothing matched.
   */
  method ConvertToEnumSet(mask: bv32) returns (r: Conversion)
    ensures r.Converted? <==> Selected(mask) != {}
    ensures r.Converted? ==> r.adapters == Selected(mask)
    ensures r.InvalidParameter? ==> r.mask == mask
  {
    var typeSet: Option<set<Adapter>> := None;
    var i := 0;
    while i < |Values|
      invariant 0 <= i <= |Values|
      invariant typeSet.None? <==> SelectedAmong(mask, Values[..i]) == {}
      invariant typeSet.Some? ==> typeSet.value == SelectedAmong(mask, Values[..i])
    {
      var v := Values[i];
      assert Values[..i + 1] == Values[..i] + [v];
      SelectedAmongSnoc(mask, Values[..i], v);
      if mask & GetValue(v) != 0 {
        if typeSet.None? {
          typeSet := Some({v});
        } else {
          typeSet := Some(typeSet.value + {v});
        }
      }
      i := i + 1;
    }
    assert Values[..i] == Values;
    if typeSet.None? || typeSet.value == {} {
      r := InvalidParameter(mask);
    } else {
      r := Converted(typeSet.value);
    }
  }

  /** An adapter is selected exactly when its bit is set. */
  lemma SelectedExactly(mask: bv32, a: Adapter)
    ensures a in Selected(mask) <==> mask & GetValue(a) != 0
  {
    assert a in Values;
  }

  /** The default adapter (value 0) is never in a conversion's result. */
  lemma DefaultNeverSelected(mask: bv32)
    ensures DefaultAdapter !in Selected(mask)
  {
  }

  /** The conversion fails exactly when none of the six known bits is set, 0 included. */
  lemma InvalidIffNoKnownBit(mask: bv32)
    ensures Selected(mask) == {} <==> mask & KnownBits == 0
  {
    var low := mask & KnownBits;
    if low == 0 {
      forall a | a in Values ensures mask & GetValue(a) == 0 {
        assert mask & GetValue(a) == low & GetValue(a);
      }
    } else if low & 1 != 0 {
      assert AdapterIp in Selected(mask);
    } else if low & 2 != 0 {
      assert AdapterGattBtle in Selected(mask);
    } else if low & 4 != 0 {
      assert AdapterRfcommBtedr in Selected(mask);
    } else if low & 8 != 0 {
      assert AdapterRemoteAccess in Selected(mask);
    } else if low & 16 != 0 {
      assert AdapterTcp in Selected(mask);
    } else {
      assert AdapterNfc in Selected(mask);
    }
  }

  /** Bits outside the six known ones do not change the result. */
  lemma UnknownBitsIgnored(mask: bv32)
    ensures Selected(mask) == Selected(mask & KnownBits)
  {
    forall a | a in Values
      ensures (mask & GetValue(a) != 0) == ((mask & KnownBits) & GetValue(a) != 0)
    {
    }
  }

  /** Distinct non-default adapters hold disjoint bits. */
  lemma DistinctBits(a: Adapter, b: Adapter)
    requires a != b
    ensures GetValue(a) & GetValue(b) == 0
  {
  }

  /** The bitmask carrying exactly the adapters of `s`. */
  function MaskOf(s: set<Adapter>): bv32 {
    (if AdapterIp in s then GetValue(AdapterIp) else 0)
    | (if AdapterGattBtle in s then GetValue(AdapterGattBtle) else 0)
    | (if AdapterRfcommBtedr in s then GetValue(AdapterRfcommBtedr) else 0)
    | (if AdapterRemoteAccess in s then GetValue(AdapterRemoteAccess) else 0)
    | (if AdapterTcp in s then GetValue(AdapterTcp) else 0)
    | (if AdapterNfc in s then GetValue(AdapterNfc) else 0)
  }

  /** The mask of `s` carries the bit of `a` exactly when `a` is a non-default member of `s`. */
  lemma MaskOfBit(s: set<Adapter>, a: Adapter)
    ensures MaskOf(s) & GetValue(a) != 0 <==> a in s && a != DefaultAdapter
  {
    var ip: bv32 := if AdapterIp in s then 1 else 0;
    var gatt: bv32 := if AdapterGattBtle in s then 2 else 0;
    var rfcomm: bv32 := if AdapterRfcommBtedr in s then 4 else 0;
    var remote: bv32 := if AdapterRemoteAccess in s then 8 else 0;
    var tcp: bv32 := if AdapterTcp in s then 16 else 0;
    var nfc: bv32 := if AdapterNfc in s then 32 else 0;
    assert MaskOf(s) == ip | gatt | rfcomm | remote | tcp | nfc;
  }

  /** Decoding the mask of a set of adapters gives that set back, less the default adapter. */
  lemma ConvertMaskOf(s: set<Adapter>)
    ensures Selected(MaskOf(s)) == s - {DefaultAdapter}
  {
    forall a ensures a in Selected(MaskOf(s)) <==> a in s - {DefaultAdapter} {
      SelectedExactly(MaskOf(s), a);
      MaskOfBit(s, a);
    }
  }
}
