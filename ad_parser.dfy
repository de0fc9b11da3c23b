/**
 * `CaLeClientInterface.getUuids`: the service UUIDs listed in a BLE scan
 * record. The record is a run of advertising-data structures, each a length
 * byte (counting the type byte and the data), a type byte and the data.
 * Types 0x02/0x03 list 16-bit UUIDs, types 0x06/0x07 list 128-bit UUIDs, and
 * every other type is skipped.
 *
 * The bytes are Java `byte`s (signed) and the loops follow the source exactly,
 * including what it does on malformed input: a read past either end of the
 * array throws `ArrayIndexOutOfBoundsException` (modelled as `IndexFault`),
 * a 128-bit block that does not fit is skipped, and a negative length can send
 * the offset backwards forever (modelled as `Diverges`, see `Run`).
 */
module AdParser {
  import opened BtTypes
  import opened UuidText

  /** The outcome of `getUuids`: the list it returns, the exception it throws, or no return at all. */
  datatype Parse = Parsed(uuids: seq<Uuid>) | IndexFault | Diverges

  /** One pass of the outer loop from a given offset. */
  datatype Step = Stop | Fault | Advance(next: int, found: seq<Uuid>)

  // ---------------------------------------------------------------------------
  // Reading UUIDs

  /** The low 64 bits `-8000-00805f9b34fb` shared by every expanded 16-bit UUID. */
  const BaseLsb: U64 := 0x8000_0080_5f9b_34fb
  /** The `-1000` group of the high word of an expanded 16-bit UUID. */
  const BaseMsbLow: nat := 0x1000

  /**
   * `uuid16 = rec[i]; uuid16 += rec[i + 1] << 8` on signed bytes: the shift of
   * an `int` in [-128, 127] by 8 is a multiplication by 256, without overflow.
   */
  function ReadUuid16(b0: JByte, b1: JByte): int {
    b0 as int + (b1 as int) * 256
  }

  /**
   * `UUID.fromString(String.format("%08x-0000-1000-8000-00805f9b34fb", uuid16))`:
   * `%08x` prints the 32-bit two's-complement pattern of the `int`.
   */
  function FromUuid16(uuid16: int): Uuid {
    Uuid((uuid16 % 0x1_0000_0000) * 0x1_0000_0000 + BaseMsbLow, BaseLsb)
  }

  /** The groups of the format string's fixed part. */
  lemma BaseGroupsText()
    ensures Hex(0, 4) == "0000"
    ensures Hex(0x1000, 4) == "1000"
    ensures Hex(0x8000, 4) == "8000"
    ensures Hex(0x0080_5f9b_34fb, 12) == "00805f9b34fb"
  {
    ShortGroups();
    NodeHigh();
    NodeMiddle();
    NodeLow();
  }

  /** The three four-digit groups. */
  lemma ShortGroups()
    ensures Hex(0, 4) == "0000"
    ensures Hex(0x1000, 4) == "1000"
    ensures Hex(0x8000, 4) == "8000"
  {
    assert Hex(0, 2) == "00";
    assert Hex(0, 3) == "000";
    assert Hex(0x1, 1) == "1";
    assert Hex(0x10, 2) == "10";
    assert Hex(0x100, 3) == "100";
    assert Hex(0x8, 1) == "8";
    assert Hex(0x80, 2) == "80";
    assert Hex(0x800, 3) == "800";
  }

  /** The first four digits of the node group. */
  lemma NodeHigh()
    ensures Hex(0x80, 4) == "0080"
  {
    assert Hex(0x0, 1) == "0";
    assert Hex(0x0, 2) == "00";
    assert Hex(0x8, 3) == "008";
  }

  /** The next four digits of the node group. */
  lemma NodeMiddle()
    ensures Hex(0x80, 4) == "0080" ==> Hex(0x805f9b, 8) == "00805f9b"
  {
    Pow16Values();
    assert Hex(0x805, 5) == Hex(0x80, 4) + "5";
    assert Hex(0x805f, 6) == Hex(0x805, 5) + "f";
    assert Hex(0x805f9, 7) == Hex(0x805f, 6) + "9";
    assert Hex(0x805f9b, 8) == Hex(0x805f9, 7) + "b";
  }

  /** The last four digits of the node group. */
  lemma NodeLow()
    ensures Hex(0x805f9b, 8) == "00805f9b" ==> Hex(0x805f9b34fb, 12) == "00805f9b34fb"
  {
    Pow16Values();
    assert Hex(0x805f9b3, 9) == Hex(0x805f9b, 8) + "3";
    assert Hex(0x805f9b34, 10) == Hex(0x805f9b3, 9) + "4";
    assert Hex(0x805f9b34f, 11) == Hex(0x805f9b34, 10) + "f";
    assert Hex(0x805f9b34fb, 12) == Hex(0x805f9b34f, 11) + "b";
  }

  /** The high word of an expanded UUID splits into the value, `0000` and `1000`. */
  lemma ExpandedMsbGroups(x: nat)
    requires x < 0x1_0000_0000
    ensures var msb := x * 0x1_0000_0000 + BaseMsbLow;
      && msb / 0x1_0000_0000 == x
      && (msb / 0x1_0000) % 0x1_0000 == 0
      && msb % 0x1_0000 == 0x1000
  {
    var msb := x * 0x1_0000_0000 + BaseMsbLow;
    assert msb / 0x1_0000 == x * 0x1_0000;
  }

  /** The groups of an expanded UUID's text. */
  lemma FromUuid16Groups(uuid16: int)
    ensures ToString(FromUuid16(uuid16))
         == Hex(uuid16 % 0x1_0000_0000, 8) + "-" + Hex(0, 4) + "-" + Hex(0x1000, 4) + "-"
            + Hex(0x8000, 4) + "-" + Hex(0x0080_5f9b_34fb, 12)
  {
    ExpandedMsbGroups(uuid16 % 0x1_0000_0000);
    assert BaseLsb / 0x1_0000_0000_0000 == 0x8000;
    assert BaseLsb % 0x1_0000_0000_0000 == 0x0080_5f9b_34fb;
  }

  /** The text of an expanded UUID is the format string with the value's eight hex digits. */
  lemma FromUuid16Text(uuid16: int)
    ensures ToString(FromUuid16(uuid16))
         == Hex(uuid16 % 0x1_0000_0000, 8) + "-" + "0000" + "-" + "1000" + "-" + "8000" + "-" + "00805f9b34fb"
  {
    FromUuid16Groups(uuid16);
    BaseGroupsText();
  }

  function Pow256(n: nat): (p: nat)
    ensures p >= 1
  {
    if n == 0 then 1 else 256 * Pow256(n - 1)
  }

  /** The unsigned little-endian value of `bs`: the bit pattern `ByteBuffer.getLong` reads in LITTLE_ENDIAN order. */
  function LeValue(bs: seq<JByte>): nat {
    if bs == [] then 0 else Unsigned(bs[0]) + 256 * LeValue(bs[1..])
  }

  /** `n` bytes hold a value below 256^n. */
  lemma {:induction false} LeValueBound(bs: seq<JByte>)
    ensures LeValue(bs) < Pow256(|bs|)
  {
    if bs != [] {
      LeValueBound(bs[1..]);
    }
  }

  /**
   * The UUID `new UUID(leastSigBits, mostSigBits)` builds from the 16 bytes at
   * `d`: the first eight bytes are read into `mostSigBits` but passed as the low
   * word, the next eight into `leastSigBits` but passed as the high word.
   */
  function Block128(rec: seq<JByte>, d: int): Uuid
    requires 0 <= d && d + 16 <= |rec|
  {
    Word(rec[d + 8..d + 16], rec[d..d + 8])
  }

  /** `ByteBuffer.getLong` in LITTLE_ENDIAN order, as an unsigned bit pattern. */
  function GetLong(bs: seq<JByte>): (v: U64)
    requires |bs| == 8
    ensures v == LeValue(bs)
  {
    Pow256Eight();
    LeValueBound(bs);
    LeValue(bs)
  }

  /** The UUID whose high word is read from `hi` and low word from `lo`. */
  function Word(hi: seq<JByte>, lo: seq<JByte>): Uuid
    requires |hi| == 8 && |lo| == 8
  {
    Uuid(GetLong(hi), GetLong(lo))
  }

  lemma Pow256Eight()
    ensures Pow256(8) == 0x1_0000_0000_0000_0000
  {
  }

  /** The 128-bit value of a UUID, high word first. */
  function UuidValue(u: Uuid): nat {
    u.msb * 0x1_0000_0000_0000_0000 + u.lsb
  }

  lemma {:induction false} LeValueAppend(a: seq<JByte>, b: seq<JByte>)
    ensures LeValue(a + b) == LeValue(a) + Pow256(|a|) * LeValue(b)
  {
    if a != [] {
      var ab := a + b;
      assert ab[0] == a[0];
      assert ab[1..] == a[1..] + b;
      LeValueAppend(a[1..], b);
      var u, la, p, lb := Unsigned(a[0]), LeValue(a[1..]), Pow256(|a| - 1), LeValue(b);
      assert LeValue(ab) == u + 256 * (la + p * lb);
      assert LeValue(a) == u + 256 * la;
      assert Pow256(|a|) == 256 * p;
      ShiftSum(u, la, p, lb);
    } else {
      assert a + b == b;
    }
  }

  lemma ShiftSum(u: int, la: int, p: int, lb: int)
    ensures u + 256 * (la + p * lb) == (u + 256 * la) + (256 * p) * lb
  {
  }

  /**
   * The swap of the two words makes the block the 128-bit little-endian value of
   * its 16 bytes: the byte order in which advertising data carries a 128-bit UUID.
   */
  lemma Block128IsLittleEndian(rec: seq<JByte>, d: int)
    requires 0 <= d && d + 16 <= |rec|
    ensures UuidValue(Block128(rec, d)) == LeValue(rec[d..d + 16])
  {
    var lo, hi := rec[d..d + 8], rec[d + 8..d + 16];
    assert rec[d..d + 16] == lo + hi;
    LeValueAppend(lo, hi);
    Pow256Eight();
    assert UuidValue(Block128(rec, d)) == LeValue(hi) * 0x1_0000_0000_0000_0000 + LeValue(lo);
  }

  /** The number of passes of the 16-bit inner loop `while (len > 1) { ...; len -= 2; }`. */
  function Pairs(len: int): nat {
    if len > 1 then len / 2 else 0
  }

  /** The number of passes of the 128-bit inner loop `while (len >= 16) { ...; len -= 16; }`. */
  function Blocks(len: int): nat {
    if len >= 16 then len / 16 else 0
  }

  /** The first `n` 16-bit UUIDs read from `d` on. */
  function Uuid16s(rec: seq<JByte>, d: nat, n: nat): (r: seq<Uuid>)
    requires d + 2 * n <= |rec|
    ensures |r| == n
  {
    if n == 0 then []
    else Uuid16s(rec, d, n - 1) + [FromUuid16(ReadUuid16(rec[d + 2 * (n - 1)], rec[d + 2 * (n - 1) + 1]))]
  }

  /** The UUIDs of the first `n` 16-byte blocks from `d` on; a block that runs past the end is skipped. */
  function Uuid128s(rec: seq<JByte>, d: nat, n: nat): seq<Uuid> {
    if n == 0 then []
    else
      var start := d + 16 * (n - 1);
      Uuid128s(rec, d, n - 1) + (if start + 16 <= |rec| then [Block128(rec, start)] else [])
  }

  // ---------------------------------------------------------------------------
  // The outer loop

  /**
   * One pass of `while (offset < length - 2)` at offset `o`: a zero length
   * breaks out; a 16-bit list faults if it runs past the end; a 128-bit list
   * always moves on by 16 per block; any other type skips `len - 1` bytes past
   * the type byte, backwards when `len` is negative.
   */
  function StepAt(rec: seq<JByte>, o: nat): Step
    requires o + 2 < |rec|
  {
    var len := rec[o] as int;
    if len == 0 then Stop
    else
      var adType := rec[o + 1] as int;
      var d := o + 2;
      if adType == 0x02 || adType == 0x03 then
        if d + 2 * Pairs(len) > |rec| then Fault
        else Advance(d + 2 * Pairs(len), Uuid16s(rec, d, Pairs(len)))
      else if adType == 0x06 || adType == 0x07 then
        Advance(d + 16 * Blocks(len), Uuid128s(rec, d, Blocks(len)))
      else
        Advance(d + len - 1, [])
  }

  /** `found` in front of the UUIDs of a completed run; a fault or a divergence discards them. */
  function Join(found: seq<Uuid>, rest: Parse): Parse {
    match rest
    case Parsed(more) => Parsed(found + more)
    case IndexFault => IndexFault
    case Diverges => Diverges
  }

  /**
   * The outer loop from offset `o` with at most `fuel` further passes. A
   * negative offset below the loop bound faults on the length read. Every
   * offset at which a pass starts lies in [0, |rec| - 3] and the pass depends
   * only on that offset, so a run still going after |rec| passes has visited
   * some offset twice and repeats forever (`AdParserTermination.ParseUuidsAnyBound`).
   * The collected list is unbounded here: a cycle that adds UUIDs is `Diverges`
   * like one that adds none.
   */
  function Run(rec: seq<JByte>, o: int, fuel: nat): Parse
    decreases fuel
  {
    if o >= |rec| - 2 then Parsed([])
    else if o < 0 then IndexFault
    else if fuel == 0 then Diverges
    else
      match StepAt(rec, o)
      case Stop => Parsed([])
      case Fault => IndexFault
      case Advance(next, found) => Join(found, Run(rec, next, fuel - 1))
  }

  /** What `getUuids(scanRecord)` does. */
  function ParseUuids(rec: seq<JByte>): Parse {
    Run(rec, 0, |rec|)
  }

  lemma JoinAssoc(a: seq<Uuid>, b: seq<Uuid>, r: Parse)
    ensures Join(a, Join(b, r)) == Join(a + b, r)
  {
    match r
    case Parsed(more) => assert a + (b + more) == (a + b) + more;
    case IndexFault =>
    case Diverges =>
  }

  /**
   * The `case 0x02: case 0x03:` arm of `getUuids` with the data starting at `d`:
   * reads little-endian pairs while `len > 1`; `fault` is the
   * `ArrayIndexOutOfBoundsException` of a read past the end.
   */
  method ReadUuid16List(rec: seq<JByte>, d: nat, len0: int) returns (fault: bool, offset: int, found: seq<Uuid>)
    requires d <= |rec|
    ensures fault <==> d + 2 * Pairs(len0) > |rec|
    ensures !fault ==> offset == d + 2 * Pairs(len0) && found == Uuid16s(rec, d, Pairs(len0))
  {
    var len := len0;
    offset := d;
    found := [];
    ghost var k: nat := 0;
    while len > 1
      invariant offset == d + 2 * k <= |rec|
      invariant len == len0 - 2 * k
      invariant len > 1 <==> k < Pairs(len0)
      invariant k <= Pairs(len0)
      invariant found == Uuid16s(rec, d, k)
      decreases len
    {
      if offset + 2 > |rec| {
        // scanRecord[offset++] runs off the end
        return true, offset, found;
      }
      var uuid16 := rec[offset] as int;
      offset := offset + 1;
      uuid16 := uuid16 + (rec[offset] as int) * 256;
      offset := offset + 1;
      len := len - 2;
      found := found + [FromUuid16(uuid16)];
      k := k + 1;
    }
    return false, offset, found;
  }

  /**
   * The `case 0x06: case 0x07:` arm of `getUuids` with the data starting at `d`:
   * one 16-byte block per pass while `len >= 16`; a block that does not fit
   * makes `ByteBuffer.wrap` throw, which is caught, and the `finally` block
   * still advances.
   */
  method ReadUuid128List(rec: seq<JByte>, d: nat, len0: int) returns (offset: int, found: seq<Uuid>)
    ensures offset == d + 16 * Blocks(len0)
    ensures found == Uuid128s(rec, d, Blocks(len0))
  {
    var len := len0;
    offset := d;
    found := [];
    ghost var k: nat := 0;
    while len >= 16
      invariant offset == d + 16 * k
      invariant len == len0 - 16 * k
      invariant len >= 16 <==> k < Blocks(len0)
      invariant k <= Blocks(len0)
      invariant found == Uuid128s(rec, d, k)
      decreases len
    {
      var start := offset;
      offset := offset + 1;
      if start + 16 <= |rec| {
        var mostSigBits := GetLong(rec[start..start + 8]);
        var leastSigBits := GetLong(rec[start + 8..start + 16]);
        found := found + [Uuid(leastSigBits, mostSigBits)];
      }
      offset := offset + 15;
      len := len - 16;
      k := k + 1;
    }
  }

  /**
   * One pass of the outer loop of `getUuids` from offset `o`: the length and
   * type reads and the `switch`.
   */
  method ReadStructure(rec: seq<JByte>, o: nat) returns (step: Step)
    requires o + 2 < |rec|
    ensures step == StepAt(rec, o)
  {
    var offset: int := o;
    var len := rec[offset] as int;
    offset := offset + 1;
    if len == 0 {
      return Stop;
    }
    var adType := rec[offset] as int;
    offset := offset + 1;
    var found: seq<Uuid> := [];
    if adType == 0x02 || adType == 0x03 {
      var fault;
      fault, offset, found := ReadUuid16List(rec, offset, len);
      if fault {
        return Fault;
      }
    } else if adType == 0x06 || adType == 0x07 {
      offset, found := ReadUuid128List(rec, offset, len);
    } else {
      offset := offset + (len - 1);
    }
    return Advance(offset, found);
  }

  /**
   * `getUuids`, loop for loop. The pass counter `rounds` is not in the source:
   * it stops the model where the source would loop forever.
   */
  method GetUuids(rec: seq<JByte>) returns (r: Parse)
    ensures r == ParseUuids(rec)
  {
    var uuids: seq<Uuid> := [];
    var offset: int := 0;
    var rounds: nat := 0;
    while offset < |rec| - 2
      invariant rounds <= |rec|
      invariant ParseUuids(rec) == Join(uuids, Run(rec, offset, |rec| - rounds))
      decreases |rec| - rounds
    {
      if offset < 0 {
        // scanRecord[offset] with a negative offset
        return IndexFault;
      }
      if rounds == |rec| {
        return Diverges;
      }
      var step := ReadStructure(rec, offset);
      match step
      case Stop =>
        break;
      case Fault =>
        return IndexFault;
      case Advance(next, found) =>
        JoinAssoc(uuids, found, Run(rec, next, |rec| - rounds - 1));
        uuids := uuids + found;
        offset := next;
        rounds := rounds + 1;
    }
    return Parsed(uuids);
  }

  // ---------------------------------------------------------------------------
  // The signed-byte read of 16-bit UUIDs

  /**
   * The 16-bit read agrees with the unsigned little-endian value of its two
   * bytes exactly when both bytes are below 0x80; otherwise the expanded UUID
   * differs (e.g. bytes 0x80 0xFE give `fffffd80-...` instead of `0000fe80-...`).
   */
  lemma Uuid16SignedRead(b0: JByte, b1: JByte)
    ensures FromUuid16(ReadUuid16(b0, b1)) == FromUuid16(Unsigned(b0) + 256 * Unsigned(b1))
        <==> b0 >= 0 && b1 >= 0
  {
    var x := ReadUuid16(b0, b1);
    var y := Unsigned(b0) + 256 * Unsigned(b1);
    if b0 < 0 || b1 < 0 {
      assert x < y;
      assert x % 0x1_0000_0000 != y % 0x1_0000_0000;
      assert FromUuid16(x).msb != FromUuid16(y).msb;
    }
  }

  // ---------------------------------------------------------------------------
  // Where the reads land

  /** The `i`-th 16-bit UUID comes from the pair at `d + 2i`. */
  lemma {:induction false} Uuid16sAt(rec: seq<JByte>, d: nat, n: nat, i: nat)
    requires d + 2 * n <= |rec| && i < n
    ensures Uuid16s(rec, d, n)[i] == FromUuid16(ReadUuid16(rec[d + 2 * i], rec[d + 2 * i + 1]))
  {
    if i < n - 1 {
      Uuid16sAt(rec, d, n - 1, i);
    }
  }

  /** When all `n` blocks fit, the `i`-th 128-bit UUID is the block at `d + 16i`. */
  lemma {:induction false} Uuid128sAt(rec: seq<JByte>, d: nat, n: nat, i: nat)
    requires d + 16 * n <= |rec| && i < n
    ensures |Uuid128s(rec, d, n)| == n
    ensures Uuid128s(rec, d, n)[i] == Block128(rec, d + 16 * i)
  {
    var start := d + 16 * (n - 1);
    assert start + 16 <= |rec|;
    var prev := Uuid128s(rec, d, n - 1);
    assert Uuid128s(rec, d, n) == prev + [Block128(rec, start)];
    if n > 1 {
      Uuid128sAt(rec, d, n - 1, if i < n - 1 then i else 0);
      assert |prev| == n - 1;
    }
  }

  // ---------------------------------------------------------------------------
  // Encoding: a record built from well-formed structures parses back

  /** An advertising-data structure as a scanner would find it. */
  datatype AdStructure =
    | Uuid16List(complete: bool, ids: seq<nat>)      // type 0x03 (complete) or 0x02
    | Uuid128List(complete: bool, uuids: seq<Uuid>)  // type 0x07 (complete) or 0x06
    | OtherData(adType: JByte, data: seq<JByte>)

  /** The bytes a structure takes: the length byte, the type byte and the data. */
  function Size(s: AdStructure): nat {
    match s
    case Uuid16List(_, ids) => 2 + 2 * |ids|
    case Uuid128List(_, us) => 2 + 16 * |us|
    case OtherData(_, data) => 2 + |data|
  }

  /** The Java byte with unsigned value `x`. */
  function ToJByte(x: nat): (b: JByte)
    requires x < 256
    ensures Unsigned(b) == x
  {
    if x < 128 then x as JByte else (x - 256) as JByte
  }

  /** `x` as `n` little-endian bytes. */
  function LeBytes(x: nat, n: nat): (bs: seq<JByte>)
    ensures |bs| == n
  {
    if n == 0 then [] else [ToJByte(x % 256)] + LeBytes(x / 256, n - 1)
  }

  lemma {:induction false} LeBytesRoundTrip(x: nat, n: nat)
    requires x < Pow256(n)
    ensures LeValue(LeBytes(x, n)) == x
  {
    if n > 0 {
      LeBytesRoundTrip(x / 256, n - 1);
      assert LeBytes(x, n)[1..] == LeBytes(x / 256, n - 1);
    }
  }

  /** The 16 little-endian bytes of a UUID: low word first. */
  function UuidBytes(u: Uuid): (bs: seq<JByte>)
    ensures |bs| == 16
  {
    LeBytes(u.lsb, 8) + LeBytes(u.msb, 8)
  }

  /** The data bytes of a 16-bit list: each UUID low byte first. */
  function Uuid16Bytes(ids: seq<nat>): (bs: seq<JByte>)
    requires forall i :: 0 <= i < |ids| ==> ids[i] < 0x1_0000
    ensures |bs| == 2 * |ids|
  {
    if ids == [] then []
    else [ToJByte(ids[0] % 256), ToJByte(ids[0] / 256)] + Uuid16Bytes(ids[1..])
  }

  /** The data bytes of a 128-bit list. */
  function Uuid128Bytes(us: seq<Uuid>): (bs: seq<JByte>)
    ensures |bs| == 16 * |us|
  {
    if us == [] then [] else UuidBytes(us[0]) + Uuid128Bytes(us[1..])
  }

  /**
   * A structure this parser reads back unchanged: its length fits a signed
   * byte, a skipped type is none of the four UUID types, and each 16-bit UUID
   * has both bytes below 0x80 (see `Uuid16SignedRead`).
   */
  predicate WellFormed(s: AdStructure) {
    match s
    case Uuid16List(_, ids) =>
      |ids| <= 63 && forall i :: 0 <= i < |ids| ==> ids[i] < 0x8000 && ids[i] % 256 < 0x80
    case Uuid128List(_, us) => |us| <= 7
    case OtherData(adType, data) =>
      |data| <= 126 && adType != 0x02 && adType != 0x03 && adType != 0x06 && adType != 0x07
  }

  function Encode(s: AdStructure): (bs: seq<JByte>)
    requires WellFormed(s)
    ensures |bs| == Size(s)
  {
    match s
    case Uuid16List(complete, ids) =>
      [(1 + 2 * |ids|) as JByte, if complete then 0x03 else 0x02] + Uuid16Bytes(ids)
    case Uuid128List(complete, us) =>
      [(1 + 16 * |us|) as JByte, if complete then 0x07 else 0x06] + Uuid128Bytes(us)
    case OtherData(adType, data) =>
      [(1 + |data|) as JByte, adType] + data
  }

  /** The UUIDs a structure lists. */
  function UuidsOf(s: AdStructure): (r: seq<Uuid>)
    ensures |r| <= Size(s) - 2
  {
    match s
    case Uuid16List(_, ids) => seq(|ids|, i requires 0 <= i < |ids| => FromUuid16(ids[i]))
    case Uuid128List(_, us) => us
    case OtherData(_, _) => []
  }

  predicate AllWellFormed(ss: seq<AdStructure>) {
    forall i :: 0 <= i < |ss| ==> WellFormed(ss[i])
  }

  function EncodeAll(ss: seq<AdStructure>): (bs: seq<JByte>)
    requires AllWellFormed(ss)
    ensures |bs| >= 2 * |ss|
  {
    if ss == [] then [] else Encode(ss[0]) + EncodeAll(ss[1..])
  }

  function AllUuids(ss: seq<AdStructure>): seq<Uuid> {
    if ss == [] then [] else UuidsOf(ss[0]) + AllUuids(ss[1..])
  }

  /** The bytes of the `i`-th 16-bit UUID in its list. */
  lemma {:induction false} Uuid16BytesAt(ids: seq<nat>, i: nat)
    requires forall j :: 0 <= j < |ids| ==> ids[j] < 0x1_0000
    requires i < |ids|
    ensures Uuid16Bytes(ids)[2 * i] == ToJByte(ids[i] % 256)
    ensures Uuid16Bytes(ids)[2 * i + 1] == ToJByte(ids[i] / 256)
  {
    if i > 0 {
      Uuid16BytesAt(ids[1..], i - 1);
    }
  }

  /** The bytes of the `i`-th 128-bit UUID in its list. */
  lemma {:induction false} Uuid128BytesAt(us: seq<Uuid>, i: nat, j: nat)
    requires i < |us| && j < 16
    ensures Uuid128Bytes(us)[16 * i + j] == UuidBytes(us[i])[j]
  {
    if i > 0 {
      Uuid128BytesAt(us[1..], i - 1, j);
    }
  }

  /** A well-formed 16-bit UUID laid down in its two bytes reads back as itself. */
  lemma Uuid16ReadBack(rec: seq<JByte>, d: nat, ids: seq<nat>, i: nat)
    requires forall j :: 0 <= j < |ids| ==> ids[j] < 0x8000 && ids[j] % 256 < 0x80
    requires d + 2 * |ids| <= |rec| && rec[d..d + 2 * |ids|] == Uuid16Bytes(ids)
    requires i < |ids|
    ensures ReadUuid16(rec[d + 2 * i], rec[d + 2 * i + 1]) == ids[i]
  {
    Uuid16BytesAt(ids, i);
    assert rec[d + 2 * i] == rec[d..d + 2 * |ids|][2 * i];
    assert rec[d + 2 * i + 1] == rec[d..d + 2 * |ids|][2 * i + 1];
  }

  /** The 16 bytes of the `i`-th UUID of a laid-down 128-bit list. */
  lemma Uuid128SliceAt(rec: seq<JByte>, d: nat, us: seq<Uuid>, i: nat)
    requires d + 16 * |us| <= |rec| && rec[d..d + 16 * |us|] == Uuid128Bytes(us)
    requires i < |us|
    ensures rec[d + 16 * i..d + 16 * i + 16] == UuidBytes(us[i])
  {
    var w := rec[d + 16 * i..d + 16 * i + 16];
    forall j | 0 <= j < 16 ensures w[j] == UuidBytes(us[i])[j] {
      Uuid128BytesAt(us, i, j);
      assert w[j] == rec[d..d + 16 * |us|][16 * i + j];
    }
  }

  /** A UUID laid down in its 16 bytes reads back as itself. */
  lemma Block128ReadBack(rec: seq<JByte>, start: nat, u: Uuid)
    requires start + 16 <= |rec| && rec[start..start + 16] == UuidBytes(u)
    ensures Block128(rec, start) == u
  {
    var w := rec[start..start + 16];
    assert rec[start..start + 8] == w[..8] == LeBytes(u.lsb, 8);
    assert rec[start + 8..start + 16] == w[8..] == LeBytes(u.msb, 8);
    Pow256Eight();
    LeBytesRoundTrip(u.lsb, 8);
    LeBytesRoundTrip(u.msb, 8);
  }

  /** The head of a structure laid down at `o`: its length byte and its type byte. */
  lemma HeaderAt(rec: seq<JByte>, o: nat, s: AdStructure)
    requires WellFormed(s)
    requires o + Size(s) <= |rec| && rec[o..o + Size(s)] == Encode(s)
    ensures rec[o] as int == Size(s) - 1
    ensures rec[o + 1] == Encode(s)[1]
    ensures rec[o + 2..o + Size(s)] == Encode(s)[2..]
  {
    var e := Encode(s);
    assert rec[o] == e[0] && rec[o + 1] == e[1];
    assert rec[o + 2..o + Size(s)] == rec[o..o + Size(s)][2..];
  }

  /** A laid-down 16-bit list reads back as the expanded UUIDs, in order. */
  lemma Uuid16ListReadBack(rec: seq<JByte>, d: nat, ids: seq<nat>)
    requires forall j :: 0 <= j < |ids| ==> ids[j] < 0x8000 && ids[j] % 256 < 0x80
    requires d + 2 * |ids| <= |rec| && rec[d..d + 2 * |ids|] == Uuid16Bytes(ids)
    ensures Uuid16s(rec, d, |ids|) == seq(|ids|, i requires 0 <= i < |ids| => FromUuid16(ids[i]))
  {
    var n := |ids|;
    var found := Uuid16s(rec, d, n);
    forall i | 0 <= i < n ensures found[i] == FromUuid16(ids[i]) {
      Uuid16sAt(rec, d, n, i);
      Uuid16ReadBack(rec, d, ids, i);
    }
  }

  /** One pass over a well-formed 16-bit list moves past it and collects its UUIDs. */
  lemma StepEncoded16(rec: seq<JByte>, o: nat, s: AdStructure)
    requires s.Uuid16List? && WellFormed(s)
    requires o + Size(s) <= |rec| && rec[o..o + Size(s)] == Encode(s)
    requires o + 2 < |rec|
    ensures StepAt(rec, o) == Advance(o + Size(s), UuidsOf(s))
  {
    HeaderAt(rec, o, s);
    var n := |s.ids|;
    assert Pairs(rec[o] as int) == n;
    assert Encode(s)[2..] == Uuid16Bytes(s.ids);
    Uuid16ListReadBack(rec, o + 2, s.ids);
  }

  /** A laid-down 128-bit list reads back as its UUIDs, in order. */
  lemma Uuid128ListReadBack(rec: seq<JByte>, d: nat, us: seq<Uuid>)
    requires d + 16 * |us| <= |rec| && rec[d..d + 16 * |us|] == Uuid128Bytes(us)
    ensures Uuid128s(rec, d, |us|) == us
  {
    var n := |us|;
    var found := Uuid128s(rec, d, n);
    if n > 0 {
      Uuid128sAt(rec, d, n, 0);
    }
    forall i | 0 <= i < n ensures found[i] == us[i] {
      Uuid128sAt(rec, d, n, i);
      Uuid128SliceAt(rec, d, us, i);
      Block128ReadBack(rec, d + 16 * i, us[i]);
    }
  }

  /** One pass over a well-formed 128-bit list moves past it and collects its UUIDs. */
  lemma StepEncoded128(rec: seq<JByte>, o: nat, s: AdStructure)
    requires s.Uuid128List? && WellFormed(s)
    requires o + Size(s) <= |rec| && rec[o..o + Size(s)] == Encode(s)
    requires o + 2 < |rec|
    ensures StepAt(rec, o) == Advance(o + Size(s), UuidsOf(s))
  {
    HeaderAt(rec, o, s);
    var n := |s.uuids|;
    assert Blocks(rec[o] as int) == n;
    assert Encode(s)[2..] == Uuid128Bytes(s.uuids);
    Uuid128ListReadBack(rec, o + 2, s.uuids);
  }

  /** One pass over a well-formed structure at `o` moves past it and collects its UUIDs. */
  lemma StepEncoded(rec: seq<JByte>, o: nat, s: AdStructure)
    requires WellFormed(s)
    requires o + Size(s) <= |rec| && rec[o..o + Size(s)] == Encode(s)
    requires o + 2 < |rec|
    ensures StepAt(rec, o) == Advance(o + Size(s), UuidsOf(s))
  {
    match s
    case Uuid16List(_, _) => StepEncoded16(rec, o, s);
    case Uuid128List(_, _) => StepEncoded128(rec, o, s);
    case OtherData(_, _) => HeaderAt(rec, o, s);
  }

  /**
   * `ss` lies from `o` to the end of `rec` as the outer loop sees it: each
   * pass that starts at one of them (and is inside the loop bound) moves past
   * it and collects its UUIDs.
   */
  ghost predicate Chain(rec: seq<JByte>, o: nat, ss: seq<AdStructure>)
    decreases |ss|
  {
    if ss == [] then o == |rec|
    else
      && o + Size(ss[0]) <= |rec|
      && (o + 2 < |rec| ==> StepAt(rec, o) == Advance(o + Size(ss[0]), UuidsOf(ss[0])))
      && Chain(rec, o + Size(ss[0]), ss[1..])
  }

  /** The encoding of `ss` at `o` is the encoding of its head followed by that of its tail. */
  lemma SplitEncoded(rec: seq<JByte>, o: nat, ss: seq<AdStructure>)
    requires AllWellFormed(ss)
    requires ss != [] && o <= |rec| && rec[o..] == EncodeAll(ss)
    ensures o + Size(ss[0]) <= |rec|
    ensures rec[o..o + Size(ss[0])] == Encode(ss[0])
    ensures rec[o + Size(ss[0])..] == EncodeAll(ss[1..])
  {
    var e := Encode(ss[0]);
    var rest := EncodeAll(ss[1..]);
    assert rec[o..] == e + rest;
    assert rec[o..o + |e|] == rec[o..][..|e|] == e;
    assert rec[o + |e|..] == rec[o..][|e|..] == rest;
  }

  /** Dropping the head of a list of well-formed structures leaves well-formed structures. */
  lemma AllWellFormedTail(ss: seq<AdStructure>)
    requires AllWellFormed(ss) && ss != []
    ensures WellFormed(ss[0]) && AllWellFormed(ss[1..])
  {
    var tail := ss[1..];
    forall i | 0 <= i < |tail| ensures WellFormed(tail[i]) {
      assert tail[i] == ss[i + 1];
    }
  }

  /** The pass at the start of an encoded structure, if the loop bound lets it run. */
  lemma HeadStep(rec: seq<JByte>, o: nat, s: AdStructure)
    requires WellFormed(s)
    requires o + Size(s) <= |rec| && rec[o..o + Size(s)] == Encode(s)
    ensures o + 2 < |rec| ==> StepAt(rec, o) == Advance(o + Size(s), UuidsOf(s))
  {
    if o + 2 < |rec| {
      StepEncoded(rec, o, s);
    }
  }

  /** `ss` is laid down byte for byte from `o` to the end of `rec`. */
  ghost predicate Laid(rec: seq<JByte>, o: nat, ss: seq<AdStructure>)
    decreases |ss|
  {
    if ss == [] then o == |rec|
    else
      && WellFormed(ss[0])
      && o + Size(ss[0]) <= |rec|
      && rec[o..o + Size(ss[0])] == Encode(ss[0])
      && Laid(rec, o + Size(ss[0]), ss[1..])
  }

  /** The encoding of a list of structures lays them down in order. */
  lemma {:induction false} EncodedLaid(rec: seq<JByte>, o: nat, ss: seq<AdStructure>)
    requires AllWellFormed(ss)
    requires o <= |rec| && rec[o..] == EncodeAll(ss)
    ensures Laid(rec, o, ss)
    decreases |ss|
  {
    if ss == [] {
      assert |rec[o..]| == 0;
    } else {
      AllWellFormedTail(ss);
      SplitEncoded(rec, o, ss);
      EncodedLaid(rec, o + Size(ss[0]), ss[1..]);
    }
  }

  /** Structures laid down in order form a chain. */
  lemma {:induction false} LaidChain(rec: seq<JByte>, o: nat, ss: seq<AdStructure>)
    requires Laid(rec, o, ss)
    ensures Chain(rec, o, ss)
    decreases |ss|
  {
    if ss != [] {
      HeadStep(rec, o, ss[0]);
      LaidChain(rec, o + Size(ss[0]), ss[1..]);
    }
  }

  /** A chain that starts within two bytes of the end is one empty structure. */
  lemma ChainTail(rec: seq<JByte>, o: nat, ss: seq<AdStructure>)
    requires Chain(rec, o, ss) && o + 2 >= |rec|
    ensures AllUuids(ss) == []
  {
    if ss != [] {
      var next := o + Size(ss[0]);
      assert Chain(rec, next, ss[1..]);
      assert next == |rec|;
      assert ss[1..] == [];
      assert UuidsOf(ss[0]) == [];
    }
  }

  /** The run from the start of a chain collects the UUIDs of its structures, in order. */
  lemma {:induction false} RunChain(rec: seq<JByte>, o: nat, ss: seq<AdStructure>, fuel: nat)
    requires Chain(rec, o, ss) && fuel >= |ss|
    ensures Run(rec, o, fuel) == Parsed(AllUuids(ss))
    decreases |ss|
  {
    if o + 2 >= |rec| {
      ChainTail(rec, o, ss);
    } else {
      assert ss != [];
      var head, next, tail, f: nat := ss[0], o + Size(ss[0]), ss[1..], fuel - 1;
      var found := UuidsOf(head);
      assert StepAt(rec, o) == Advance(next, found);
      assert Chain(rec, next, tail);
      RunChain(rec, next, tail, f);
      assert Run(rec, o, fuel) == Join(found, Run(rec, next, f));
      assert AllUuids(ss) == found + AllUuids(tail);
    }
  }

  /** A record made of well-formed structures yields the UUIDs they list, in order. */
  lemma ParseEncoded(ss: seq<AdStructure>)
    requires AllWellFormed(ss)
    ensures ParseUuids(EncodeAll(ss)) == Parsed(AllUuids(ss))
  {
    var rec := EncodeAll(ss);
    assert rec[0..] == rec;
    EncodedLaid(rec, 0, ss);
    LaidChain(rec, 0, ss);
    RunChain(rec, 0, ss, |rec|);
  }
}
