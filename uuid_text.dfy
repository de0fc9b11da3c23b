/**
 * `java.util.UUID` as the scan callback uses it: a pair of 64-bit words,
 * their canonical lower-case text, and the `String` operations applied to
 * that text (`contains`, `toLowerCase`).
 *
 * A Java `long` is kept as its 64-bit two's-complement pattern, so each word
 * is a natural number below 2^64.
 */
module UuidText {
  type U64 = x: nat | x < 0x1_0000_0000_0000_0000

  /** A UUID: the most and the least significant 64 bits. */
  datatype Uuid = Uuid(msb: U64, lsb: U64)

  function Pow16(k: nat): (p: nat)
    ensures p >= 1
  {
    if k == 0 then 1 else 16 * Pow16(k - 1)
  }

  /** One lower-case hexadecimal digit. */
  function HexDigit(d: nat): (c: char)
    requires d < 16
    ensures '0' <= c <= '9' || 'a' <= c <= 'f'
  {
    if d < 10 then ('0' as int + d) as char else ('a' as int + d - 10) as char
  }

  /** The `k` lower-case hexadecimal digits of `v`, most significant first, zero-padded. */
  function Hex(v: nat, k: nat): (s: string)
    requires v < Pow16(k)
    ensures |s| == k
  {
    if k == 0 then [] else Hex(v / 16, k - 1) + [HexDigit(v % 16)]
  }

  /** Distinct values below 16^k have distinct `k`-digit texts. */
  lemma {:induction false} HexInjective(v: nat, w: nat, k: nat)
    requires v < Pow16(k) && w < Pow16(k)
    requires Hex(v, k) == Hex(w, k)
    ensures v == w
  {
    if k > 0 {
      var hv, hw := Hex(v, k), Hex(w, k);
      assert hv[k - 1] == HexDigit(v % 16) && hw[k - 1] == HexDigit(w % 16);
      assert v % 16 == w % 16;
      assert hv[..k - 1] == Hex(v / 16, k - 1);
      assert hw[..k - 1] == Hex(w / 16, k - 1);
      HexInjective(v / 16, w / 16, k - 1);
    }
  }

  lemma Pow16Values()
    ensures Pow16(4) == 0x1_0000
    ensures Pow16(8) == 0x1_0000_0000
    ensures Pow16(12) == 0x1_0000_0000_0000
  {
    assert Pow16(2) == 0x100;
    assert Pow16(4) == 0x1_0000;
    assert Pow16(8) == 0x1_0000_0000;
  }

  /**
   * `UUID.toString()`: five dash-separated groups of 8, 4, 4, 4 and 12
   * lower-case hex digits, the first three from the most significant word.
   */
  function ToString(u: Uuid): (s: string)
    ensures |s| == 36
    ensures s[8] == '-' && s[13] == '-' && s[18] == '-' && s[23] == '-'
  {
    Pow16Values();
    Hex(u.msb / 0x1_0000_0000, 8) + "-" +
    Hex((u.msb / 0x1_0000) % 0x1_0000, 4) + "-" +
    Hex(u.msb % 0x1_0000, 4) + "-" +
    Hex(u.lsb / 0x1_0000_0000_0000, 4) + "-" +
    Hex(u.lsb % 0x1_0000_0000_0000, 12)
  }

  /** A word is determined by its three most-significant-word groups. */
  lemma MsbGroups(x: U64, y: U64)
    requires x / 0x1_0000_0000 == y / 0x1_0000_0000
    requires (x / 0x1_0000) % 0x1_0000 == (y / 0x1_0000) % 0x1_0000
    requires x % 0x1_0000 == y % 0x1_0000
    ensures x == y
  {
    var hx, hy := x / 0x1_0000, y / 0x1_0000;
    assert hx / 0x1_0000 == x / 0x1_0000_0000;
    assert hy / 0x1_0000 == y / 0x1_0000_0000;
    assert hx == hy;
  }

  /** A word is determined by its top 16 bits and its low 48 bits. */
  lemma LsbGroups(x: U64, y: U64)
    requires x / 0x1_0000_0000_0000 == y / 0x1_0000_0000_0000
    requires x % 0x1_0000_0000_0000 == y % 0x1_0000_0000_0000
    ensures x == y
  {
  }

  /** The text of a UUID, split at its dashes. */
  lemma ToStringGroups(u: Uuid)
    ensures var s := ToString(u);
      && s[0..8] == Hex(u.msb / 0x1_0000_0000, 8)
      && s[9..13] == Hex((u.msb / 0x1_0000) % 0x1_0000, 4)
      && s[14..18] == Hex(u.msb % 0x1_0000, 4)
      && s[19..23] == Hex(u.lsb / 0x1_0000_0000_0000, 4)
      && s[24..36] == Hex(u.lsb % 0x1_0000_0000_0000, 12)
  {
  }

  /** Different UUIDs print differently. */
  lemma ToStringInjective(u: Uuid, v: Uuid)
    requires ToString(u) == ToString(v)
    ensures u == v
  {
    Pow16Values();
    ToStringGroups(u);
    ToStringGroups(v);
    HexInjective(u.msb / 0x1_0000_0000, v.msb / 0x1_0000_0000, 8);
    HexInjective((u.msb / 0x1_0000) % 0x1_0000, (v.msb / 0x1_0000) % 0x1_0000, 4);
    HexInjective(u.msb % 0x1_0000, v.msb % 0x1_0000, 4);
    HexInjective(u.lsb / 0x1_0000_0000_0000, v.lsb / 0x1_0000_0000_0000, 4);
    HexInjective(u.lsb % 0x1_0000_0000_0000, v.lsb % 0x1_0000_0000_0000, 12);
    MsbGroups(u.msb, v.msb);
    LsbGroups(u.lsb, v.lsb);
  }

  /** `String.contains`: `t` occurs in `s` as a contiguous run. */
  predicate Contains(s: string, t: string) {
    exists i :: 0 <= i <= |s| && OccursAt(s, t, i)
  }

  /** `t` occurs in `s` starting at index `i`. */
  predicate OccursAt(s: string, t: string, i: int) {
    0 <= i && i + |t| <= |s| && s[i..i + |t|] == t
  }

  /** Between strings of the same length, containment is equality. */
  lemma ContainsSameLength(s: string, t: string)
    requires |s| == |t|
    ensures Contains(s, t) <==> s == t
  {
    if s == t {
      assert OccursAt(s, t, 0);
    }
    if Contains(s, t) {
      var i :| OccursAt(s, t, i);
      assert s[0..|s|] == s;
    }
  }

  /** `Character.toLowerCase` on the ASCII letters; every other character is kept. */
  function LowerChar(c: char): char {
    if 'A' <= c <= 'Z' then (c as int - 'A' as int + 'a' as int) as char else c
  }

  /** `String.toLowerCase` for ASCII text. */
  function ToLower(s: string): (r: string)
    ensures |r| == |s|
    ensures forall i :: 0 <= i < |s| ==> r[i] == LowerChar(s[i])
  {
    seq(|s|, i requires 0 <= i < |s| => LowerChar(s[i]))
  }

  /** Lower-casing works piece by piece. */
  lemma ToLowerAppend(s: string, t: string)
    ensures ToLower(s + t) == ToLower(s) + ToLower(t)
  {
    var l, r := ToLower(s + t), ToLower(s) + ToLower(t);
    forall i | 0 <= i < |s| + |t| ensures l[i] == r[i] {
      if i < |s| {
        assert (s + t)[i] == s[i];
      } else {
        assert (s + t)[i] == t[i - |s|];
      }
    }
  }
}
