/**
 * The native client's response-characteristic key list
 * (`g_responseCharList`): one key per (remote device, characteristic UUID)
 * pair whose notifications have been enabled. A key is the device address
 * followed by the UUID's canonical text, so that all the keys of one device
 * share the address as their prefix; a disconnect drops exactly those.
 */
module ResponseChars {
  import opened BtTypes
  import opened KeyedList
  import opened UuidText

  /** `CALEClientCreateResponseCharListKey`: the address concatenated with `UUID.toString()`. */
  function ResponseKey(address: Address, uuid: Uuid): (key: string)
    ensures |key| == |address| + 36
    ensures key[..|address|] == address && key[|address|..] == ToString(uuid)
  {
    address + ToString(uuid)
  }

  /** A key is its own search key (`String.equals`). */
  function KeyOf(key: string): string {
    key
  }

  /** `String.startsWith`. */
  predicate StartsWith(s: string, prefix: string) {
    |prefix| <= |s| && s[..|prefix|] == prefix
  }

  /** The keys that do not start with `prefix`, in their original order. */
  function WithoutPrefix(keys: seq<string>, prefix: string): (r: seq<string>)
    ensures |r| <= |keys|
  {
    if keys == [] then []
    else
      var last := keys[|keys| - 1];
      WithoutPrefix(keys[..|keys| - 1], prefix) + (if StartsWith(last, prefix) then [] else [last])
  }

  class ResponseCharList {
    /** `g_responseCharList != NULL`. */
    var isCreated: bool
    var keys: seq<string>

    ghost predicate Valid()
      reads this
    {
      (!isCreated ==> keys == []) && Unique(keys, KeyOf)
    }

    /** The list is missing until it is created. */
    constructor ()
      ensures Valid() && !isCreated
    {
      isCreated := false;
      keys := [];
    }

    /**
     * `CALEClientCreateResponseCharList`: always starts a fresh, empty list,
     * even when one exists already.
     */
    method Create()
      modifies this
      ensures Valid() && isCreated && keys == []
    {
      isCreated := true;
      keys := [];
    }

    /**
     * `CALEClientIsResponseCharInList`: whether the key of the GATT object's
     * address and `uuid` is listed. A missing list has no keys.
     */
    method IsResponseCharInList(gatt: Gatt, uuid: Uuid) returns (found: bool)
      requires Valid()
      ensures found <==> ResponseKey(GattAddress(gatt), uuid) in keys
    {
      var key := GattAddress(gatt) + ToString(uuid);
      var index := 0;
      while index < |keys|
        invariant 0 <= index <= |keys|
        invariant key !in keys[..index]
      {
        if keys[index] == key {
          return true;
        }
        assert keys[..index + 1] == keys[..index] + [keys[index]];
        index := index + 1;
      }
      assert keys[..index] == keys;
      return false;
    }

    /**
     * `CALEClientAddResponseCharToList`: fails on a missing list; otherwise
     * appends the key unless it is listed already, and succeeds.
     */
    method AddResponseCharToList(gatt: Gatt, uuid: Uuid) returns (res: CAResult)
      requires Valid()
      modifies this
      ensures Valid() && isCreated == old(isCreated)
      ensures res == if old(isCreated) then StatusOk else StatusFailed
      ensures keys == if old(isCreated)
                      then AddIfAbsent(old(keys), KeyOf, ResponseKey(GattAddress(gatt), uuid))
                      else old(keys)
    {
      if !isCreated {
        return StatusFailed;
      }
      var key := ResponseKey(GattAddress(gatt), uuid);
      var inList := IsResponseCharInList(gatt, uuid);
      assert inList <==> Has(keys, KeyOf, key) by {
        if inList {
          var j :| 0 <= j < |keys| && keys[j] == key;
          assert KeyOf(keys[j]) == key;
        }
      }
      if !inList {
        keys := keys + [key];
      }
      AddIfAbsentUnique(old(keys), KeyOf, key);
      return StatusOk;
    }

    /**
     * `CALEClientRemoveResponseCharListKeysForAddress`: removes every key that
     * starts with `address`. After a removal the same index is examined
     * again, which the source does by stepping the index and the length back.
     */
    method RemoveResponseCharListKeysForAddress(address: Address) returns (res: CAResult)
      requires Valid()
      modifies this
      ensures Valid() && isCreated == old(isCreated)
      ensures res == if old(isCreated) then StatusOk else StatusFailed
      ensures keys == if old(isCreated) then WithoutPrefix(old(keys), address) else old(keys)
    {
      if !isCreated {
        return StatusFailed;
      }
      var index := 0;
      ghost var done := 0;
      while index < |keys|
        invariant isCreated
        invariant 0 <= index <= |keys| && 0 <= done <= |old(keys)|
        invariant keys[..index] == WithoutPrefix(old(keys)[..done], address)
        invariant keys[index..] == old(keys)[done..]
        decreases |keys| - index
      {
        ghost var consumed := old(keys)[..done + 1];
        assert consumed[..done] == old(keys)[..done];
        assert keys[index] == old(keys)[done];
        if StartsWith(keys[index], address) {
          keys := RemoveAt(keys, index);
          assert keys[..index] == WithoutPrefix(consumed, address);
        } else {
          assert keys[..index + 1] == keys[..index] + [keys[index]];
          index := index + 1;
        }
        done := done + 1;
      }
      assert old(keys)[..done] == old(keys);
      assert keys[..index] == keys;
      WithoutPrefixUnique(old(keys), address);
      return StatusOk;
    }
  }

  // ---------------------------------------------------------------------------
  // Properties of the specification functions

  /** A key survives exactly when it was there and does not start with the prefix. */
  lemma {:induction false} WithoutPrefixMembers(keys: seq<string>, prefix: string, k: string)
    ensures k in WithoutPrefix(keys, prefix) <==> k in keys && !StartsWith(k, prefix)
  {
    if keys != [] {
      var init := keys[..|keys| - 1];
      WithoutPrefixMembers(init, prefix, k);
      assert keys == init + [keys[|keys| - 1]];
    }
  }

  /** The filter works piece by piece, so the kept keys stay in their original order. */
  lemma {:induction false} WithoutPrefixAppend(s: seq<string>, t: seq<string>, prefix: string)
    ensures WithoutPrefix(s + t, prefix) == WithoutPrefix(s, prefix) + WithoutPrefix(t, prefix)
  {
    if t != [] {
      var init := t[..|t| - 1];
      WithoutPrefixAppend(s, init, prefix);
      assert (s + t)[..|s + t| - 1] == s + init;
      assert (s + t)[|s + t| - 1] == t[|t| - 1];
    } else {
      assert s + t == s;
    }
  }

  /** A list without duplicate keys keeps that property when filtered. */
  lemma {:induction false} WithoutPrefixUnique(keys: seq<string>, prefix: string)
    requires Unique(keys, KeyOf)
    ensures Unique(WithoutPrefix(keys, prefix), KeyOf)
  {
    if keys != [] {
      var init := keys[..|keys| - 1];
      var last := keys[|keys| - 1];
      assert Unique(init, KeyOf) by {
        forall i, j | 0 <= i < j < |init| ensures KeyOf(init[i]) != KeyOf(init[j]) {
          assert init[i] == keys[i] && init[j] == keys[j];
        }
      }
      WithoutPrefixUnique(init, prefix);
      var w := WithoutPrefix(init, prefix);
      var r := WithoutPrefix(keys, prefix);
      if !StartsWith(last, prefix) {
        WithoutPrefixMembers(init, prefix, last);
        assert last !in init by {
          forall i | 0 <= i < |init| ensures init[i] != last {
            assert init[i] == keys[i] && KeyOf(keys[i]) != KeyOf(keys[|keys| - 1]);
          }
        }
        forall i, j | 0 <= i < j < |r| ensures KeyOf(r[i]) != KeyOf(r[j]) {
          if j == |w| {
            assert r[i] == w[i] && r[j] == last;
            assert w[i] in w;
          } else {
            assert r[i] == w[i] && r[j] == w[j];
          }
        }
      }
    }
  }

  /** After the removal no key of the address is left, whichever characteristic it named. */
  lemma RemovesEveryKeyOfAddress(keys: seq<string>, address: Address, uuid: Uuid)
    ensures ResponseKey(address, uuid) !in WithoutPrefix(keys, address)
  {
    WithoutPrefixMembers(keys, address, ResponseKey(address, uuid));
  }

  /**
   * Keys of any other address of the same length (every platform address
   * has the same length) survive the removal, and are not invented by it.
   */
  lemma KeepsKeysOfOtherAddresses(keys: seq<string>, address: Address, other: Address, uuid: Uuid)
    requires |other| == |address| && other != address
    ensures ResponseKey(other, uuid) in WithoutPrefix(keys, address) <==> ResponseKey(other, uuid) in keys
  {
    var k := ResponseKey(other, uuid);
    WithoutPrefixMembers(keys, address, k);
    assert !StartsWith(k, address) by {
      assert k[..|address|] == other;
    }
  }

  /** Two keys are equal exactly when they name the same address and UUID (addresses of one length). */
  lemma ResponseKeyInjective(a: Address, u: Uuid, b: Address, v: Uuid)
    requires |a| == |b|
    ensures ResponseKey(a, u) == ResponseKey(b, v) <==> a == b && u == v
  {
    if ResponseKey(a, u) == ResponseKey(b, v) {
      var k := ResponseKey(a, u);
      assert a == k[..|a|] == b;
      assert ToString(u) == k[|a|..] == ToString(v);
      ToStringInjective(u, v);
    }
  }
}
