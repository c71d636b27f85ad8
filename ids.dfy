/**
 * ID assignment in `add`: the new ID is `int(max(keys)) + 1`, or 0 for an
 * empty store. The maximum is taken over the key strings, so it is the
 * lexicographically greatest key, not the numerically greatest one.
 */
module Ids {
  import opened Decimal
  import opened LexOrder
  import opened Seqs

  predicate AllDecimal(keys: seq<string>) {
    forall k :: k in keys ==> IsDecimal(k)
  }

  /** The ID `add` assigns, given the keys of the store: `int(max(keys, default=-1)) + 1`. */
  function NextId(keys: seq<string>): (id: nat)
    requires AllDecimal(keys)
    ensures id == 0 <==> keys == []
  {
    if keys == [] then 0 else ParseNat(LexMax(keys)) + 1
  }

  /**
   * The new ID is 0 for an empty store, and otherwise one more than the
   * number written by the key that is greatest as a string.
   */
  lemma NextIdIsLexMaxPlusOne(keys: seq<string>)
    requires AllDecimal(keys)
    ensures keys == [] ==> NextId(keys) == 0
    ensures keys != [] ==>
      exists k :: k in keys && NextId(keys) == ParseNat(k) + 1 && forall k' :: k' in keys ==> LexLe(k', k)
  {
    if keys != [] {
      var m := LexMax(keys);
      LexMaxIsGreatest(keys);
      assert m in keys && NextId(keys) == ParseNat(m) + 1;
    }
  }

  /**
   * When every key is a single digit, the lexicographic and numeric orders
   * agree: the new ID is the numeric maximum plus one, and it is not yet a key.
   * This is the only case in which the ID is the unique identifier the
   * module's doc comment promises.
   */
  lemma SingleDigitNextId(keys: seq<string>)
    requires AllDecimal(keys) && forall k :: k in keys ==> |k| == 1
    ensures forall k :: k in keys ==> ParseNat(k) < NextId(keys)
    ensures keys != [] ==> exists k :: k in keys && ParseNat(k) + 1 == NextId(keys)
    ensures NatToString(NextId(keys)) !in keys
  {
    var id := NextId(keys);
    NextIdIsLexMaxPlusOne(keys);
    if keys != [] {
      var m :| m in keys && id == ParseNat(m) + 1 && forall k' :: k' in keys ==> LexLe(k', m);
      forall k | k in keys ensures ParseNat(k) < id {
        SingleCharLexLe(k, m);
        assert k[..0] == [] && m[..0] == [];
      }
    }
    ParseNatToString(id);
  }

  /**
   * Once a store holds "9" and "10" and no other key starts with '9', the
   * lexicographic maximum is "9", so the new ID is 10: already a key. `add`
   * then overwrites task 10 in place.
   */
  lemma NextIdCollides(keys: seq<string>)
    requires AllDecimal(keys)
    requires "9" in keys && "10" in keys
    requires forall k :: k in keys && k[0] == '9' ==> k == "9"
    ensures NextId(keys) == 10
    ensures NatToString(NextId(keys)) in keys
  {
    NextIdIsLexMaxPlusOne(keys);
    var m :| m in keys && NextId(keys) == ParseNat(m) + 1 && forall k' :: k' in keys ==> LexLe(k', m);
    assert LexLe("9", m);
    assert m[0] == '9';
    assert m == "9";
    assert "9"[..0] == [];
    TenIsKey();
  }

  /** The keys `str(0)`, ..., `str(n - 1)`, in that order: the store after `n` adds from empty. */
  function Range(n: nat): (keys: seq<string>)
    ensures |keys| == n
    ensures forall i :: 0 <= i < n ==> keys[i] == NatToString(i)
  {
    if n == 0 then [] else Range(n - 1) + [NatToString(n - 1)]
  }

  /** `str(10)` is "10". */
  lemma TenIsKey()
    ensures NatToString(10) == "10"
  {
  }

  /** Every key of `Range(n)` is the string of an index below `n`. */
  lemma RangeKeys(n: nat, k: string)
    requires k in Range(n)
    ensures exists i :: 0 <= i < n && k == NatToString(i)
  {
  }

  /** From an empty store, the first ten adds get IDs 0, 1, ..., 9, each a fresh key. */
  lemma RangeNextId(n: nat)
    requires n <= 10
    ensures AllDecimal(Range(n))
    ensures NextId(Range(n)) == n && NatToString(n) !in Range(n)
  {
    var keys := Range(n);
    forall k | k in keys ensures IsDecimal(k) && |k| == 1 && ParseNat(k) < n {
      RangeKeys(n, k);
      var i :| 0 <= i < n && k == NatToString(i);
      ParseNatToString(i);
    }
    SingleDigitNextId(keys);
    var id := NextId(keys);
    if n > 0 {
      ParseNatToString(n - 1);
      assert keys[n - 1] == NatToString(n - 1);
      assert n - 1 < id;
      var k :| k in keys && ParseNat(k) + 1 == id;
      assert id <= n;
    }
  }

  /**
   * The eleventh add from an empty store gets ID 10; the twelfth gets 10
   * again, because "9" is the greatest key as a string.
   */
  lemma RangeElevenCollides()
    ensures AllDecimal(Range(11))
    ensures NextId(Range(11)) == 10 && NatToString(10) in Range(11)
  {
  }

  /**
   * Deleting the task with the highest ID frees that ID: an `add` right after
   * reuses it.
   */
  lemma IdReusedAfterDelete(keys: seq<string>)
    requires AllDecimal(keys)
    requires NatToString(NextId(keys)) !in keys
    ensures var k := NatToString(NextId(keys));
            AllDecimal(Without(keys + [k], k)) && NextId(Without(keys + [k], k)) == NextId(keys)
  {
    var k := NatToString(NextId(keys));
    assert Without(keys + [k], k) == keys by {
      WithoutAppend(keys, k);
    }
  }

  lemma {:induction false} WithoutAppend(s: seq<string>, x: string)
    requires x !in s
    ensures Without(s + [x], x) == s
    decreases |s|
  {
    if s == [] {
      assert Without([x], x) == [] + Without([], x);
    } else {
      WithoutAppend(s[1..], x);
      assert (s + [x])[1..] == s[1..] + [x];
      assert s == [s[0]] + s[1..];
    }
  }

}
