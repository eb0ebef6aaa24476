/**
 * A JavaScript plain object used as a dictionary from string keys to values,
 * and the order in which `Object.entries` reports its keys
 * (OrdinaryOwnPropertyKeys, section 10.1.11.1 of ECMA-262, 2022 edition).
 */
module EcmaObject {
  import opened Sequences

  predicate IsDigit(c: char) {
    '0' <= c <= '9'
  }

  function DigitValue(c: char): nat {
    if IsDigit(c) then c as int - '0' as int else 0
  }

  /** The value of `s` read as a decimal numeral. */
  function NumeralValue(s: string): nat {
    if s == [] then 0 else 10 * NumeralValue(s[..|s| - 1]) + DigitValue(s[|s| - 1])
  }

  predicate AllDigits(s: string) {
    forall i | 0 <= i < |s| :: IsDigit(s[i])
  }

  function Pow10(n: nat): nat {
    if n == 0 then 1 else 10 * Pow10(n - 1)
  }

  /** A numeral of n digits is below 10^n. */
  lemma {:induction false} NumeralBelowPow10(s: string)
    requires AllDigits(s)
    ensures NumeralValue(s) < Pow10(|s|)
  {
    if s != [] {
      var p := s[..|s| - 1];
      assert AllDigits(p) by {
        forall i | 0 <= i < |p| ensures IsDigit(p[i]) {
          assert p[i] == s[i];
        }
      }
      NumeralBelowPow10(p);
    }
  }

  /** A numeral of n digits without a leading zero is at least 10^(n-1). */
  lemma {:induction false} NumeralAtLeastPow10(s: string)
    requires AllDigits(s) && |s| > 0 && s[0] != '0'
    ensures NumeralValue(s) >= Pow10(|s| - 1)
  {
    if |s| > 1 {
      var p := s[..|s| - 1];
      assert p[0] == s[0];
      assert AllDigits(p) by {
        forall i | 0 <= i < |p| ensures IsDigit(p[i]) {
          assert p[i] == s[i];
        }
      }
      NumeralAtLeastPow10(p);
    }
  }

  /** Two numerals of the same length with the same value are the same string. */
  lemma {:induction false} SameLengthNumeralsEqual(a: string, b: string)
    requires AllDigits(a) && AllDigits(b) && |a| == |b|
    requires NumeralValue(a) == NumeralValue(b)
    ensures a == b
  {
    if a != [] {
      var pa, pb := a[..|a| - 1], b[..|b| - 1];
      assert AllDigits(pa) && AllDigits(pb) by {
        forall i | 0 <= i < |pa| ensures IsDigit(pa[i]) && IsDigit(pb[i]) {
          assert pa[i] == a[i] && pb[i] == b[i];
        }
      }
      assert IsDigit(a[|a| - 1]) && IsDigit(b[|b| - 1]);
      SameLengthNumeralsEqual(pa, pb);
      assert a == pa + [a[|a| - 1]] && b == pb + [b[|b| - 1]];
    }
  }

  /** 2^32 - 1: array indices lie strictly below it (section 6.1.7 of ECMA-262). */
  const ArrayIndexLimit: nat := 0xFFFF_FFFF

  /**
   * An array index: a canonical numeric string (decimal digits, no leading zero
   * unless it is "0") whose value is below 2^32 - 1.
   */
  predicate IsArrayIndex(key: string) {
    && |key| > 0
    && AllDigits(key)
    && (key[0] == '0' ==> |key| == 1)
    && NumeralValue(key) < ArrayIndexLimit
  }

  /** Distinct array indices have distinct values: canonical numerals are unique. */
  lemma {:induction false} ArrayIndexValuesDiffer(a: string, b: string)
    requires IsArrayIndex(a) && IsArrayIndex(b) && a != b
    ensures NumeralValue(a) != NumeralValue(b)
  {
    NumeralBelowPow10(a);
    NumeralBelowPow10(b);
    if |a| > 1 {
      NumeralAtLeastPow10(a);
    }
    if |b| > 1 {
      NumeralAtLeastPow10(b);
    }
    if |a| == |b| {
      if NumeralValue(a) == NumeralValue(b) {
        SameLengthNumeralsEqual(a, b);
      }
    } else {
      PowMonotone(|a|, |b|);
      PowMonotone(|b|, |a|);
    }
  }

  /** 10^m <= 10^(n-1) whenever m < n. */
  lemma {:induction false} PowMonotone(m: nat, n: nat)
    ensures m < n ==> Pow10(m) <= Pow10(n - 1)
  {
    if m < n && m < n - 1 {
      PowMonotone(m, n - 1);
    }
  }

  /**
   * The own property keys of a plain object whose keys were created in
   * `creationOrder`: array indices first in ascending numeric order, then the
   * remaining string keys in creation order.
   */
  function OrdinaryOwnPropertyKeys(creationOrder: seq<string>): (r: seq<string>)
    ensures |r| == |creationOrder|
  {
    SortedThenOthers(creationOrder, IsArrayIndex, NumeralValue)
  }

  /** The reported keys are exactly the created keys, each once. */
  lemma {:induction false} OwnPropertyKeysPermutation(creationOrder: seq<string>)
    requires NoDuplicates(creationOrder)
    ensures var r := OrdinaryOwnPropertyKeys(creationOrder);
      && multiset(r) == multiset(creationOrder)
      && NoDuplicates(r)
      && forall k :: k in r <==> k in creationOrder
  {
    var r := OrdinaryOwnPropertyKeys(creationOrder);
    SortedThenOthersPermutation(creationOrder, IsArrayIndex, NumeralValue);
    PermutationKeepsNoDuplicates(creationOrder, r);
    SameMultisetSameElements(creationOrder, r);
  }

  /**
   * The key order `Object.entries` reports: every array index precedes every
   * other key, array indices ascend numerically, and the other keys keep
   * their creation order.
   */
  lemma {:induction false} OwnPropertyKeysOrder(creationOrder: seq<string>, i: nat, j: nat)
    requires NoDuplicates(creationOrder)
    requires i < j < |OrdinaryOwnPropertyKeys(creationOrder)|
    ensures var r := OrdinaryOwnPropertyKeys(creationOrder);
      && r[i] in creationOrder && r[j] in creationOrder
      && (IsArrayIndex(r[j]) ==> IsArrayIndex(r[i]))
      && (IsArrayIndex(r[i]) && IsArrayIndex(r[j]) ==> NumeralValue(r[i]) < NumeralValue(r[j]))
      && (!IsArrayIndex(r[i]) && !IsArrayIndex(r[j]) ==>
            IndexOf(creationOrder, r[i]) < IndexOf(creationOrder, r[j]))
  {
    var r := OrdinaryOwnPropertyKeys(creationOrder);
    SortedThenOthersOrder(creationOrder, IsArrayIndex, NumeralValue, i, j);
    OwnPropertyKeysPermutation(creationOrder);
    if IsArrayIndex(r[i]) && IsArrayIndex(r[j]) {
      ArrayIndexValuesDiffer(r[i], r[j]);
    }
  }

  /**
   * A plain object used as a dictionary: its string keys in creation order
   * and the value stored under each key.
   */
  datatype PlainObject<V> = PlainObject(creationOrder: seq<string>, props: map<string, V>) {

    /** Each key is created once, and the keys are exactly the props' domain. */
    ghost predicate Valid() {
      && NoDuplicates(creationOrder)
      && forall k :: k in props <==> k in creationOrder
    }

    /** `obj[key] = value`: a new key is created after all existing ones. */
    function Put(key: string, value: V): (o: PlainObject<V>)
      requires Valid()
      ensures o.Valid()
      ensures o.props == props[key := value]
      ensures o.creationOrder == if key in props then creationOrder else creationOrder + [key]
    {
      if key in props then PlainObject(creationOrder, props[key := value])
      else PlainObject(creationOrder + [key], props[key := value])
    }

    /** `Object.entries(obj)`: key/value pairs in own-property-key order. */
    function Entries(): (e: seq<(string, V)>)
      requires Valid()
      ensures |e| == |creationOrder|
      ensures forall k | 0 <= k < |e| ::
        && e[k].0 == OrdinaryOwnPropertyKeys(creationOrder)[k]
        && e[k].0 in props
        && e[k].1 == props[e[k].0]
    {
      KeysHaveProps();
      var keys := OrdinaryOwnPropertyKeys(creationOrder);
      seq(|keys|, i requires 0 <= i < |keys| => (keys[i], props[keys[i]]))
    }

    /** Every reported key has a stored value. */
    lemma {:induction false} KeysHaveProps()
      requires Valid()
      ensures forall i | 0 <= i < |creationOrder| :: OrdinaryOwnPropertyKeys(creationOrder)[i] in props
    {
      var keys := OrdinaryOwnPropertyKeys(creationOrder);
      OwnPropertyKeysPermutation(creationOrder);
      forall i | 0 <= i < |keys|
        ensures keys[i] in props
      {
        assert keys[i] in keys;
      }
    }
  }

  /** `{}`. */
  function EmptyObject<V>(): (o: PlainObject<V>)
    ensures o.Valid() && o.creationOrder == []
  {
    PlainObject([], map[])
  }
}
