/**
  * The order in which `Object.keys` and `Object.entries` list a plain
  * object's string keys (section 10.1.11.1, OrdinaryOwnPropertyKeys, of
  * ECMA-262): first the keys that are array indices, in ascending numeric
  * order, then every other key in the order it was first added.
  */
module JsObject {
  import opened Seqs
  import opened Wrappers
  import opened Text

  /** 2^32 - 1: an array index is a number below it. */
  const IndexBound: nat := 4294967295

  /** The value of a string of decimal digits, or none if some character is not a digit. */
  function NumeralValue(k: string): (v: Option<nat>)
    ensures v.Some? ==> AllDigits(k)
  {
    if k == [] then Some(0)
    else
      var last := k[|k| - 1];
      var init := NumeralValue(k[..|k| - 1]);
      if init.Some? && IsDigit(last) then Some(init.value * 10 + (last as int - '0' as int)) else None
  }

  /** A key that is an array index: the canonical decimal numeral of a number below 2^32 - 1. */
  predicate IsArrayIndex(k: string) {
    && k != []
    && (|k| == 1 || k[0] != '0')
    && NumeralValue(k).Some? && NumeralValue(k).value < IndexBound
  }

  /** The number an array-index key names (0 for any other key). */
  function IndexValue(k: string): real {
    if IsArrayIndex(k) then NumeralValue(k).value as real else 0.0
  }

  /**
    * The keys `isIndex` picks out, ascending by `value`, followed by the other
    * keys in their original order.
    */
  function IndicesThenOthers(keys: seq<string>, isIndex: string -> bool, value: string -> real): (r: seq<string>)
    ensures multiset(r) == multiset(keys)
    ensures forall i, j :: 0 <= i < j < |r| && isIndex(r[j]) ==> isIndex(r[i]) && value(r[i]) <= value(r[j])
    ensures Filter(r, Negate(isIndex)) == Filter(keys, Negate(isIndex))
  {
    var indices := SortBy(Filter(keys, isIndex), value);
    var others := Filter(keys, Negate(isIndex));
    FilterSplit(keys, isIndex);
    IndicesFirst(keys, isIndex, value);
    FilterNone(indices, Negate(isIndex));
    FilterAppend(indices, others, Negate(isIndex));
    FilterAll(others, Negate(isIndex));
    ConcatIndex(indices, others);
    indices + others
  }

  lemma ConcatIndex(a: seq<string>, b: seq<string>)
    ensures forall i :: 0 <= i < |a| ==> (a + b)[i] == a[i]
    ensures forall j :: |a| <= j < |a + b| ==> (a + b)[j] == b[j - |a|]
  {
  }

  lemma IndicesFirst(keys: seq<string>, isIndex: string -> bool, value: string -> real)
    ensures var indices := SortBy(Filter(keys, isIndex), value);
      forall i :: 0 <= i < |indices| ==> isIndex(indices[i])
    ensures var others := Filter(keys, Negate(isIndex));
      forall j :: 0 <= j < |others| ==> !isIndex(others[j])
  {
    var indices := SortBy(Filter(keys, isIndex), value);
    var others := Filter(keys, Negate(isIndex));
    forall i | 0 <= i < |indices|
      ensures isIndex(indices[i])
    {
      assert indices[i] in Filter(keys, isIndex);
    }
    forall j | 0 <= j < |others|
      ensures !isIndex(others[j])
    {
      assert Negate(isIndex)(others[j]);
    }
  }

  /**
    * The keys of an object whose keys were added in the order `keys`, as
    * `Object.entries` lists them.
    */
  function EntriesOrder(keys: seq<string>): (r: seq<string>)
    ensures |r| == |keys|
  {
    var r := IndicesThenOthers(keys, IsArrayIndex, IndexValue);
    assert |r| == |multiset(r)| == |multiset(keys)|;
    r
  }

  /** `Object.entries` lists every key once: the same keys, only reordered. */
  lemma EntriesSameKeys(keys: seq<string>)
    ensures forall k :: k in EntriesOrder(keys) <==> k in keys
  {
    var r := EntriesOrder(keys);
    forall k
      ensures k in r <==> k in keys
    {
      assert k in r <==> k in multiset(r);
      assert k in keys <==> k in multiset(keys);
    }
  }

  /** Without array-index keys, the entries come in insertion order. */
  lemma InsertionOrderWithoutIndices(keys: seq<string>)
    requires forall i :: 0 <= i < |keys| ==> !IsArrayIndex(keys[i])
    ensures EntriesOrder(keys) == keys
  {
    FilterNone(keys, IsArrayIndex);
    FilterAll(keys, Negate(IsArrayIndex));
    assert SortBy([], IndexValue) == [];
  }

  /** A numeric exam type added after "Final" is still listed before it. */
  lemma NumericKeyListedFirst()
    ensures EntriesOrder(["Final", "2"]) == ["2", "Final"]
  {
    var keys := ["Final", "2"];
    WordAndNumeral();
    assert keys[1..] == ["2"] && keys[1..][1..] == [];
    assert Filter(keys, IsArrayIndex) == ["2"];
    assert Filter(keys, Negate(IsArrayIndex)) == ["Final"];
    assert SortBy(["2"], IndexValue) == ["2"];
  }

  lemma WordAndNumeral()
    ensures !IsArrayIndex("Final") && IsArrayIndex("2")
  {
    assert "Final"[..4] == "Fina" && !IsDigit("Final"[4]);
    assert "2"[..0] == [] && NumeralValue("2") == Some(2);
  }
}
