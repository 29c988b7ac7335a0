/**
 * What a plain JavaScript object `{}` does when the handlers use it as a
 * dictionary keyed by strings: a lookup of a name it inherits from
 * `Object.prototype` is truthy although no entry was stored, and
 * `Object.values` lists the entries with array-index keys first, in
 * ascending numeric order, then the others in insertion order (section
 * 10.1.11.1, OrdinaryOwnPropertyKeys, of ECMA-262).
 */
module Objects {
  import opened Text

  /** The names a plain object inherits from `Object.prototype`. */
  const InheritedNames: set<string> := {
    "constructor", "hasOwnProperty", "isPrototypeOf", "propertyIsEnumerable", "toLocaleString",
    "toString", "valueOf", "__proto__", "__defineGetter__", "__defineSetter__",
    "__lookupGetter__", "__lookupSetter__"
  }

  /** An array index: the canonical decimal text (no leading zero) of an integer below 2^32 - 1. */
  predicate IsArrayIndex(k: string) {
    0 < |k| && AllDigits(k) && (k[0] != '0' || |k| == 1) && DecimalValue(k) < 0xFFFF_FFFF
  }

  /** The numeric value of an array-index key; -1 for any other key. */
  function KeyIndex(k: string): (v: int)
    ensures v >= 0 <==> IsArrayIndex(k)
  {
    if IsArrayIndex(k) then DecimalValue(k) else -1
  }

  /** Any key that is not an array index. */
  predicate IsNamedKey(k: string) {
    !IsArrayIndex(k)
  }

  /** The keys of `keys` that `keep` accepts, in order. */
  function Filter(keys: seq<string>, keep: string -> bool): (r: seq<string>)
    ensures forall i :: 0 <= i < |r| ==> keep(r[i])
  {
    if |keys| == 0 then []
    else (if keep(keys[0]) then [keys[0]] else []) + Filter(keys[1..], keep)
  }

  /** Filtering keeps each accepted key as often as it occurs and drops every other one. */
  lemma {:induction false} FilterCounts(keys: seq<string>, keep: string -> bool)
    ensures forall k :: multiset(Filter(keys, keep))[k] == if keep(k) then multiset(keys)[k] else 0
  {
    if |keys| > 0 {
      FilterCounts(keys[1..], keep);
      assert keys == [keys[0]] + keys[1..];
    }
  }

  /** The ranks of `ks` never decrease. */
  predicate Ascending(ks: seq<string>, rank: string -> int) {
    forall i, j :: 0 <= i < j < |ks| ==> rank(ks[i]) <= rank(ks[j])
  }

  /** `k` put into `ks` before the first key that ranks higher, after the keys of equal rank. */
  function InsertBy(k: string, ks: seq<string>, rank: string -> int): (r: seq<string>)
    ensures multiset(r) == multiset(ks) + multiset{k}
    ensures |r| == |ks| + 1 && (r[0] == k || (|ks| > 0 && r[0] == ks[0]))
  {
    if |ks| == 0 || rank(k) < rank(ks[0]) then [k] + ks
    else
      var rest := InsertBy(k, ks[1..], rank);
      assert ks == [ks[0]] + ks[1..];
      assert multiset([ks[0]] + rest) == multiset{ks[0]} + multiset(ks[1..]) + multiset{k};
      [ks[0]] + rest
  }

  /** Inserting into keys of ascending rank keeps them ascending. */
  lemma {:induction false} InsertByAscending(k: string, ks: seq<string>, rank: string -> int)
    requires Ascending(ks, rank)
    ensures Ascending(InsertBy(k, ks, rank), rank)
  {
    if |ks| > 0 && rank(ks[0]) <= rank(k) {
      var rest := InsertBy(k, ks[1..], rank);
      InsertByAscending(k, ks[1..], rank);
      assert rank(ks[0]) <= rank(rest[0]) by {
        if rest[0] != k {
          assert rest[0] == ks[1];
        }
      }
      assert InsertBy(k, ks, rank) == [ks[0]] + rest;
    }
  }

  /** `ks` sorted by ascending rank. */
  function SortBy(ks: seq<string>, rank: string -> int): (r: seq<string>)
    ensures Ascending(r, rank)
    ensures multiset(r) == multiset(ks)
  {
    if |ks| == 0 then []
    else
      assert ks == [ks[0]] + ks[1..];
      var sorted := SortBy(ks[1..], rank);
      InsertByAscending(ks[0], sorted, rank);
      InsertBy(ks[0], sorted, rank)
  }

  /** The order in which `Object.values` lists the entries of keys inserted as `keys`. */
  function PropertyOrder(keys: seq<string>): seq<string> {
    SortBy(Filter(keys, IsArrayIndex), KeyIndex) + Filter(keys, IsNamedKey)
  }

  /** Filtering distributes over concatenation. */
  lemma {:induction false} FilterAppend(a: seq<string>, b: seq<string>, keep: string -> bool)
    ensures Filter(a + b, keep) == Filter(a, keep) + Filter(b, keep)
  {
    if |a| > 0 {
      assert (a + b)[1..] == a[1..] + b;
      FilterAppend(a[1..], b, keep);
    } else {
      assert a + b == b;
    }
  }

  /** A filter that accepts none of the keys leaves nothing, one that accepts all of them leaves them all. */
  lemma {:induction false} FilterAllOrNone(ks: seq<string>, keep: string -> bool)
    ensures (forall i :: 0 <= i < |ks| ==> !keep(ks[i])) ==> Filter(ks, keep) == []
    ensures (forall i :: 0 <= i < |ks| ==> keep(ks[i])) ==> Filter(ks, keep) == ks
  {
    if |ks| > 0 {
      FilterAllOrNone(ks[1..], keep);
      assert ks == [ks[0]] + ks[1..];
    }
  }

  /** Accepted keys of ascending rank followed by rejected keys: every accepted key comes before, and ranks no higher than, any later accepted key. */
  lemma AcceptedFirst(a: seq<string>, b: seq<string>, keep: string -> bool, rank: string -> int)
    requires forall i :: 0 <= i < |a| ==> keep(a[i])
    requires forall i :: 0 <= i < |b| ==> !keep(b[i])
    requires Ascending(a, rank)
    ensures forall i, j :: 0 <= i < j < |a + b| && keep((a + b)[j]) ==> keep((a + b)[i]) && rank((a + b)[i]) <= rank((a + b)[j])
  {
    var r := a + b;
    forall i, j | 0 <= i < j < |r| && keep(r[j]) ensures keep(r[i]) && rank(r[i]) <= rank(r[j]) {
      assert r[i] == a[i] && r[j] == a[j];
    }
  }

  /** Sorting keys that `keep` all accepts keeps them accepted. */
  lemma SortByKeeps(ks: seq<string>, keep: string -> bool, rank: string -> int)
    requires forall i :: 0 <= i < |ks| ==> keep(ks[i])
    ensures forall i :: 0 <= i < |SortBy(ks, rank)| ==> keep(SortBy(ks, rank)[i])
  {
    var a := SortBy(ks, rank);
    forall i | 0 <= i < |a| ensures keep(a[i]) {
      assert a[i] in multiset(a);
      var m :| 0 <= m < |ks| && ks[m] == a[i];
    }
  }

  /** `Object.values` lists every entry once. */
  lemma PropertyOrderPermutes(keys: seq<string>)
    ensures multiset(PropertyOrder(keys)) == multiset(keys)
  {
    var a, b := SortBy(Filter(keys, IsArrayIndex), KeyIndex), Filter(keys, IsNamedKey);
    FilterCounts(keys, IsArrayIndex);
    FilterCounts(keys, IsNamedKey);
    assert forall k :: multiset(a + b)[k] == multiset(keys)[k];
  }

  /** The array-index keys come first, in ascending numeric order. */
  lemma PropertyOrderIndicesFirst(keys: seq<string>)
    ensures var r := PropertyOrder(keys);
            forall i, j :: 0 <= i < j < |r| && IsArrayIndex(r[j]) ==> IsArrayIndex(r[i]) && KeyIndex(r[i]) <= KeyIndex(r[j])
  {
    var ix := Filter(keys, IsArrayIndex);
    SortByKeeps(ix, IsArrayIndex, KeyIndex);
    AcceptedFirst(SortBy(ix, KeyIndex), Filter(keys, IsNamedKey), IsArrayIndex, KeyIndex);
  }

  /** The other keys follow in insertion order. */
  lemma PropertyOrderNamesInOrder(keys: seq<string>)
    ensures Filter(PropertyOrder(keys), IsNamedKey) == Filter(keys, IsNamedKey)
  {
    var a, b := SortBy(Filter(keys, IsArrayIndex), KeyIndex), Filter(keys, IsNamedKey);
    SortByKeeps(Filter(keys, IsArrayIndex), IsArrayIndex, KeyIndex);
    FilterAppend(a, b, IsNamedKey);
    FilterAllOrNone(a, IsNamedKey);
    FilterAllOrNone(b, IsNamedKey);
  }

  /** When no key is an array index, `Object.values` keeps the insertion order. */
  lemma PropertyOrderOfNames(keys: seq<string>)
    requires forall i :: 0 <= i < |keys| ==> !IsArrayIndex(keys[i])
    ensures PropertyOrder(keys) == keys
  {
    FilterAllOrNone(keys, IsArrayIndex);
    FilterAllOrNone(keys, IsNamedKey);
  }

  /** A key inserted after a name still comes first when it is an array index: "Beta" then "7" lists "7" first. */
  lemma IndexKeyFirstExample()
    ensures PropertyOrder(["Beta", "7"]) == ["7", "Beta"]
  {
    var keys := ["Beta", "7"];
    assert !IsArrayIndex("Beta") by { assert !IsDigit("Beta"[0]); }
    assert IsArrayIndex("7") by {
      assert "7"[..0] == [];
      assert DecimalValue("7") == 7;
    }
    assert Filter(keys, IsArrayIndex) == ["7"] by {
      assert keys[1..] == ["7"] && ["7"][1..] == [];
    }
    assert Filter(keys, IsNamedKey) == ["Beta"] by {
      assert keys[1..] == ["7"] && ["7"][1..] == [];
    }
    assert SortBy(["7"], KeyIndex) == ["7"] by {
      assert ["7"][1..] == [];
    }
  }
}
