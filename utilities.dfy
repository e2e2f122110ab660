/** The object helpers of `src/utilities.js`. */
module Utilities {
  import opened Js

  /** `areDirty(original, current)`: for every key of either object, whether the
      two values differ under `!==` (absent keys read as `undefined`). */
  function AreDirty(original: map<string, Value>, current: map<string, Value>): (r: map<string, bool>)
    ensures r.Keys == original.Keys + current.Keys
  {
    map k | k in original.Keys + current.Keys :: Read(original, k) != Read(current, k)
  }

  /** A key is dirty exactly when the two objects read different values there. */
  lemma AreDirtyAt(original: map<string, Value>, current: map<string, Value>, k: string)
    requires k in original || k in current
    ensures AreDirty(original, current)[k] <==> Read(original, k) != Read(current, k)
  {
  }

  /** Comparing an object with itself marks nothing dirty. */
  lemma AreDirtySelf(o: map<string, Value>)
    ensures forall k :: k in AreDirty(o, o) ==> !AreDirty(o, o)[k]
  {
  }

  /** A key held by only one of the two objects is dirty, unless the value it
      holds there is itself `undefined`. */
  lemma AreDirtyOneSided(original: map<string, Value>, current: map<string, Value>, k: string)
    requires (k in original) != (k in current)
    ensures AreDirty(original, current)[k] <==>
            (if k in original then original[k] else current[k]) != Undefined
  {
  }

  /** `getFirstDefinedValue(...values)`: the first value that is not
      `undefined` (`null` counts as defined), or `undefined` when there is none. */
  function GetFirstDefinedValue(values: seq<Value>): (r: Value)
    ensures r == Undefined <==> forall i :: 0 <= i < |values| ==> values[i] == Undefined
    ensures r != Undefined ==>
      exists i :: 0 <= i < |values| && values[i] == r && forall j :: 0 <= j < i ==> values[j] == Undefined
  {
    if values == [] then Undefined
    else if values[0] != Undefined then values[0]
    else
      var r := GetFirstDefinedValue(values[1..]);
      assert forall i :: 1 <= i < |values| ==> values[i] == values[1..][i - 1];
      if r != Undefined then
        var i :| 0 <= i < |values[1..]| && values[1..][i] == r
                 && forall j :: 0 <= j < i ==> values[1..][j] == Undefined;
        assert values[i + 1] == r && forall j :: 0 <= j < i + 1 ==> values[j] == Undefined;
        r
      else r
  }

  /** With two arguments: the first unless it is `undefined`. */
  lemma FirstDefinedOfTwo(a: Value, b: Value)
    ensures GetFirstDefinedValue([a, b]) == if a != Undefined then a else b
  {
    if a == Undefined {
      assert [a, b][1..] == [b];
    }
  }

  /** `removeFrom(original)(keysToRemove)`: the entries of `original`, in their
      order, whose key is not listed. */
  function RemoveFrom<V>(original: Entries<V>, keysToRemove: seq<string>): (r: Entries<V>)
    ensures Keys(r) == Keys(original) - set k | k in keysToRemove
    ensures forall k :: k !in keysToRemove ==> Get(r, k) == Get(original, k)
    ensures |r| <= |original|
    ensures DistinctKeys(original) ==> DistinctKeys(r)
  {
    if original == [] then []
    else
      var rest := RemoveFrom(original[1..], keysToRemove);
      if original[0].0 in keysToRemove then rest
      else
        var r := [original[0]] + rest;
        assert r[1..] == rest;
        assert DistinctKeys(original) ==> original[0].0 !in Keys(rest) by {
          if DistinctKeys(original) {
            KeysAt(original[1..], original[0].0);
          }
        }
        assert DistinctKeys(original) ==> DistinctKeys(r) by {
          if DistinctKeys(original) {
            assert DistinctKeys(original[1..]);
            forall j | 0 < j < |r| ensures r[0].0 != r[j].0 {
              KeysAt(rest, r[j].0);
            }
          }
        }
        r
  }

  /** Removing no key returns the object unchanged. */
  lemma {:induction false} RemoveNothing<V>(original: Entries<V>)
    ensures RemoveFrom(original, []) == original
  {
    if original != [] { RemoveNothing(original[1..]); }
  }

  /** Removing the same keys a second time changes nothing. */
  lemma {:induction false} RemoveTwice<V>(original: Entries<V>, ks: seq<string>)
    ensures RemoveFrom(RemoveFrom(original, ks), ks) == RemoveFrom(original, ks)
  {
    if original != [] {
      RemoveTwice(original[1..], ks);
      var rest := RemoveFrom(original[1..], ks);
      if original[0].0 !in ks {
        assert ([original[0]] + rest)[1..] == rest;
      }
    }
  }

  /** Listing a key the object does not hold changes nothing. */
  lemma {:induction false} RemoveAbsent<V>(original: Entries<V>, ks: seq<string>, k: string)
    requires k !in Keys(original)
    ensures RemoveFrom(original, ks + [k]) == RemoveFrom(original, ks)
  {
    if original != [] {
      RemoveAbsent(original[1..], ks, k);
      assert original[0].0 in ks + [k] <==> original[0].0 in ks;
    }
  }

  /** The same removal on an object held as an unordered `map`. */
  function RemoveKeys<V>(m: map<string, V>, keysToRemove: seq<string>): (r: map<string, V>)
    ensures r.Keys == m.Keys - set k | k in keysToRemove
    ensures forall k :: k in r ==> r[k] == m[k]
  {
    m - set k | k in keysToRemove
  }

  /** The ordered removal and the map removal keep the same key/value pairs. */
  lemma {:induction false} RemoveFromAsMap<V>(original: Entries<V>, ks: seq<string>)
    ensures ToMap(RemoveFrom(original, ks)) == RemoveKeys(ToMap(original), ks)
  {
    var l, r := ToMap(RemoveFrom(original, ks)), RemoveKeys(ToMap(original), ks);
    forall k | k in l ensures k in r && l[k] == r[k] {
      assert Get(RemoveFrom(original, ks), k) == Some(l[k]);
    }
    forall k | k in r ensures k in l {
    }
  }

  /** The removal works entry by entry, so it distributes over concatenation. */
  lemma {:induction false} RemoveFromAppend<V>(x: Entries<V>, y: Entries<V>, ks: seq<string>)
    ensures RemoveFrom(x + y, ks) == RemoveFrom(x, ks) + RemoveFrom(y, ks)
  {
    if x == [] {
      assert x + y == y;
    } else {
      assert (x + y)[0] == x[0] && (x + y)[1..] == x[1..] + y;
      RemoveFromAppend(x[1..], y, ks);
    }
  }

  /** Listing every key of an object removes everything. */
  lemma {:induction false} RemoveFromAll<V>(o: Entries<V>, ks: seq<string>)
    requires forall i :: 0 <= i < |o| ==> o[i].0 in ks
    ensures RemoveFrom(o, ks) == []
  {
    if o != [] {
      assert forall i :: 0 <= i < |o[1..]| ==> o[1..][i] == o[i + 1];
      RemoveFromAll(o[1..], ks);
    }
  }

  /** Listing only keys an object does not hold changes nothing. */
  lemma {:induction false} RemoveFromNone<V>(o: Entries<V>, ks: seq<string>)
    requires forall i :: 0 <= i < |o| ==> o[i].0 !in ks
    ensures RemoveFrom(o, ks) == o
  {
    if o != [] {
      assert forall i :: 0 <= i < |o[1..]| ==> o[1..][i] == o[i + 1];
      RemoveFromNone(o[1..], ks);
      assert [o[0]] + o[1..] == o;
    }
  }

  /** Spreading an object of new keys and then removing its keys gives back
      the original object, in its order. */
  lemma RemoveSpread<V>(original: Entries<V>, added: Entries<V>)
    requires DistinctKeys(added) && Keys(added) !! Keys(original)
    ensures RemoveFrom(Spread(original, added), KeyList(added)) == original
  {
    var ks := KeyList(added);
    SpreadDisjoint(original, added);
    RemoveFromAppend(original, added, ks);
    RemoveFromAll(added, ks);
    RemoveFromNone(original, ks);
    assert original + [] == original;
  }

  /** Adding entries under listed keys to an object that holds none of them,
      then removing the listed keys, gives back the object. */
  lemma RemoveAdded<V>(m: map<string, V>, added: map<string, V>, ks: seq<string>)
    requires forall k :: k in added ==> k in ks
    requires forall k :: k in ks ==> k !in m
    ensures RemoveKeys(m + added, ks) == m
  {
  }
}
