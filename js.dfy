/** The fragment of JavaScript's value model that the form engine relies on:
    primitive values, truthiness, `String(...)` conversion, and plain objects
    as ordered key/value entries (the order `Object.entries` reports). */
module Js {

  datatype Option<T> = None | Some(value: T)

  /** A JavaScript primitive. Numbers are restricted to integers; field values
      are strings (text inputs) or booleans (checkboxes). */
  datatype Value = Undefined | Null | Bool(b: bool) | Num(n: int) | Str(s: string)

  /** JavaScript truthiness (`if (v)`), for the values modelled here. */
  predicate Truthy(v: Value) {
    match v
    case Undefined => false
    case Null => false
    case Bool(b) => b
    case Num(n) => n != 0
    case Str(s) => s != ""
  }

  /** The falsy values are exactly `undefined`, `null`, `false`, `0` and `''`. */
  lemma FalsyValues(v: Value)
    ensures !Truthy(v) <==> v == Undefined || v == Null || v == Bool(false) || v == Num(0) || v == Str("")
  {
  }

  function DigitChar(d: nat): (c: char)
    requires d < 10
    ensures '0' <= c <= '9' && c as int - '0' as int == d
  {
    ('0' as int + d) as char
  }

  /** The number a string of decimal digits denotes, read most significant
      digit first. */
  function DigitsValue(s: string): nat
    requires forall i :: 0 <= i < |s| ==> '0' <= s[i] <= '9'
  {
    if s == [] then 0 else DigitsValue(s[..|s| - 1]) * 10 + (s[|s| - 1] as int - '0' as int)
  }

  /** Decimal notation of a natural number, without leading zeros: the digits
      denote `n`. */
  function NatToString(n: nat): (s: string)
    ensures |s| >= 1 && forall i :: 0 <= i < |s| ==> '0' <= s[i] <= '9'
    ensures |s| > 1 ==> s[0] != '0'
    ensures DigitsValue(s) == n
  {
    if n < 10 then
      assert [DigitChar(n)][..0] == [];
      [DigitChar(n)]
    else
      var init := NatToString(n / 10);
      assert (init + [DigitChar(n % 10)])[..|init|] == init;
      init + [DigitChar(n % 10)]
  }

  /** `String(v)`. */
  function ToStr(v: Value): (s: string)
    ensures v.Str? ==> s == v.s
    ensures v.Num? ==> s != [] && (s[0] == '-' <==> v.n < 0) && forall i :: 0 < i < |s| ==> '0' <= s[i] <= '9'
    ensures v.Num? && v.n >= 0 ==> (forall i :: 0 <= i < |s| ==> '0' <= s[i] <= '9') && DigitsValue(s) == v.n
    ensures v.Num? && v.n < 0 ==> DigitsValue(s[1..]) == -v.n
    ensures v.Bool? ==> s == (if v.b then "true" else "false")
  {
    match v
    case Undefined => "undefined"
    case Null => "null"
    case Bool(b) => if b then "true" else "false"
    case Num(n) => if n < 0 then "-" + NatToString(-n) else NatToString(n)
    case Str(s) => s
  }

  /** Distinct integers have distinct `String(...)` spellings. */
  lemma ToStrNumInjective(a: int, b: int)
    requires ToStr(Num(a)) == ToStr(Num(b))
    ensures a == b
  {
    var s := ToStr(Num(a));
    if a < 0 {
      assert b < 0 && DigitsValue(s[1..]) == -a == -b;
    } else {
      assert b >= 0 && DigitsValue(s) == a == b;
    }
  }

  /** Reading a property of an object held as a `map`: absent keys read as `undefined`. */
  function Read(m: map<string, Value>, k: string): (v: Value)
    ensures k !in m ==> v == Undefined
    ensures k in m ==> v == m[k]
  {
    if k in m then m[k] else Undefined
  }

  // ---------------------------------------------------------------------
  // Plain objects whose key order matters, as `Object.entries` lists them.

  type Entries<V> = seq<(string, V)>

  function Keys<V>(o: Entries<V>): (ks: set<string>)
    ensures forall i :: 0 <= i < |o| ==> o[i].0 in ks
  {
    if o == [] then {}
    else
      assert forall i :: 1 <= i < |o| ==> o[i] == o[1..][i - 1];
      {o[0].0} + Keys(o[1..])
  }

  lemma {:induction false} KeysAt<V>(o: Entries<V>, k: string)
    ensures k in Keys(o) <==> exists i :: 0 <= i < |o| && o[i].0 == k
  {
    if o != [] {
      KeysAt(o[1..], k);
      if k in Keys(o[1..]) {
        var i :| 0 <= i < |o[1..]| && o[1..][i].0 == k;
        assert o[i + 1].0 == k;
      }
      if exists i :: 0 <= i < |o| && o[i].0 == k {
        var i :| 0 <= i < |o| && o[i].0 == k;
        if i > 0 { assert o[1..][i - 1].0 == k; }
      }
    }
  }

  /** `Object.keys(o)`. */
  function KeyList<V>(o: Entries<V>): (ks: seq<string>)
    ensures |ks| == |o| && forall i :: 0 <= i < |o| ==> ks[i] == o[i].0
    ensures forall k :: k in ks <==> k in Keys(o)
  {
    if o == [] then [] else [o[0].0] + KeyList(o[1..])
  }

  /** A JavaScript object never holds the same key twice. */
  ghost predicate DistinctKeys<V>(o: Entries<V>) {
    forall i, j :: 0 <= i < j < |o| ==> o[i].0 != o[j].0
  }

  /** `o[k]`, `None` standing for `undefined`. */
  function Get<V>(o: Entries<V>, k: string): (r: Option<V>)
    ensures r.None? <==> k !in Keys(o)
  {
    if o == [] then None else if o[0].0 == k then Some(o[0].1) else Get(o[1..], k)
  }

  /** `{ ...o, [k]: v }`: an existing key keeps its position and takes the new
      value; a new key is appended. */
  function Put<V>(o: Entries<V>, k: string, v: V): (r: Entries<V>)
    ensures Keys(r) == Keys(o) + {k}
    ensures Get(r, k) == Some(v)
    ensures forall k' :: k' != k ==> Get(r, k') == Get(o, k')
    ensures |r| == if k in Keys(o) then |o| else |o| + 1
    ensures forall i :: 0 <= i < |o| ==> r[i].0 == o[i].0
    ensures k !in Keys(o) ==> r == o + [(k, v)]
    ensures DistinctKeys(o) ==> DistinctKeys(r)
  {
    if o == [] then [(k, v)]
    else if o[0].0 == k then [(k, v)] + o[1..]
    else
      var rest := Put(o[1..], k, v);
      assert ([o[0]] + rest)[1..] == rest;
      [o[0]] + rest
  }

  /** `{ ...a, ...b }`. */
  function Spread<V>(a: Entries<V>, b: Entries<V>): (r: Entries<V>)
    ensures Keys(r) == Keys(a) + Keys(b)
    ensures |r| >= |a| && forall i :: 0 <= i < |a| ==> r[i].0 == a[i].0
    ensures DistinctKeys(a) ==> DistinctKeys(r)
    decreases |b|
  {
    if b == [] then a
    else
      Spread(Put(a, b[0].0, b[0].1), b[1..])
  }

  /** The key/value content of an object, forgetting the order. */
  function ToMap<V>(o: Entries<V>): (m: map<string, V>)
    ensures m.Keys == Keys(o)
    ensures forall k :: k in m ==> Get(o, k) == Some(m[k])
  {
    if o == [] then map[]
    else
      ToMap(o[1..])[o[0].0 := o[0].1]
  }

  /** `{ ...a, ...b }` looked up: a key of `b` reads `b`'s value, any other key
      reads `a`'s. */
  lemma {:induction false} SpreadGet<V>(a: Entries<V>, b: Entries<V>, k: string)
    requires DistinctKeys(b)
    ensures Get(Spread(a, b), k) == if k in Keys(b) then Get(b, k) else Get(a, k)
    decreases |b|
  {
    if b != [] {
      var a' := Put(a, b[0].0, b[0].1);
      assert DistinctKeys(b[1..]);
      SpreadGet(a', b[1..], k);
      KeysAt(b[1..], b[0].0);
    }
  }

  /** Spreading an object whose keys are all new appends its entries in
      their order. */
  lemma {:induction false} SpreadDisjoint<V>(a: Entries<V>, b: Entries<V>)
    requires DistinctKeys(b) && Keys(a) !! Keys(b)
    ensures Spread(a, b) == a + b
  {
    SpreadFresh(a, b);
  }

  lemma {:induction false} SpreadFresh<V>(a: Entries<V>, b: Entries<V>)
    requires DistinctKeys(b)
    requires forall i :: 0 <= i < |b| ==> b[i].0 !in Keys(a)
    ensures Spread(a, b) == a + b
    decreases |b|
  {
    if b == [] {
      assert a + b == a;
    } else {
      var a' := a + [b[0]];
      SpreadFreshStep(a, b);
      SpreadFresh(a', b[1..]);
      ConsAppend(a, b);
    }
  }

  /** Merging nothing into a map leaves it as it was. */
  lemma MergeNothing<K, V>(m: map<K, V>)
    ensures m + map[] == m
  {
  }

  /** Merging a map into an empty one gives the map. */
  lemma MergeIntoNothing<K, V>(m: map<K, V>)
    ensures map[] + m == m
  {
  }

  lemma ConsAppend<T>(a: seq<T>, b: seq<T>)
    requires b != []
    ensures (a + [b[0]]) + b[1..] == a + b
  {
    assert b == [b[0]] + b[1..];
  }

  /** The first step of `SpreadFresh`: the first new key is appended, and the
      rest of `b` is still new to the result. */
  lemma SpreadFreshStep<V>(a: Entries<V>, b: Entries<V>)
    requires b != [] && DistinctKeys(b)
    requires forall i :: 0 <= i < |b| ==> b[i].0 !in Keys(a)
    ensures Put(a, b[0].0, b[0].1) == a + [b[0]]
    ensures DistinctKeys(b[1..])
    ensures forall i :: 0 <= i < |b[1..]| ==> b[1..][i].0 !in Keys(a + [b[0]])
  {
    var rest := b[1..];
    assert Put(a, b[0].0, b[0].1) == a + [b[0]];
    assert Keys(a + [b[0]]) == Keys(a) + {b[0].0};
    forall i | 0 <= i < |rest| ensures rest[i].0 !in Keys(a + [b[0]]) {
      assert rest[i] == b[i + 1];
    }
    forall i, j | 0 <= i < j < |rest| ensures rest[i].0 != rest[j].0 {
      assert rest[i] == b[i + 1] && rest[j] == b[j + 1];
    }
  }

  /** In an object with distinct keys, the first key does not recur and the
      rest still has distinct keys. */
  lemma DistinctTail<V>(o: Entries<V>)
    requires DistinctKeys(o) && o != []
    ensures Keys(o) == {o[0].0} + Keys(o[1..])
    ensures DistinctKeys(o[1..]) && o[0].0 !in Keys(o[1..])
  {
    KeysAt(o[1..], o[0].0);
  }
}
