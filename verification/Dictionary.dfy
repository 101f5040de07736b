/** The string dictionary behind the ini files (dictionary.c): parallel arrays of slots that refine a
finite map. */
module Dictionary {
  import opened Wire
  import opened Dataref

  /** A value may be absent: a section has no value. */
  type Value = Option<Name>

  const DICTMINSZ := 128

  // ---------- the hash ----------

  /** (unsigned)key[i] for a signed char. */
  function Unsigned(b: byte): bv32 {
    if b < 128 then b as bv32 else 0xFFFF_FF00 + b as bv32
  }

  function Mixed(h: bv32, b: byte): bv32 {
    var h1 := h + Unsigned(b);
    var h2 := h1 + (h1 << 10);
    h2 ^ (h2 >> 6)
  }

  function MixAll(key: Name): bv32 {
    if key == [] then 0 else Mixed(MixAll(key[..|key| - 1]), key[|key| - 1])
  }

  function Final(h: bv32): bv32 {
    var h1 := h + (h << 3);
    var h2 := h1 ^ (h1 >> 11);
    h2 + (h2 << 15)
  }

  function Hash(key: Name): bv32 { Final(MixAll(key)) }

  /** The hash of one character, as it is known for this function. */
  lemma HashOfA()
    ensures Hash([]) == 0 && Hash([97]) == 0xCA2E_9442
  {
    assert MixAll([97]) == Mixed(0, 97);
    assert Unsigned(97) == 97;
  }

  method DictionaryHash(key: Name) returns (hash: bv32)
    ensures hash == Hash(key)
  {
    hash := 0;
    var i := 0;
    while i < |key|
      invariant i <= |key| && hash == MixAll(key[..i])
    {
      assert key[..i + 1][..i] == key[..i];
      hash := Mixed(hash, key[i]);
      i := i + 1;
    }
    assert key[..i] == key;
    hash := Final(hash);
  }

  // ---------- slots as a map ----------

  /** The key's slot is among the first n. */
  predicate Has(keys: seq<Value>, k: Name) { Some(k) in keys }

  predicate Unique(keys: seq<Value>) {
    forall i, j :: 0 <= i < j < |keys| && keys[i].Some? ==> keys[i] != keys[j]
  }

  function ToMap(keys: seq<Value>, vals: seq<Value>): map<Name, Value>
    requires |keys| == |vals|
  {
    if keys == [] then map[]
    else
      var n := |keys| - 1;
      var m := ToMap(keys[..n], vals[..n]);
      if keys[n].Some? then m[keys[n].value := vals[n]] else m
  }

  function Occupied(keys: seq<Value>): nat {
    if keys == [] then 0 else Occupied(keys[..|keys| - 1]) + if keys[|keys| - 1].Some? then 1 else 0
  }

  lemma {:induction false} MapDomain(keys: seq<Value>, vals: seq<Value>, k: Name)
    requires |keys| == |vals|
    ensures k in ToMap(keys, vals) <==> Has(keys, k)
  {
    if keys != [] {
      var n := |keys| - 1;
      MapDomain(keys[..n], vals[..n], k);
      assert keys == keys[..n] + [keys[n]];
    }
  }

  lemma {:induction false} MapAt(keys: seq<Value>, vals: seq<Value>, i: nat)
    requires |keys| == |vals| && Unique(keys) && i < |keys| && keys[i].Some?
    ensures keys[i].value in ToMap(keys, vals) && ToMap(keys, vals)[keys[i].value] == vals[i]
  {
    var n := |keys| - 1;
    if i < n {
      MapAt(keys[..n], vals[..n], i);
    }
  }

  /** A map is the slots' map if it has their keys and their values. */
  lemma IsTheMap(keys: seq<Value>, vals: seq<Value>, m: map<Name, Value>)
    requires |keys| == |vals| && Unique(keys)
    requires forall k :: k in m <==> Has(keys, k)
    requires forall i :: 0 <= i < |keys| && keys[i].Some? ==> keys[i].value in m && m[keys[i].value] == vals[i]
    ensures ToMap(keys, vals) == m
  {
    var t := ToMap(keys, vals);
    forall k
      ensures k in t <==> k in m
    {
      MapDomain(keys, vals, k);
    }
    forall k | k in t
      ensures t[k] == m[k]
    {
      var i :| 0 <= i < |keys| && keys[i] == Some(k);
      MapAt(keys, vals, i);
    }
  }

  /** Writing one slot whose key no other slot has, and which held this key or none. */
  lemma WriteSlot(keys: seq<Value>, vals: seq<Value>, i: nat, k: Name, v: Value)
    requires |keys| == |vals| && Unique(keys) && i < |keys|
    requires keys[i] == Some(k) || (keys[i].None? && !Has(keys, k))
    ensures Unique(keys[i := Some(k)])
    ensures ToMap(keys[i := Some(k)], vals[i := v]) == ToMap(keys, vals)[k := v]
  {
    var keys', vals', m := keys[i := Some(k)], vals[i := v], ToMap(keys, vals)[k := v];
    assert keys'[i] == Some(k);
    forall l
      ensures l in m <==> Has(keys', l)
    {
      MapDomain(keys, vals, l);
      if l != k && Has(keys, l) {
        var j :| 0 <= j < |keys| && keys[j] == Some(l);
        assert keys'[j] == Some(l);
      }
    }
    forall j | 0 <= j < |keys| && keys'[j].Some?
      ensures keys'[j].value in m && m[keys'[j].value] == vals'[j]
    {
      if j != i {
        MapAt(keys, vals, j);
        assert keys[j] != Some(k);
      }
    }
    IsTheMap(keys', vals', m);
  }

  lemma ClearSlot(keys: seq<Value>, vals: seq<Value>, i: nat)
    requires |keys| == |vals| && Unique(keys) && i < |keys| && keys[i].Some?
    ensures Unique(keys[i := None])
    ensures ToMap(keys[i := None], vals[i := None]) == ToMap(keys, vals) - {keys[i].value}
  {
    var k := keys[i].value;
    var keys', vals', m := keys[i := None], vals[i := None], ToMap(keys, vals) - {k};
    forall l
      ensures l in m <==> Has(keys', l)
    {
      MapDomain(keys, vals, l);
      if l != k && Has(keys, l) {
        var j :| 0 <= j < |keys| && keys[j] == Some(l);
        assert keys'[j] == Some(l);
      }
    }
    forall j | 0 <= j < |keys| && keys'[j].Some?
      ensures keys'[j].value in m && m[keys'[j].value] == vals'[j]
    {
      MapAt(keys, vals, j);
    }
    IsTheMap(keys', vals', m);
  }

  function Empty(n: nat): (r: seq<Value>)
    ensures |r| == n && forall i :: 0 <= i < n ==> r[i] == None
  {
    seq(n, _ => None)
  }

  /** Doubling adds empty slots only. */
  lemma {:induction false} GrowSlots(keys: seq<Value>, vals: seq<Value>, n: nat)
    requires |keys| == |vals|
    ensures ToMap(keys + Empty(n), vals + Empty(n)) == ToMap(keys, vals)
    ensures Occupied(keys + Empty(n)) == Occupied(keys)
    ensures Unique(keys) ==> Unique(keys + Empty(n))
  {
    var k', v' := keys + Empty(n), vals + Empty(n);
    if n == 0 {
      assert k' == keys && v' == vals;
    } else {
      GrowSlots(keys, vals, n - 1);
      assert k'[..|k'| - 1] == keys + Empty(n - 1) && v'[..|v'| - 1] == vals + Empty(n - 1);
    }
  }

  lemma {:induction false} OccupiedUpdate(keys: seq<Value>, i: nat, k: Value)
    requires i < |keys|
    ensures Occupied(keys[i := k]) == Occupied(keys) - (if keys[i].Some? then 1 else 0) + (if k.Some? then 1 else 0)
  {
    var n := |keys| - 1;
    if i == n {
      assert keys[i := k][..n] == keys[..n];
    } else {
      OccupiedUpdate(keys[..n], i, k);
      assert keys[i := k][..n] == keys[..n][i := k];
    }
  }

  /** The counter n is the size of the map. */
  lemma {:induction false} OccupiedIsSize(keys: seq<Value>, vals: seq<Value>)
    requires |keys| == |vals| && Unique(keys)
    ensures |ToMap(keys, vals)| == Occupied(keys)
  {
    if keys != [] {
      var n := |keys| - 1;
      OccupiedIsSize(keys[..n], vals[..n]);
      if keys[n].Some? {
        MapDomain(keys[..n], vals[..n], keys[n].value);
      }
    }
  }

  lemma {:induction false} OccupiedBound(keys: seq<Value>)
    ensures Occupied(keys) <= |keys|
  {
    if keys != [] {
      OccupiedBound(keys[..|keys| - 1]);
    }
  }

  /** As long as not every slot is counted, one is free. */
  lemma {:induction false} FreeSlot(keys: seq<Value>) returns (i: nat)
    requires Occupied(keys) < |keys|
    ensures i < |keys| && keys[i].None?
  {
    var n := |keys| - 1;
    if keys[n].None? {
      i := n;
    } else {
      i := FreeSlot(keys[..n]);
    }
  }

  lemma {:induction false} NoneOccupied(n: nat)
    ensures Occupied(Empty(n)) == 0 && ToMap(Empty(n), Empty(n)) == map[]
  {
    if n > 0 {
      NoneOccupied(n - 1);
      assert Empty(n)[..n - 1] == Empty(n - 1);
    }
  }

  // ---------- the dictionary ----------

  /** mem_double: a copy twice as long, zeroes behind. */
  method MemDouble<T(0)>(a: array<T>, zero: T) returns (b: array<T>)
    ensures fresh(b) && b[..] == a[..] + seq(a.Length, _ => zero)
  {
    b := new T[2 * a.Length](_ => zero);
    var i := 0;
    while i < a.Length
      invariant i <= a.Length
      invariant forall j :: 0 <= j < b.Length ==> b[j] == if j < i then a[j] else zero
    {
      b[i] := a[i];
      i := i + 1;
    }
  }

  class Dict {
    var n: nat
    var key: array<Value>
    var val: array<Value>
    var hash: array<bv32>

    ghost predicate Valid()
      reads this, key, val, hash
    {
      && key != val && hash as object != key as object && hash as object != val as object
      && key.Length == val.Length == hash.Length && key.Length >= DICTMINSZ
      && Unique(key[..])
      && (forall i :: 0 <= i < key.Length && key[i].Some? ==> hash[i] == Hash(key[i].value))
      && n == Occupied(key[..])
    }

    ghost function Map(): map<Name, Value>
      reads this, key, val
      requires key.Length == val.Length
    {
      ToMap(key[..], val[..])
    }

    /** dictionary_new. */
    constructor (size: int)
      ensures Valid() && Map() == map[] && n == 0
      ensures fresh(key) && fresh(val) && fresh(hash)
    {
      var m := if size < DICTMINSZ then DICTMINSZ else size;
      n := 0;
      var k, v := new Value[m](_ => None), new Value[m](_ => None);
      key, val := k, v;
      hash := new bv32[m](_ => 0);
      new;
      assert key[..] == Empty(m) && val[..] == Empty(m);
      NoneOccupied(m);
    }

    /** The slot of the key, or the number of slots. */
    method Search(k: Name) returns (i: nat)
      requires Valid()
      ensures i <= key.Length && (i < key.Length ==> key[i] == Some(k))
      ensures i == key.Length ==> !Has(key[..], k)
    {
      var h := DictionaryHash(k);
      i := 0;
      while i < key.Length
        invariant i <= key.Length && forall j :: 0 <= j < i ==> key[j] != Some(k)
      {
        if key[i].Some? {
          if h == hash[i] {
            if key[i].value == k {
              return;
            }
          }
        }
        i := i + 1;
      }
    }

    /** dictionary_get. */
    method Get(k: Name, def: Value) returns (v: Value)
      requires Valid()
      ensures v == if k in Map() then Map()[k] else def
    {
      MapDomain(key[..], val[..], k);
      var i := Search(k);
      if i < key.Length {
        MapAt(key[..], val[..], i);
        v := val[i];
      } else {
        v := def;
      }
    }

    /** All three arrays grow together. */
    method Double()
      requires Valid()
      modifies this
      ensures Valid() && Map() == old(Map()) && n == old(n) && key.Length == 2 * old(key.Length)
      ensures key[..] == old(key[..]) + Empty(old(key.Length)) && fresh(key) && fresh(val) && fresh(hash)
    {
      GrowSlots(key[..], val[..], key.Length);
      var v := MemDouble(val, None);
      var k := MemDouble(key, None);
      var h := MemDouble(hash, 0);
      assert k[..] == key[..] + Empty(key.Length) && v[..] == val[..] + Empty(key.Length);
      assert forall i :: 0 <= i < key.Length ==> h[i] == h[..][i] == hash[i] && k[i] == k[..][i] == key[i];
      assert forall i :: key.Length <= i < k.Length ==> k[i] == k[..][i] == None;
      key, val, hash := k, v, h;
    }

    /** Writes slot i. */
    method Put(i: nat, k: Name, v: Value, h: bv32)
      requires Valid() && i < key.Length && h == Hash(k)
      requires key[i] == Some(k) || (key[i].None? && !Has(key[..], k))
      modifies `n, key, val, hash
      ensures Valid() && Map() == old(Map())[k := v]
    {
      WriteSlot(key[..], val[..], i, k, v);
      OccupiedUpdate(key[..], i, Some(k));
      if key[i].None? {
        n := n + 1;
      }
      key[i] := Some(k);
      val[i] := v;
      hash[i] := h;
      assert key[..] == old(key[..])[i := Some(k)] && val[..] == old(val[..])[i := v];
    }

    /** The first empty slot: there is one, once the dictionary has grown if it had to. */
    method FindEmpty() returns (i: nat)
      requires Valid() && n < key.Length
      ensures i < key.Length && key[i].None?
    {
      ghost var free := FreeSlot(key[..]);
      i := 0;
      while i < key.Length && key[i].Some?
        invariant i <= free
      {
        i := i + 1;
      }
    }

    /** dictionary_set. */
    method Set(k: Name, v: Value)
      requires Valid()
      modifies this, key, val, hash
      ensures Valid() && Map() == old(Map())[k := v]
      ensures key == old(key) || fresh(key)
      ensures val == old(val) || fresh(val)
      ensures hash == old(hash) || fresh(hash)
    {
      var h := DictionaryHash(k);
      var i := key.Length;
      if n > 0 {
        i := Search(k);
      } else {
        NoKeys(key[..], k);
      }
      if i == key.Length {
        OccupiedBound(key[..]);
        if n == key.Length {
          Double();
        }
        i := FindEmpty();
      }
      Put(i, k, v, h);
    }

    /** dictionary_unset. */
    method Unset(k: Name)
      requires Valid()
      modifies `n, key, val, hash
      ensures Valid() && Map() == old(Map()) - {k}
    {
      MapDomain(key[..], val[..], k);
      var i := Search(k);
      if i < key.Length {
        ClearSlot(key[..], val[..], i);
        OccupiedUpdate(key[..], i, None);
        key[i] := None;
        val[i] := None;
        hash[i] := 0;
        assert key[..] == old(key[..])[i := None] && val[..] == old(val[..])[i := None];
        n := n - 1;
      }
    }
  }

  lemma {:induction false} NoKeys(keys: seq<Value>, k: Name)
    requires Occupied(keys) == 0
    ensures !Has(keys, k)
  {
    if keys != [] {
      NoKeys(keys[..|keys| - 1], k);
      assert keys == keys[..|keys| - 1] + [keys[|keys| - 1]];
    }
  }
}
