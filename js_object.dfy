/** A JavaScript plain object with string keys, as the stores and components use one
    (`Record<string, V>`): its values by key, and its keys in the order `Object.keys`
    reports them, which for non-numeric keys is the order of first insertion. */
module JsObject {
  import opened Common

  datatype Obj<V> = Obj(keys: seq<string>, vals: map<string, V>)

  /** Every real object satisfies this: each key is listed once, and exactly the
      keys that carry a value are listed. */
  ghost predicate WellFormed<V>(o: Obj<V>)
  {
    Distinct(o.keys) && o.vals.Keys == set k | k in o.keys
  }

  /** `{}` */
  function EmptyObj<V>(): (o: Obj<V>)
    ensures WellFormed(o) && o.keys == [] && o.vals == map[]
  {
    Obj([], map[])
  }

  /** `o[k] = v`: an existing key keeps its place, a new key goes last. */
  function Put<V>(o: Obj<V>, k: string, v: V): (r: Obj<V>)
    ensures r.vals == o.vals[k := v]
    ensures WellFormed(o) ==> WellFormed(r)
    ensures WellFormed(o) && k in o.keys ==> r.keys == o.keys
    ensures k !in o.vals ==> r.keys == o.keys + [k]
  {
    if k in o.vals then
      Obj(o.keys, o.vals[k := v])
    else
      var r := Obj(o.keys + [k], o.vals[k := v]);
      assert (set x | x in r.keys) == (set x | x in o.keys) + {k};
      r
  }

  /** `Object.assign(t, s)` for the keys `ks` of `s`, copied one by one in order. */
  function AssignKeys<V>(t: Obj<V>, vals: map<string, V>, ks: seq<string>): (r: Obj<V>)
    requires forall k :: k in ks ==> k in vals
    ensures r.vals.Keys == t.vals.Keys + (set k | k in ks)
    ensures forall k :: k in ks ==> r.vals[k] == vals[k]
    ensures forall k :: k in t.vals && k !in ks ==> r.vals[k] == t.vals[k]
    decreases |ks|
  {
    if ks == [] then t
    else
      var r := AssignKeys(Put(t, ks[0], vals[ks[0]]), vals, ks[1..]);
      assert (set k | k in ks) == {ks[0]} + (set k | k in ks[1..]);
      r
  }

  /** Copying keys keeps an object well formed, keeps its keys as a prefix in their
      order, and adds no key when every copied key was already present. */
  lemma {:induction false} AssignKeysOrder<V>(t: Obj<V>, vals: map<string, V>, ks: seq<string>)
    requires forall k :: k in ks ==> k in vals
    ensures WellFormed(t) ==> WellFormed(AssignKeys(t, vals, ks))
    ensures |t.keys| <= |AssignKeys(t, vals, ks).keys| && AssignKeys(t, vals, ks).keys[..|t.keys|] == t.keys
    ensures WellFormed(t) && (forall k :: k in ks ==> k in t.vals) ==> AssignKeys(t, vals, ks).keys == t.keys
    decreases |ks|
  {
    if ks != [] {
      var t1 := Put(t, ks[0], vals[ks[0]]);
      AssignKeysOrder(t1, vals, ks[1..]);
      var r := AssignKeys(t1, vals, ks[1..]);
      assert r == AssignKeys(t, vals, ks);
      assert t1.keys[..|t.keys|] == t.keys;
      assert r.keys[..|t.keys|] == r.keys[..|t1.keys|][..|t.keys|];
      if WellFormed(t) && (forall k :: k in ks ==> k in t.vals) {
        assert t1.keys == t.keys && t1.vals.Keys == t.vals.Keys;
      }
    }
  }

  /** `Object.assign(t, s)`: the keys of `s` override, the others of `t` stay; the
      keys of `t` keep their order, the new keys of `s` follow. */
  function Assign<V>(t: Obj<V>, s: Obj<V>): (r: Obj<V>)
    requires WellFormed(s)
    ensures WellFormed(t) ==> WellFormed(r)
    ensures r.vals.Keys == t.vals.Keys + s.vals.Keys
    ensures forall k :: k in s.vals ==> r.vals[k] == s.vals[k]
    ensures forall k :: k in t.vals && k !in s.vals ==> r.vals[k] == t.vals[k]
    ensures |t.keys| <= |r.keys| && r.keys[..|t.keys|] == t.keys
    ensures WellFormed(t) && s.vals.Keys <= t.vals.Keys ==> r.keys == t.keys
  {
    AssignKeysOrder(t, s.vals, s.keys);
    AssignKeys(t, s.vals, s.keys)
  }

  /** `{ [k]: v }` */
  function Single<V>(k: string, v: V): (o: Obj<V>)
    ensures WellFormed(o) && o.keys == [k] && o.vals == map[k := v]
  {
    Obj([k], map[k := v])
  }

  /** Assigning a one-key object is setting that key. */
  lemma AssignSingle<V>(t: Obj<V>, k: string, v: V)
    ensures Assign(t, Single(k, v)) == Put(t, k, v)
  {
    var s := Single(k, v);
    assert s.keys[1..] == [];
    assert AssignKeys(t, s.vals, s.keys) == AssignKeys(Put(t, k, v), s.vals, []);
  }
}
