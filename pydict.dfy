// Python dictionaries as the build scripts use them: insertion-ordered maps
// in which assigning an existing key replaces its value in place and
// assigning a new key appends it.

module PyDict {

  datatype Option<T> = None | Some(value: T)

  datatype Dict<K(==), V> = Dict(keys: seq<K>, values: map<K, V>)

  /** Every key once, and exactly the keys of the map. */
  ghost predicate Valid<K(!new), V>(d: Dict<K, V>)
  {
    && (forall i, j :: 0 <= i < j < |d.keys| ==> d.keys[i] != d.keys[j])
    && (forall k :: k in d.values <==> k in d.keys)
  }

  function Empty<K(==, !new), V>(): (d: Dict<K, V>)
    ensures Valid(d) && d.keys == []
  {
    Dict([], map[])
  }

  /** `d[k] = v`. */
  function Put<K(==, !new), V>(d: Dict<K, V>, k: K, v: V): (r: Dict<K, V>)
    requires Valid(d)
    ensures Valid(r) && r.values == d.values[k := v]
    ensures k in d.keys ==> r.keys == d.keys
    ensures k !in d.keys ==> r.keys == d.keys + [k]
  {
    if k in d.keys then Dict(d.keys, d.values[k := v]) else Dict(d.keys + [k], d.values[k := v])
  }

  /** The dictionary built by a run of steps, each assigning one pair or
      (None) nothing. */
  function Assign<K(==, !new), V>(steps: seq<Option<(K, V)>>): (d: Dict<K, V>)
    ensures Valid(d)
  {
    if steps == [] then Empty()
    else
      var d := Assign(steps[.. |steps| - 1]);
      match steps[|steps| - 1]
      case None => d
      case Some(kv) => Put(d, kv.0, kv.1)
  }

  /** The dictionary after one more step. */
  lemma AssignNext<K(!new), V>(steps: seq<Option<(K, V)>>, i: nat)
    requires i < |steps|
    ensures Assign(steps[.. i + 1]) ==
      if steps[i].None? then Assign(steps[.. i]) else Put(Assign(steps[.. i]), steps[i].value.0, steps[i].value.1)
  {
    assert steps[.. i + 1][.. i] == steps[.. i];
  }

  /** Step i assigns key k. */
  ghost predicate Assigns<K(!new), V>(steps: seq<Option<(K, V)>>, i: int, k: K)
  {
    0 <= i < |steps| && steps[i].Some? && steps[i].value.0 == k
  }

  /** A key is present exactly when some step assigned it, and it holds the
      value of the last step that did. */
  lemma AssignLookup<K(!new), V>(steps: seq<Option<(K, V)>>, k: K)
    ensures k in Assign(steps).values <==> exists i :: Assigns(steps, i, k)
    ensures forall i :: Assigns(steps, i, k) && (forall j :: i < j < |steps| ==> !Assigns(steps, j, k)) ==>
      Assign(steps).values[k] == steps[i].value.1
  {
    AssignHas(steps, k);
    forall i | Assigns(steps, i, k) && (forall j :: i < j < |steps| ==> !Assigns(steps, j, k))
      ensures Assign(steps).values[k] == steps[i].value.1
    {
      AssignLast(steps, k, i);
    }
  }

  lemma {:induction false} AssignHas<K(!new), V>(steps: seq<Option<(K, V)>>, k: K)
    ensures k in Assign(steps).values <==> exists i :: Assigns(steps, i, k)
  {
    if steps != [] {
      var init := steps[.. |steps| - 1];
      AssignHas(init, k);
      if exists i :: Assigns(init, i, k) {
        var i :| Assigns(init, i, k);
        assert Assigns(steps, i, k);
      }
      if !Assigns(steps, |steps| - 1, k) && exists i :: Assigns(steps, i, k) {
        var i :| Assigns(steps, i, k);
        assert Assigns(init, i, k);
      }
    }
  }

  lemma {:induction false} AssignLast<K(!new), V>(steps: seq<Option<(K, V)>>, k: K, i: nat)
    requires Assigns(steps, i, k) && forall j :: i < j < |steps| ==> !Assigns(steps, j, k)
    ensures k in Assign(steps).values && Assign(steps).values[k] == steps[i].value.1
  {
    var init := steps[.. |steps| - 1];
    if i < |steps| - 1 {
      assert Assigns(init, i, k);
      forall j | i < j < |init| ensures !Assigns(init, j, k) {
        assert !Assigns(steps, j, k);
      }
      AssignLast(init, k, i);
      assert !Assigns(steps, |steps| - 1, k);
      assert k in Assign(init).values;
      assert Assign(steps).values[k] == Assign(init).values[k];
    }
  }
}
