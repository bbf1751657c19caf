/** A plain JavaScript object used as a dictionary: its own string keys in
    insertion order, each with one value. Assigning to an existing key keeps
    its position and replaces the value; assigning to a new key appends it.
    (JavaScript lists integer-like keys first; that ordering is not modelled.) */
module JsObject {
  import opened Optional
  import opened JsString

  type Obj<V> = seq<(string, V)>

  function Keys<V>(o: Obj<V>): set<string> {
    set i | 0 <= i < |o| :: o[i].0
  }

  predicate UniqueKeys<V>(o: Obj<V>) {
    forall i, j :: 0 <= i < j < |o| ==> o[i].0 != o[j].0
  }

  lemma KeysCons<V>(p: (string, V), o: Obj<V>)
    ensures Keys([p] + o) == {p.0} + Keys(o)
  {
    var r := [p] + o;
    forall k | k in Keys(o) ensures k in Keys(r) {
      var i :| 0 <= i < |o| && o[i].0 == k;
      assert r[i + 1].0 == k;
    }
    assert r[0].0 == p.0;
  }

  /** `o[k]`: the value under `k`, or `None` for `undefined`. */
  function Get<V>(o: Obj<V>, k: string): (r: Option<V>)
    ensures r.Some? <==> k in Keys(o)
  {
    if o == [] then None
    else if o[0].0 == k then Some(o[0].1)
    else
      KeysCons(o[0], o[1..]);
      Get(o[1..], k)
  }

  /** `o[k] = v`. */
  function Put<V>(o: Obj<V>, k: string, v: V): (r: Obj<V>)
    ensures Get(r, k) == Some(v)
    ensures forall k' :: k' != k ==> Get(r, k') == Get(o, k')
    ensures k !in Keys(o) ==> r == o + [(k, v)]
    ensures k in Keys(o) ==> |r| == |o| && forall i :: 0 <= i < |o| ==> r[i].0 == o[i].0
  {
    if o == [] then [(k, v)]
    else if o[0].0 == k then
      var r := [(k, v)] + o[1..];
      KeysCons(o[0], o[1..]);
      KeysCons((k, v), o[1..]);
      assert forall k' :: k' != k ==> Get(r, k') == Get(o[1..], k');
      r
    else
      var rest := Put(o[1..], k, v);
      var r := [o[0]] + rest;
      KeysCons(o[0], o[1..]);
      KeysCons(o[0], rest);
      assert r[1..] == rest;
      r
  }

  /** Assigning adds `k` to the keys and keeps them distinct. */
  lemma PutKeys<V>(o: Obj<V>, k: string, v: V)
    ensures Keys(Put(o, k, v)) == Keys(o) + {k}
    ensures UniqueKeys(o) ==> UniqueKeys(Put(o, k, v))
  {
    var r := Put(o, k, v);
    forall k' ensures k' in Keys(r) <==> k' in Keys(o) + {k} {
      assert k' in Keys(r) <==> Get(r, k').Some?;
      assert k' in Keys(o) <==> Get(o, k').Some?;
    }
    if UniqueKeys(o) && k !in Keys(o) {
      forall i, j | 0 <= i < j < |r| ensures r[i].0 != r[j].0 {
        if j == |o| {
          assert r[i] == o[i];
        }
      }
    }
  }

  /** `Object.keys(o).find(k => k.startsWith(prefix))`. */
  function FirstKeyWithPrefix<V>(o: Obj<V>, prefix: string): (r: Option<string>)
    ensures r.Some? ==> r.value in Keys(o) && StartsWith(r.value, prefix)
    ensures r.None? <==> forall k :: k in Keys(o) ==> !StartsWith(k, prefix)
    ensures r.Some? ==> exists i :: 0 <= i < |o| && o[i].0 == r.value &&
                                    forall j :: 0 <= j < i ==> !StartsWith(o[j].0, prefix)
  {
    if o == [] then None
    else
      KeysCons(o[0], o[1..]);
      if StartsWith(o[0].0, prefix) then Some(o[0].0) else FirstKeyWithPrefix(o[1..], prefix)
  }
}
