/**
 * A pass over the dice that writes one value per die into a map keyed by an
 * engine handle, skipping dice without a key. Used for the throw applied to
 * each body and for the transform copied onto each mesh: a later write to
 * the same key replaces an earlier one.
 */
module Stamps {
  import opened Wrappers

  function Stamp<K, V>(m: map<K, V>, keys: seq<Option<K>>, vals: seq<V>): map<K, V>
    requires |keys| == |vals|
    decreases |keys|
  {
    if |keys| == 0 then m
    else
      var n := |keys| - 1;
      var before := Stamp(m, keys[..n], vals[..n]);
      if keys[n].Some? then before[keys[n].value := vals[n]] else before
  }

  /** The value written for key k is that of the last position holding k. */
  lemma {:induction false} StampLastWriter<K, V>(m: map<K, V>, keys: seq<Option<K>>, vals: seq<V>, i: nat)
    requires |keys| == |vals| && i < |keys| && keys[i].Some?
    requires forall j :: i < j < |keys| ==> keys[j] != keys[i]
    ensures keys[i].value in Stamp(m, keys, vals)
    ensures Stamp(m, keys, vals)[keys[i].value] == vals[i]
    decreases |keys|
  {
    var n := |keys| - 1;
    if i < n {
      StampLastWriter(m, keys[..n], vals[..n], i);
    }
  }

  /** A key that no position holds keeps its old entry, or stays absent. */
  lemma {:induction false} StampUntouched<K, V>(m: map<K, V>, keys: seq<Option<K>>, vals: seq<V>, k: K)
    requires |keys| == |vals|
    requires forall j :: 0 <= j < |keys| ==> keys[j] != Some(k)
    ensures k in Stamp(m, keys, vals) <==> k in m
    ensures k in m ==> Stamp(m, keys, vals)[k] == m[k]
    decreases |keys|
  {
    if |keys| > 0 {
      var n := |keys| - 1;
      StampUntouched(m, keys[..n], vals[..n], k);
    }
  }
}
