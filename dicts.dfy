/** A Python dict filled from (key, value) pairs in iteration order, as
    `d[k] = v` in a loop or a dict comprehension does it: a later pair with
    the same key overwrites an earlier one. */
module Dicts {

  function Collect<K, V>(entries: seq<(K, V)>): (d: map<K, V>)
    ensures d.Keys == set i | 0 <= i < |entries| :: entries[i].0
    decreases |entries|
  {
    if entries == [] then map[]
    else
      var prefix := entries[..|entries| - 1];
      var e := entries[|entries| - 1];
      var d' := Collect(prefix);
      assert forall i :: 0 <= i < |prefix| ==> prefix[i] == entries[i];
      d'[e.0 := e.1]
  }

  /** The value stored under a key is that of the last pair with the key. */
  lemma {:induction false} CollectLastWins<K, V>(entries: seq<(K, V)>, i: nat)
    requires i < |entries|
    requires forall j :: i < j < |entries| ==> entries[j].0 != entries[i].0
    ensures entries[i].0 in Collect(entries) && Collect(entries)[entries[i].0] == entries[i].1
    decreases |entries|
  {
    if i < |entries| - 1 {
      var prefix := entries[..|entries| - 1];
      assert prefix[i] == entries[i];
      CollectLastWins(prefix, i);
    }
  }

  /** Every stored value comes from a pair with that key. */
  lemma {:induction false} CollectValuesFromEntries<K, V>(entries: seq<(K, V)>, k: K)
    requires k in Collect(entries)
    ensures exists i :: 0 <= i < |entries| && entries[i] == (k, Collect(entries)[k])
    decreases |entries|
  {
    var prefix := entries[..|entries| - 1];
    var e := entries[|entries| - 1];
    if e.0 != k {
      CollectValuesFromEntries(prefix, k);
      var i :| 0 <= i < |prefix| && prefix[i] == (k, Collect(prefix)[k]);
      assert entries[i] == prefix[i];
    } else {
      assert entries[|entries| - 1] == (k, Collect(entries)[k]);
    }
  }
}
