/**
 * Maps filled entry by entry, where a later entry for a key overwrites an
 * earlier one: the shape of both the path-variable map and the query map
 * the router builds.
 */
module Maps {
  import opened Wrappers

  /** The map obtained by writing every present entry, in order, into an empty map. */
  function FromEntries<K, V>(entries: seq<Option<(K, V)>>): map<K, V>
  {
    if |entries| == 0 then map[]
    else
      var m := FromEntries(entries[..|entries| - 1]);
      match entries[|entries| - 1]
      case None => m
      case Some((k, v)) => m[k := v]
  }

  /** Writing one more entry is one more map update. */
  lemma FromEntriesSnoc<K, V>(entries: seq<Option<(K, V)>>, e: Option<(K, V)>)
    ensures FromEntries(entries + [e]) ==
      match e
      case None => FromEntries(entries)
      case Some((k, v)) => FromEntries(entries)[k := v]
  {
    assert (entries + [e])[..|entries|] == entries;
  }

  /** A key is in the map exactly when some present entry has it. */
  lemma {:induction false} FromEntriesKeys<K, V>(entries: seq<Option<(K, V)>>, k: K)
    ensures k in FromEntries(entries) <==>
      exists i :: 0 <= i < |entries| && entries[i].Some? && entries[i].value.0 == k
  {
    if |entries| > 0 {
      var init := entries[..|entries| - 1];
      FromEntriesKeys(init, k);
      if exists i :: 0 <= i < |init| && init[i].Some? && init[i].value.0 == k {
        var i :| 0 <= i < |init| && init[i].Some? && init[i].value.0 == k;
        assert entries[i] == init[i];
      }
      if exists i :: 0 <= i < |entries| && entries[i].Some? && entries[i].value.0 == k {
        var i :| 0 <= i < |entries| && entries[i].Some? && entries[i].value.0 == k;
        if i < |init| {
          assert init[i] == entries[i];
        }
      }
    }
  }

  /** The value of a key is the one from its last present entry. */
  lemma {:induction false} FromEntriesLastWins<K, V>(entries: seq<Option<(K, V)>>, i: nat)
    requires i < |entries| && entries[i].Some?
    requires forall j :: i < j < |entries| && entries[j].Some? ==> entries[j].value.0 != entries[i].value.0
    ensures entries[i].value.0 in FromEntries(entries)
    ensures FromEntries(entries)[entries[i].value.0] == entries[i].value.1
  {
    var init := entries[..|entries| - 1];
    if i < |init| {
      forall j | i < j < |init| && init[j].Some? ensures init[j].value.0 != init[i].value.0 {
        assert init[j] == entries[j];
      }
      FromEntriesLastWins(init, i);
    }
  }
}
