/**
 * Association lists standing for Python dictionaries whose entries are
 * written in order: a later entry for a key overwrites an earlier one.
 * When no key is written twice (`DistinctKeys`), the listed keys are the
 * dictionary's keys in insertion order.
 */
module Assoc {
  import opened Wrappers

  /** The value a dictionary built from `entries`, in order, holds for `key`. */
  function Lookup<V>(entries: seq<(string, V)>, key: string): (r: Option<V>)
    ensures r.None? <==> forall i :: 0 <= i < |entries| ==> entries[i].0 != key
    ensures r.Some? ==>
      exists i :: 0 <= i < |entries| && entries[i] == (key, r.value) &&
        forall j :: i < j < |entries| ==> entries[j].0 != key
    decreases |entries|
  {
    if |entries| == 0 then None
    else if entries[|entries| - 1].0 == key then Some(entries[|entries| - 1].1)
    else Lookup(entries[..|entries| - 1], key)
  }

  /** No key is listed twice. */
  predicate DistinctKeys<V>(entries: seq<(string, V)>)
  {
    forall i, j :: 0 <= i < j < |entries| ==> entries[i].0 != entries[j].0
  }

  /** Where no key is listed twice, the lookup of an entry's key finds that entry's value. */
  lemma LookupDistinct<V>(entries: seq<(string, V)>, i: nat)
    requires DistinctKeys(entries) && i < |entries|
    ensures Lookup(entries, entries[i].0) == Some(entries[i].1)
  {
    assert forall j :: 0 <= j < |entries| && j != i ==> entries[j].0 != entries[i].0;
  }

  /**
   * The keys of `entries`, in the order they are listed, repeats included;
   * under `DistinctKeys` this is the dictionary's key order.
   */
  function Keys<V>(entries: seq<(string, V)>): (ks: seq<string>)
    ensures |ks| == |entries|
    ensures forall i :: 0 <= i < |entries| ==> ks[i] == entries[i].0
  {
    seq(|entries|, i requires 0 <= i < |entries| => entries[i].0)
  }
}
