/**
 * Python dicts (and OrderedDicts) with string keys, as values: the keys in
 * insertion order together with the key-to-value table.
 */
module OrderedDicts {
  import opened Counting

  datatype ODict<V> = ODict(keys: seq<string>, entries: map<string, V>)
  {
    /** Keys listed once each, and exactly the keys of the table. */
    ghost predicate Valid()
    {
      NoDup(keys) && forall k :: k in entries <==> k in keys
    }
  }

  /** `d[k] = v`: a new key goes to the end, an existing key keeps its place. */
  function Put<V>(d: ODict<V>, k: string, v: V): (d': ODict<V>)
    requires d.Valid()
    ensures d'.Valid()
    ensures d'.entries == d.entries[k := v]
    ensures k in d.entries ==> d'.keys == d.keys
    ensures k !in d.entries ==> d'.keys == d.keys + [k]
  {
    if k in d.entries then ODict(d.keys, d.entries[k := v])
    else ODict(d.keys + [k], d.entries[k := v])
  }

  /** s without any occurrence of x, the rest in order. */
  function Remove(s: seq<string>, x: string): (r: seq<string>)
    ensures forall y :: y in r <==> y in s && y != x
    ensures NoDup(s) ==> NoDup(r)
    ensures x !in s ==> r == s
  {
    if s == [] then []
    else
      var init := s[..|s| - 1];
      assert s == init + [s[|s| - 1]];
      assert NoDup(s) ==> NoDup(init) && s[|s| - 1] !in init;
      if s[|s| - 1] == x then Remove(init, x) else Remove(init, x) + [s[|s| - 1]]
  }

  /** `d.pop(k)` for a key that is present: the key leaves both the order and the table. */
  function Pop<V>(d: ODict<V>, k: string): (d': ODict<V>)
    requires d.Valid() && k in d.entries
    ensures d'.Valid()
    ensures d'.entries == d.entries - {k}
    ensures d'.keys == Remove(d.keys, k)
  {
    ODict(Remove(d.keys, k), d.entries - {k})
  }

  /** Removing the key that was appended last gives the keys back. */
  lemma {:induction false} RemoveAppended(s: seq<string>, x: string)
    requires x !in s
    ensures Remove(s + [x], x) == s
  {
    assert (s + [x])[..|s|] == s;
  }

  /** `d[k] = v` followed by `d.pop(k)` gives d back when k was absent. */
  lemma PopAfterPut<V>(d: ODict<V>, k: string, v: V)
    requires d.Valid() && k !in d.entries
    ensures Pop(Put(d, k, v), k) == d
  {
    RemoveAppended(d.keys, k);
    assert Pop(Put(d, k, v), k).entries == d.entries;
  }
}
