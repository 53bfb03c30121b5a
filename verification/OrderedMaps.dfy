/** `util.OrderedMap`: items in insertion order, with an index from the flattened key to the
    item's place. */
module OrderedMaps {
  import opened Seqs

  ghost predicate Indexed<K, V, F>(flat: K -> F, items: seq<(K, V)>, index: map<F, nat>) {
    && (forall i :: 0 <= i < |items| ==> flat(items[i].0) in index && index[flat(items[i].0)] == i)
    && (forall f <- index :: index[f] < |items| && flat(items[index[f]].0) == f)
  }

  function Shifted<F>(index: map<F, nat>, at: nat): map<F, nat>
    requires forall f <- index :: index[f] != at
  {
    map f | f in index :: if index[f] < at then index[f] else index[f] - 1
  }

  /** What items and index say, by flat key. */
  ghost function Meaning<K, V, F>(flat: K -> F, items: seq<(K, V)>, index: map<F, nat>): map<F, V>
    requires Indexed(flat, items, index)
  {
    map f | f in index :: items[index[f]].1
  }

  lemma OthersElsewhere<K, V, F>(flat: K -> F, items: seq<(K, V)>, index: map<F, nat>, gone: F)
    requires Indexed(flat, items, index) && gone in index
    ensures forall f <- index - {gone} :: index[f] != index[gone]
  {
  }

  lemma NothingToDrop<K, V, F>(flat: K -> F, items: seq<(K, V)>, index: map<F, nat>, gone: F)
    requires Indexed(flat, items, index) && gone !in index
    ensures Meaning(flat, items, index) - {gone} == Meaning(flat, items, index)
  {
  }

  lemma InRange<K, V, F>(flat: K -> F, items: seq<(K, V)>, index: map<F, nat>, key: F)
    requires Indexed(flat, items, index) && key in index
    ensures index[key] < |items|
  {
  }

  function Without<T>(s: seq<T>, at: nat): seq<T>
    requires at < |s|
  {
    s[..at] + s[at + 1..]
  }

  lemma WithoutAt<T>(s: seq<T>, at: nat, i: nat)
    requires at < |s| && i < |s| - 1
    ensures Without(s, at)[i] == s[if i < at then i else i + 1]
  {
  }

  /** Closing the gap after a removed item keeps every other key with its own item. */
  lemma ShiftedIndexes<K, V, F>(flat: K -> F, items: seq<(K, V)>, index: map<F, nat>, gone: F)
    requires Indexed(flat, items, index) && gone in index
    ensures forall f <- index - {gone} :: index[f] != index[gone]
    ensures var at := index[gone];
            var rest, shifted := Without(items, at), Shifted(index - {gone}, at);
            Indexed(flat, rest, shifted) && Meaning(flat, rest, shifted) == Meaning(flat, items, index) - {gone}
  {
    OthersElsewhere(flat, items, index, gone);
    var at := index[gone];
    var rest, shifted := Without(items, at), Shifted(index - {gone}, at);
    forall i | 0 <= i < |rest|
      ensures flat(rest[i].0) in shifted && shifted[flat(rest[i].0)] == i
    {
      hide Without;
      WithoutAt(items, at, i);
      var j := if i < at then i else i + 1;
      assert index[flat(items[j].0)] == j;
    }
    forall f <- shifted
      ensures shifted[f] < |rest| && rest[shifted[f]] == items[index[f]]
    {
      WithoutAt(items, at, shifted[f]);
    }
  }

  class OrderedMap<K(!new), V(!new), F(==, !new)> {
    /** `_serialize_key`. */
    const flat: K -> F
    var items: seq<(K, V)>
    var index: map<F, nat>

    /** The index sends each item's flat key to that item, and holds nothing else. */
    ghost predicate Valid()
      reads this
    {
      Indexed(flat, items, index)
    }

    /** What the map means, by flat key. */
    ghost function Contents(): map<F, V>
      requires Valid()
      reads this
    {
      Meaning(flat, items, index)
    }

    constructor (flat: K -> F)
      ensures Valid() && this.flat == flat && items == [] && Contents() == map[]
    {
      this.flat, items, index := flat, [], map[];
    }

    /** `_insert`: a known key keeps its place. */
    method Insert(key: K, value: V)
      requires Valid()
      modifies this
      ensures Valid() && Contents() == old(Contents())[flat(key) := value]
      ensures if flat(key) in old(index) then |items| == |old(items)| else items == old(items) + [(key, value)]
      ensures forall i :: 0 <= i < |old(items)| && flat(old(items)[i].0) != flat(key) ==> items[i] == old(items)[i]
    {
      var flatKey := flat(key);
      if flatKey in index {
        items := items[index[flatKey] := (key, value)];
      } else {
        items := items + [(key, value)];
        index := index[flatKey := |items| - 1];
      }
    }

    /** `__getitem__`: nothing is the KeyError. */
    method GetItem(key: K) returns (r: Option<V>)
      requires Valid()
      ensures r == if flat(key) in Contents() then Some(Contents()[flat(key)]) else None
    {
      if flat(key) in index {
        r := Some(items[index[flat(key)]].1);
      } else {
        r := None;
      }
    }

    /** `__delitem__`: the places after the removed one move down by one. */
    method DelItem(key: K) returns (ok: bool)
      requires Valid()
      modifies this
      ensures Valid() && Contents() == old(Contents()) - {flat(key)}
      ensures ok == (flat(key) in old(index))
      ensures ok ==> items == Without(old(items), old(index)[flat(key)])
      ensures !ok ==> items == old(items)
    {
      hide Indexed, Meaning, Shifted, Without;
      if flat(key) !in index {
        NothingToDrop(flat, items, index, flat(key));
        return false;
      }
      InRange(flat, items, index, flat(key));
      var at := index[flat(key)];
      ShiftedIndexes(flat, items, index, flat(key));
      index := Shifted(index - {flat(key)}, at);
      items := Without(items, at);
      ok := true;
    }

    /** `popitem`: the last item; nothing is the KeyError. */
    method PopItem() returns (r: Option<(K, V)>)
      requires Valid()
      modifies this
      ensures Valid()
      ensures r.None? <==> old(items) == []
      ensures r.Some? ==> items + [r.value] == old(items) && Contents() == old(Contents()) - {flat(r.value.0)}
      ensures r.None? ==> items == old(items)
    {
      if items == [] {
        return None;
      }
      var last := items[|items| - 1];
      items := items[..|items| - 1];
      index := index - {flat(last.0)};
      r := Some(last);
    }
  }
}
