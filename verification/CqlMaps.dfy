/** The map a decoded CQL map value becomes: looked up by the bytes its keys had on the wire. */
module CqlMaps {
  import opened Bytes
  import opened Seqs
  import opened CqlLeaves
  import opened CqlWire
  import opened CqlCodec
  import opened CqlDecoded
  import opened Frames

  // --------------------------------------------------------- values that encode the same again

  predicate IsCollection(t: CqlType) { t.ListOf? || t.SetOf? || t.MapOf? }

  /** The index is over the bytes of protocol version 3 and up, and a lookup serialises the key for
      the connection's own version. That makes no difference from version 3 on, nor for a key that
      is not itself a list, a set or a map: what is inside a tuple is always written as in
      version 3. */
  predicate KeysComparable(t: CqlType, pv: int)
    requires t.MapOf?
  {
    pv >= 3 || !IsCollection(t.key)
  }

  /** A null comes back as null where empty bytes are not allowed, and so does the empty tuple. */
  predicate ComesBackAsNull(t: CqlType, key: Value) {
    (key == Null && !EmptyAllowed(t)) || (t.TupleOf? && key == TupleV([]))
  }

  /** No short tuple, no empty tuple as a part of a tuple, and sets in order. A map that is not
      empty has comparable keys, none of which comes back as null, and no two entries with the same
      bytes for a key and different bytes for the value. */
  predicate Stable(t: CqlType, v: Value, pv: int)
    decreases t, 2, 0
  {
    match (t, v)
    case (ListOf(element), ListV(items)) => forall i :: 0 <= i < |items| ==> Stable(element, items[i], Inner(pv))
    case (SetOf(_), SetV(members)) => Sorted(members) == members
    case (MapOf(_, _), MapV(entries)) =>
      entries == [] || (KeysComparable(t, pv) && StablePairs(t, entries, Inner(pv)) && Agree(t, entries, Inner(pv)))
    case (TupleOf(types), TupleV(parts)) =>
      parts == [] || (|parts| == |types| && StableParts(types, parts, Inner(pv)))
    case _ => true
  }

  predicate StablePairs(t: CqlType, entries: seq<(Value, Value)>, pv: int)
    requires t.MapOf?
    decreases t, 0, 0
  {
    forall i :: 0 <= i < |entries| ==>
      && Stable(t.key, entries[i].0, pv) && !ComesBackAsNull(t.key, entries[i].0)
      && Stable(t.value, entries[i].1, pv)
  }

  predicate Agree(t: CqlType, entries: seq<(Value, Value)>, pv: int)
    requires t.MapOf?
  {
    forall i, j :: 0 <= i < j < |entries| && Wire(t.key, entries[i].0, pv) == Wire(t.key, entries[j].0, pv) ==>
      Wire(t.value, entries[i].1, pv) == Wire(t.value, entries[j].1, pv)
  }

  predicate StableParts(types: seq<CqlType>, parts: seq<Value>, pv: int)
    requires |parts| == |types|
    decreases types, 0, 0
  {
    types == [] || (StablePart(types[0], parts[0], pv) && StableParts(types[1..], parts[1..], pv))
  }

  predicate StablePart(t: CqlType, v: Value, pv: int)
    decreases t, 3, 0
  {
    v == Null || (Stable(t, v, pv) && !(t.TupleOf? && v == TupleV([])))
  }

  /** The object a value is decoded to encodes to the bytes it came from exactly when the value was
      stable. */
  lemma {:induction false} EncodesTheSame(t: CqlType, v: Value, pv: int)
    requires ToBinary(t, v, pv).Some?
    ensures DecodeBinary(t, ToBinary(t, v, pv), pv) == Some(Shown(t, v, pv))
    ensures ToBinaryAgain(t, Shown(t, v, pv), pv) == ToBinary(t, v, pv) <==> Stable(t, v, pv)
    decreases t, 2, 0
  {
    hide SerializeLeaf, WriteCollection, WriteParts, Sorted, Inner, DecodeBinary;
    hide ToBinaryAll, ShownAll, AllAgain, LeavesToBinary, ToBinaryPairs, ShownPairs, PairsAgain, ToBinaryParts,
      ShownParts, PartsAgain;
    hide KeysComparable, StablePairs, Agree, StableParts;
    DecodesAsShown(t, v, pv);
    match (t, v)
    case (_, Null) => NullEncodes(t, pv);
    case (ListOf(element), ListV(items)) =>
      AllEncodeTheSame(element, items, Inner(pv));
      SameChunks(|items|, ToBinaryAll(element, items, Inner(pv)), |items|,
        AllAgain(element, ShownAll(element, items, Inner(pv)), Inner(pv)), 1, pv);
    case (SetOf(member), SetV(members)) =>
      LeavesEncodeTheSame(member, members, Sorted(members));
      SameChunks(|members|, LeavesToBinary(member, members), |Sorted(members)|,
        LeavesToBinary(member, Sorted(members)), 1, pv);
    case (MapOf(_, _), MapV(entries)) =>
      MapEncodesTheSame(t, entries, pv);
      SameChunks(|entries|, ToBinaryPairs(t, entries, Inner(pv)), |entries|,
        PairsAgain(t, Shown(t, v, pv), 0, Inner(pv)), 2, pv);
    case (TupleOf(types), TupleV(parts)) =>
      if parts == [] {
        EmptyTupleEncodes(types, pv);
      } else {
        TupleEncodesTheSame(types, parts, Inner(pv));
      }
    case _ =>
  }

  lemma NullEncodes(t: CqlType, pv: int)
    ensures ToBinaryAgain(t, Shown(t, Null, pv), pv) == ToBinary(t, Null, pv)
  {
  }

  lemma EmptyTupleEncodes(types: seq<CqlType>, pv: int)
    requires types != []
    ensures ToBinary(TupleOf(types), TupleV([]), pv) == Some([]) == ToBinaryAgain(TupleOf(types), NullD, pv)
  {
    assert ToBinaryParts(types, [], Inner(pv)) == Some([]) && WriteParts([]) == Some([]);
  }

  /** Collections have the same bytes exactly when they have the same chunks. */
  lemma SameChunks(count: nat, cs: Option<seq<ByteString>>, count': nat, cs': Option<seq<ByteString>>, per: nat,
    pv: int)
    requires 1 <= per <= 2
    requires cs.Some? && |cs.value| == count * per && WriteCollection(count, cs.value, pv).Some?
    requires cs'.Some? ==> |cs'.value| == count' * per
    ensures cs'.Some? ==>
              (WriteCollection(count', cs'.value, pv) == WriteCollection(count, cs.value, pv) <==> cs' == cs)
  {
    hide WriteCollection;
    assert cs == cs' ==> count == count' by { assert per == 1 || per == 2; }
    if cs'.Some? && WriteCollection(count', cs'.value, pv).Some? {
      CollectionInjective(count, cs.value, count', cs'.value, per, pv);
    }
  }

  predicate StableAll(t: CqlType, items: seq<Value>, pv: int) {
    forall i :: 0 <= i < |items| ==> Stable(t, items[i], pv)
  }

  lemma {:induction false} AllEncodeTheSame(t: CqlType, items: seq<Value>, pv: int)
    requires ToBinaryAll(t, items, pv).Some?
    ensures AllAgain(t, ShownAll(t, items, pv), pv) == ToBinaryAll(t, items, pv) <==> StableAll(t, items, pv)
    decreases t, 3, |items|
  {
    hide ToBinary, Shown, ToBinaryAgain, Stable;
    if items != [] {
      EncodesTheSame(t, items[0], pv);
      AllEncodeTheSame(t, items[1..], pv);
      var shown := ShownAll(t, items, pv);
      assert shown[0] == Shown(t, items[0], pv) && shown[1..] == ShownAll(t, items[1..], pv);
      var cs := ToBinaryAll(t, items, pv).value;
      assert cs[1..] == ToBinaryAll(t, items[1..], pv).value;
      FirstAndRest(t, items, pv);
      if AllAgain(t, shown, pv).Some? {
        HeadAndTail(ToBinaryAgain(t, shown[0], pv).value, AllAgain(t, shown[1..], pv).value, cs);
      }
    }
  }

  lemma FirstAndRest(t: CqlType, items: seq<Value>, pv: int)
    requires items != []
    ensures StableAll(t, items, pv) <==> Stable(t, items[0], pv) && StableAll(t, items[1..], pv)
  {
    hide Stable;
    if Stable(t, items[0], pv) && StableAll(t, items[1..], pv) {
      assert forall i :: 1 <= i < |items| ==> items[i] == items[1..][i - 1];
    }
  }

  lemma LeavesEncodeTheSame(t: LeafType, members: seq<LeafValue>, others: seq<LeafValue>)
    requires LeavesToBinary(t, members).Some?
    ensures LeavesToBinary(t, others) == LeavesToBinary(t, members) <==> others == members
  {
    hide LeavesToBinary, LeavesFromBinary;
    LeavesReadBack(t, members);
    if LeavesToBinary(t, others).Some? { LeavesReadBack(t, others); }
  }

  // -------------------------------------------------------------------------------- tuples

  lemma {:induction false} TupleEncodesTheSame(types: seq<CqlType>, parts: seq<Value>, pv: int)
    requires parts != [] && |parts| <= |types| && ToBinaryParts(types, parts, pv).Some?
    requires WriteParts(ToBinaryParts(types, parts, pv).value).Some?
    ensures var shown := PartsAgain(types, ShownParts(types, parts, pv), pv);
            (shown.Some? && WriteParts(shown.value) == WriteParts(ToBinaryParts(types, parts, pv).value)) <==>
            (|parts| == |types| && StableParts(types, parts, pv))
    decreases types, 1, 0
  {
    hide WriteParts, ToBinaryParts, ShownParts, PartsAgain, StableParts;
    var cs := ToBinaryParts(types, parts, pv).value;
    var shown := PartsAgain(types, ShownParts(types, parts, pv), pv);
    if |parts| == |types| { PartsEncodeTheSame(types, parts, pv); }
    if shown.Some? && WriteParts(shown.value).Some? { PartsInjective(cs, shown.value); }
  }

  lemma {:induction false} PartsEncodeTheSame(types: seq<CqlType>, parts: seq<Value>, pv: int)
    requires |parts| == |types| && ToBinaryParts(types, parts, pv).Some?
    ensures PartsAgain(types, ShownParts(types, parts, pv), pv) == ToBinaryParts(types, parts, pv) <==>
            StableParts(types, parts, pv)
    decreases types, 0, 0
  {
    hide Serialize, Shown, SerializeAgain, StablePart;
    if types != [] {
      PartsEncodeTheSame(types[1..], parts[1..], pv);
      var shown := ShownParts(types, parts, pv);
      assert shown[1..] == ShownParts(types[1..], parts[1..], pv);
      var cs := ToBinaryParts(types, parts, pv).value;
      assert cs[1..] == ToBinaryParts(types[1..], parts[1..], pv).value;
      PartEncodesTheSame(types[0], parts[0], pv);
      if PartsAgain(types, shown, pv).Some? {
        var cs' := PartsAgain(types, shown, pv).value;
        assert cs'[1..] == PartsAgain(types[1..], shown[1..], pv).value;
        HeadAndTail(cs'[0], cs'[1..], cs);
        assert [cs'[0]] + cs'[1..] == cs';
      }
    }
  }

  /** One part of a tuple, null or not. */
  function EncodedPart(t: CqlType, v: Value, pv: int): Option<Option<ByteString>> {
    if v == Null then Some(None)
    else match Serialize(t, v, pv) case None => None case Some(c) => Some(Some(c))
  }

  /** The same for a part that was decoded. */
  function DecodedPart(t: CqlType, d: Decoded, pv: int): Option<Option<ByteString>> {
    if d == NullD then Some(None)
    else match SerializeAgain(t, d, pv) case None => None case Some(c) => Some(Some(c))
  }

  lemma {:induction false} PartEncodesTheSame(t: CqlType, v: Value, pv: int)
    requires v == Null || Serialize(t, v, pv).Some?
    ensures DecodedPart(t, if v == Null then NullD else Shown(t, v, pv), pv) == EncodedPart(t, v, pv) <==>
            StablePart(t, v, pv)
    decreases t, 4, 0
  {
    hide Serialize, Shown, SerializeAgain, Stable;
    if v != Null {
      EncodesTheSame(t, v, pv);
      ShownNull(t, v, pv);
    }
  }

  lemma ShownNull(t: CqlType, v: Value, pv: int)
    requires ToBinary(t, v, pv).Some?
    ensures Shown(t, v, pv) == NullD <==> ComesBackAsNull(t, v)
  {
  }

  // ---------------------------------------------------------------------------------- maps

  /** The bytes of the keys of an encoded map, in order. */
  function KeyChunks(cs: seq<ByteString>): (wires: seq<ByteString>)
    requires |cs| % 2 == 0
    ensures |wires| == |cs| / 2
    ensures forall i :: 0 <= i < |wires| ==> wires[i] == cs[2 * i]
  {
    seq(|cs| / 2, i requires 0 <= i < |cs| / 2 => cs[2 * i])
  }

  /** The keys' bytes in the encoding of a map value. */
  function Wires(t: CqlType, entries: seq<(Value, Value)>, pv: int): (wires: seq<ByteString>)
    requires t.MapOf? && ToBinaryPairs(t, entries, Inner(pv)).Some?
    ensures |wires| == |entries|
  {
    KeyChunks(ToBinaryPairs(t, entries, Inner(pv)).value)
  }

  lemma {:induction false} PairChunk(t: CqlType, entries: seq<(Value, Value)>, pv: int, i: nat)
    requires t.MapOf? && ToBinaryPairs(t, entries, pv).Some? && i < |entries|
    ensures ToBinary(t.key, entries[i].0, pv) == Some(ToBinaryPairs(t, entries, pv).value[2 * i])
    ensures ToBinary(t.value, entries[i].1, pv) == Some(ToBinaryPairs(t, entries, pv).value[2 * i + 1])
    decreases |entries|
  {
    hide ToBinary;
    if i > 0 {
      PairChunk(t, entries[1..], pv, i - 1);
      var cs := ToBinaryPairs(t, entries, pv).value;
      assert cs[2..] == ToBinaryPairs(t, entries[1..], pv).value;
      assert cs[2..][2 * (i - 1)] == cs[2 * i] && cs[2..][2 * (i - 1) + 1] == cs[2 * i + 1];
    }
  }

  lemma {:induction false} ShownPairAt(t: CqlType, entries: seq<(Value, Value)>, pv: int, i: nat)
    requires t.MapOf? && i < |entries|
    ensures ShownPairs(t, entries, pv)[i] ==
            Entry(Wire(t.key, entries[i].0, pv), Shown(t.key, entries[i].0, pv), Shown(t.value, entries[i].1, pv))
    decreases |entries|
  {
    hide Shown, Wire;
    if i > 0 { ShownPairAt(t, entries[1..], pv, i - 1); }
  }

  /** The decoded map holds the bytes its keys were encoded to. */
  lemma ShownWires(t: CqlType, entries: seq<(Value, Value)>, pv: int)
    requires t.MapOf? && ToBinaryPairs(t, entries, Inner(pv)).Some?
    ensures WiresOf(ShownPairs(t, entries, Inner(pv))) == Wires(t, entries, pv)
  {
    hide ToBinaryPairs, ShownPairs, ToBinary;
    forall i | 0 <= i < |entries|
      ensures WiresOf(ShownPairs(t, entries, Inner(pv)))[i] == Wires(t, entries, pv)[i]
    {
      PairChunk(t, entries, Inner(pv), i);
      ShownPairAt(t, entries, Inner(pv), i);
    }
  }

  /** From some place on, every entry has its chunks back. */
  predicate EntriesBack(t: CqlType, d: Decoded, i: nat, pv: int, cs: seq<ByteString>)
    requires t.MapOf? && d.MapD? && |cs| == |d.entries| * 2
  {
    forall k :: i <= k < |d.entries| ==> EntryAgain(t, d, k, pv) == Some((cs[2 * k], cs[2 * k + 1]))
  }

  lemma {:induction false} PairsEqual(t: CqlType, d: Decoded, i: nat, pv: int, cs: seq<ByteString>)
    requires t.MapOf? && d.MapD? && i <= |d.entries| && |cs| == |d.entries| * 2
    ensures PairsAgain(t, d, i, pv) == Some(cs[2 * i..]) <==> EntriesBack(t, d, i, pv, cs)
    decreases |d.entries| - i
  {
    hide EntryAgain;
    if i < |d.entries| {
      PairsEqual(t, d, i + 1, pv, cs);
      var e, rest, tail := EntryAgain(t, d, i, pv), PairsAgain(t, d, i + 1, pv), cs[2 * i..];
      assert tail[2..] == cs[2 * (i + 1)..] && tail[0] == cs[2 * i] && tail[1] == cs[2 * i + 1];
      if e.Some? && rest.Some? {
        var all := [e.value.0, e.value.1] + rest.value;
        assert all[2..] == rest.value;
        TwoAndTail(all, tail);
      }
      assert EntriesBack(t, d, i, pv, cs) <==>
             e == Some((cs[2 * i], cs[2 * i + 1])) && EntriesBack(t, d, i + 1, pv, cs);
    } else {
      assert cs[2 * i..] == [];
    }
  }

  lemma TwoAndTail<T>(s: seq<T>, s': seq<T>)
    requires |s| >= 2 && |s'| >= 2
    ensures s == s' <==> s[0] == s'[0] && s[1] == s'[1] && s[2..] == s'[2..]
  {
    assert s == [s[0], s[1]] + s[2..] && s' == [s'[0], s'[1]] + s'[2..];
  }

  lemma SameInEveryVersion(t: CqlType, v: Value, pv: int)
    requires pv >= 3 || !IsCollection(t)
    ensures Serialize(t, v, pv) == Serialize(t, v, Inner(pv))
  {
    hide ToBinaryAll, LeavesToBinary, ToBinaryPairs, ToBinaryParts, SerializeLeaf, WriteCollection, WriteParts;
    assert Inner(Inner(pv)) == Inner(pv);
  }

  lemma SameAgainInEveryVersion(t: CqlType, d: Decoded, pv: int)
    requires pv >= 3 || !IsCollection(t)
    ensures SerializeAgain(t, d, pv) == SerializeAgain(t, d, Inner(pv))
  {
    hide AllAgain, LeavesToBinary, PairsAgain, PartsAgain, SerializeLeaf, WriteCollection, WriteParts;
    assert Inner(Inner(pv)) == Inner(pv);
  }

  /** Where a decoded map finds the key that its own entry `i` shows. */
  function OwnPlace(t: CqlType, entries: seq<(Value, Value)>, pv: int, i: nat): Option<nat>
    requires t.MapOf? && ToBinaryPairs(t, entries, Inner(pv)).Some? && i < |entries|
  {
    Place(Wires(t, entries, pv), SerializeAgain(t.key, Shown(t.key, entries[i].0, Inner(pv)), pv))
  }

  /** The key a decoded map shows leads back to its own bytes exactly when the keys are comparable
      and the encoded key was stable and not one that comes back as null. */
  lemma {:induction false} DecodedKeyFlattens(t: CqlType, entries: seq<(Value, Value)>, pv: int, i: nat)
    requires t.MapOf? && Serialize(t, MapV(entries), pv).Some? && i < |entries|
    ensures SerializeAgain(t.key, Shown(t.key, entries[i].0, Inner(pv)), pv) == Some(Wires(t, entries, pv)[i]) <==>
            KeysComparable(t, pv) && Stable(t.key, entries[i].0, Inner(pv)) && !ComesBackAsNull(t.key, entries[i].0)
    decreases t, 0, 0
  {
    hide ToBinaryPairs, SerializeAgain, Shown, Serialize, Stable, WriteCollection;
    var key := entries[i].0;
    var shown := Shown(t.key, key, Inner(pv));
    SerializedMap(t, entries, pv);
    PairChunk(t, entries, Inner(pv), i);
    if KeysComparable(t, pv) {
      EncodesTheSame(t.key, key, Inner(pv));
      SameAgainInEveryVersion(t.key, shown, pv);
      NullRaisesAgain(t.key, pv);
      ShownNull(t.key, key, Inner(pv));
    } else if SerializeAgain(t.key, shown, pv).Some? {
      AgainIsCounted(t.key, shown, pv);
      OldKeyDiffers(t, entries, pv, SerializeAgain(t.key, shown, pv).value, i);
    }
  }

  lemma SerializedMap(t: CqlType, entries: seq<(Value, Value)>, pv: int)
    requires t.MapOf? && Serialize(t, MapV(entries), pv).Some?
    ensures ToBinaryPairs(t, entries, Inner(pv)).Some?
    ensures Serialize(t, MapV(entries), pv) ==
            WriteCollection(|entries|, ToBinaryPairs(t, entries, Inner(pv)).value, pv)
  {
  }

  lemma NullRaisesAgain(t: CqlType, pv: int)
    ensures SerializeAgain(t, NullD, pv) == None
  {
  }

  /** In versions 1 and 2 a map whose keys are lists, sets or maps does not find the keys it shows. */
  lemma OldShownKeysMiss(t: CqlType, entries: seq<(Value, Value)>, pv: int, i: nat)
    requires t.MapOf? && Serialize(t, MapV(entries), pv).Some? && i < |entries| && !KeysComparable(t, pv)
    ensures ToBinaryPairs(t, entries, Inner(pv)).Some? && OwnPlace(t, entries, pv, i) == None
  {
    hide ToBinaryPairs, SerializeAgain, Shown, Serialize, WriteCollection;
    SerializedMap(t, entries, pv);
    var wires, flat := Wires(t, entries, pv), SerializeAgain(t.key, Shown(t.key, entries[i].0, Inner(pv)), pv);
    if flat.Some? {
      AgainIsCounted(t.key, Shown(t.key, entries[i].0, Inner(pv)), pv);
      forall k | 0 <= k < |wires|
        ensures wires[k] != flat.value
      {
        OldKeyDiffers(t, entries, pv, flat.value, k);
      }
    }
  }

  /** One entry of a decoded map comes out again with its own chunks exactly when the key leads back
      to its bytes and the value found under it has the bytes of the entry's own. */
  predicate EntryOk(t: CqlType, entries: seq<(Value, Value)>, pv: int, i: nat)
    requires t.MapOf? && ToBinaryPairs(t, entries, Inner(pv)).Some? && i < |entries|
  {
    var wires := Wires(t, entries, pv);
    var j := LastPlace(wires, wires[i]);
    && KeysComparable(t, pv) && Stable(t.key, entries[i].0, Inner(pv)) && !ComesBackAsNull(t.key, entries[i].0)
    && ToBinaryAgain(t.value, Shown(t.value, entries[j].1, Inner(pv)), Inner(pv)) ==
       ToBinary(t.value, entries[i].1, Inner(pv))
  }

  lemma {:induction false} EntryEncodes(t: CqlType, entries: seq<(Value, Value)>, pv: int, i: nat)
    requires t.MapOf? && Serialize(t, MapV(entries), pv).Some? && i < |entries|
    ensures ToBinaryPairs(t, entries, Inner(pv)).Some?
    ensures var cs := ToBinaryPairs(t, entries, Inner(pv)).value;
            var d := MapD(t.key, pv, ShownPairs(t, entries, Inner(pv)));
            EntryAgain(t, d, i, Inner(pv)) == Some((cs[2 * i], cs[2 * i + 1])) <==> EntryOk(t, entries, pv, i)
    decreases t, 0, 1
  {
    hide ToBinaryPairs, ShownPairs, SerializeAgain, Shown, Serialize, Stable, WriteCollection, KeysComparable;
    SerializedMap(t, entries, pv);
    var wires := Wires(t, entries, pv);
    ShownWires(t, entries, pv);
    ShownPairAt(t, entries, Inner(pv), i);
    PairChunk(t, entries, Inner(pv), i);
    EncodesTheSame(t.key, entries[i].0, Inner(pv));
    DecodedKeyFlattens(t, entries, pv, i);
    ShownPairAt(t, entries, Inner(pv), LastPlace(wires, wires[i]));
    if !KeysComparable(t, pv) { OldShownKeysMiss(t, entries, pv, i); }
    if Shown(t.key, entries[i].0, Inner(pv)) == NullD { NullRaisesAgain(t.key, pv); }
    ShownNull(t.key, entries[i].0, Inner(pv));
  }

  lemma {:induction false} MapEncodesTheSame(t: CqlType, entries: seq<(Value, Value)>, pv: int)
    requires t.MapOf? && Serialize(t, MapV(entries), pv).Some?
    ensures ToBinaryPairs(t, entries, Inner(pv)).Some?
    ensures var d := MapD(t.key, pv, ShownPairs(t, entries, Inner(pv)));
            PairsAgain(t, d, 0, Inner(pv)) == ToBinaryPairs(t, entries, Inner(pv)) <==> Stable(t, MapV(entries), pv)
    decreases t, 0, 3
  {
    hide ToBinaryPairs, PairsAgain, EntryAgain, ShownPairs, EntryOk, Serialize, StablePairs, Agree;
    SerializedMap(t, entries, pv);
    var cs := ToBinaryPairs(t, entries, Inner(pv)).value;
    var d := MapD(t.key, pv, ShownPairs(t, entries, Inner(pv)));
    PairsEqual(t, d, 0, Inner(pv), cs);
    assert cs[0..] == cs;
    forall i | 0 <= i < |entries|
      ensures EntryAgain(t, d, i, Inner(pv)) == Some((cs[2 * i], cs[2 * i + 1])) <==> EntryOk(t, entries, pv, i)
    {
      EntryEncodes(t, entries, pv, i);
    }
    if entries != [] { EntriesOk(t, entries, pv); }
  }

  ghost predicate AllOk(t: CqlType, entries: seq<(Value, Value)>, pv: int)
    requires t.MapOf? && ToBinaryPairs(t, entries, Inner(pv)).Some?
  {
    forall i :: 0 <= i < |entries| ==> EntryOk(t, entries, pv, i)
  }

  lemma {:induction false} EntriesOk(t: CqlType, entries: seq<(Value, Value)>, pv: int)
    requires t.MapOf? && ToBinaryPairs(t, entries, Inner(pv)).Some? && entries != []
    ensures AllOk(t, entries, pv) <==>
            KeysComparable(t, pv) && StablePairs(t, entries, Inner(pv)) && Agree(t, entries, Inner(pv))
    decreases t, 0, 2
  {
    hide ToBinaryPairs, Stable, KeysComparable, ToBinaryAgain, Shown, ToBinary;
    if AllOk(t, entries, pv) {
      assert EntryOk(t, entries, pv, 0);
      forall i | 0 <= i < |entries|
        ensures Stable(t.key, entries[i].0, Inner(pv)) && !ComesBackAsNull(t.key, entries[i].0)
        ensures Stable(t.value, entries[i].1, Inner(pv)) && ValueOfLast(t, entries, pv, i)
      {
        assert EntryOk(t, entries, pv, i);
        OkValue(t, entries, pv, i);
      }
      LastsAgree(t, entries, pv);
    }
    if KeysComparable(t, pv) && StablePairs(t, entries, Inner(pv)) && Agree(t, entries, Inner(pv)) {
      forall i | 0 <= i < |entries|
        ensures EntryOk(t, entries, pv, i)
      {
        StableEntryOk(t, entries, pv, i);
      }
    }
  }

  /** The value found under a key has the bytes of the entry's own. */
  predicate ValueOfLast(t: CqlType, entries: seq<(Value, Value)>, pv: int, i: nat)
    requires t.MapOf? && ToBinaryPairs(t, entries, Inner(pv)).Some? && i < |entries|
  {
    var wires := Wires(t, entries, pv);
    ToBinary(t.value, entries[LastPlace(wires, wires[i])].1, Inner(pv)) == ToBinary(t.value, entries[i].1, Inner(pv))
  }

  lemma {:induction false} OkValue(t: CqlType, entries: seq<(Value, Value)>, pv: int, i: nat)
    requires t.MapOf? && ToBinaryPairs(t, entries, Inner(pv)).Some? && i < |entries| && AllOk(t, entries, pv)
    ensures Stable(t.value, entries[i].1, Inner(pv)) && ValueOfLast(t, entries, pv, i)
    decreases t, 0, 1
  {
    hide ToBinaryPairs, Stable, KeysComparable, ToBinaryAgain, Shown, ToBinary, DecodeBinary;
    var wires := Wires(t, entries, pv);
    var j := LastPlace(wires, wires[i]);
    assert EntryOk(t, entries, pv, i) && EntryOk(t, entries, pv, j);
    PairChunk(t, entries, Inner(pv), i);
    PairChunk(t, entries, Inner(pv), j);
    EncodesTheSame(t.value, entries[i].1, Inner(pv));
    EncodesTheSame(t.value, entries[j].1, Inner(pv));
  }

  lemma {:induction false} StableEntryOk(t: CqlType, entries: seq<(Value, Value)>, pv: int, i: nat)
    requires t.MapOf? && ToBinaryPairs(t, entries, Inner(pv)).Some? && i < |entries|
    requires KeysComparable(t, pv) && StablePairs(t, entries, Inner(pv)) && Agree(t, entries, Inner(pv))
    ensures EntryOk(t, entries, pv, i)
    decreases t, 0, 1
  {
    hide ToBinaryPairs, Stable, KeysComparable, ToBinaryAgain, Shown, ToBinary, DecodeBinary;
    var wires := Wires(t, entries, pv);
    var j := LastPlace(wires, wires[i]);
    PairChunk(t, entries, Inner(pv), i);
    PairChunk(t, entries, Inner(pv), j);
    EncodesTheSame(t.value, entries[j].1, Inner(pv));
    assert Wire(t.key, entries[i].0, Inner(pv)) == Wire(t.key, entries[j].0, Inner(pv));
  }

  lemma LastsAgree(t: CqlType, entries: seq<(Value, Value)>, pv: int)
    requires t.MapOf? && ToBinaryPairs(t, entries, Inner(pv)).Some?
    requires forall i :: 0 <= i < |entries| ==> ValueOfLast(t, entries, pv, i)
    ensures Agree(t, entries, Inner(pv))
  {
    hide ToBinaryPairs, ToBinary;
    forall i, j | 0 <= i < j < |entries| &&
                  Wire(t.key, entries[i].0, Inner(pv)) == Wire(t.key, entries[j].0, Inner(pv))
      ensures Wire(t.value, entries[i].1, Inner(pv)) == Wire(t.value, entries[j].1, Inner(pv))
    {
      PairChunk(t, entries, Inner(pv), i);
      PairChunk(t, entries, Inner(pv), j);
      assert ValueOfLast(t, entries, pv, i) && ValueOfLast(t, entries, pv, j);
    }
  }

  // ------------------------------------------------------ collections as keys in old versions

  lemma {:induction false} ChunkFits(cs: seq<ByteString>, pv: int, i: nat)
    requires pv < 3 && WriteChunks(cs, pv).Some? && i < |cs|
    ensures |cs[i]| < 0x1_0000
    decreases |cs|
  {
    if i > 0 { ChunkFits(cs[1..], pv, i - 1); }
  }

  lemma {:induction false} ChunksTakeRoom(cs: seq<ByteString>, pv: int)
    requires pv >= 3 && WriteChunks(cs, pv).Some?
    ensures |WriteChunks(cs, pv).value| >= 4 * |cs|
    decreases |cs|
  {
    if cs != [] {
      LengthReadsBack(|cs[0]|, pv);
      ChunksTakeRoom(cs[1..], pv);
    }
  }

  /** A count below 65536 starts with two zero bytes in four, and only zero does in two. */
  lemma CountsLookDifferent(n: nat, m: nat)
    requires n < 0x1_0000 && m < 0x1_0000
    ensures FitsSigned(m, 4) && PackSigned(m, 4)[..2] == [0, 0]
    ensures n != 0 ==> Digits(n, 2) != [0, 0]
  {
    LengthFits(m);
    assert PackSigned(m, 4) == Digits(m, 4);
    FirstTwo(m);
    if n != 0 { FirstOfTwo(n); }
  }

  lemma FirstTwo(m: nat)
    requires m < 0x1_0000
    ensures Digits(m, 4)[..2] == [0, 0]
  {
    assert Digits(m, 4)[..3] == Digits(m / 256, 3);
    assert Digits(m / 256, 3)[..2] == Digits(m / 256 / 256, 2);
    assert m / 256 / 256 == 0;
    assert Digits(0, 2) == Digits(0, 1) + [0] && Digits(0, 1) == Digits(0, 0) + [0] && Digits(0, 0) == [];
    assert Digits(m, 4)[..2] == Digits(m, 4)[..3][..2];
  }

  lemma FirstOfTwo(n: nat)
    requires 0 < n < 0x1_0000
    ensures Digits(n, 2) != [0, 0]
  {
    assert Digits(n, 2)[1] == n % 256;
    assert Digits(n, 2)[0] == Digits(n / 256, 1)[0] == n / 256 % 256;
  }

  lemma OldHead(n: nat, cs: seq<ByteString>, pv: int)
    requires pv < 3 && WriteCollection(n, cs, pv).Some?
    ensures var b := WriteCollection(n, cs, pv).value;
            n < 0x1_0000 && |b| >= 2 && b[..2] == Digits(n, 2) && (cs == [] ==> |b| == 2)
  {
    hide WriteChunks, Digits;
    if cs == [] { assert WriteChunks(cs, pv) == Some([]) by { NoChunks(pv); } }
  }

  lemma NoChunks(pv: int)
    ensures WriteChunks([], pv) == Some([])
  {
  }

  lemma NewHead(m: nat, cs: seq<ByteString>, pv: int)
    requires pv >= 3 && WriteCollection(m, cs, pv).Some?
    ensures var b := WriteCollection(m, cs, pv).value;
            |b| >= 4 + 4 * |cs| && (m < 0x1_0000 ==> b[..2] == [0, 0])
  {
    hide WriteChunks, Digits, PackSigned;
    LengthReadsBack(m, pv);
    ChunksTakeRoom(cs, pv);
    if m < 0x1_0000 {
      CountsLookDifferent(0, m);
      var b := WriteCollection(m, cs, pv).value;
      assert b[..2] == PackSigned(m, 4)[..2];
    }
  }

  /** No collection written for version 1 or 2 has the bytes of one written for version 3 that is
      short enough to be a key there. */
  lemma OldIsNotNew(n: nat, cs: seq<ByteString>, pv: int, m: nat, cs': seq<ByteString>, per: nat, pv': int)
    requires pv < 3 <= pv' && 1 <= per <= 2 && |cs| == n * per && |cs'| == m * per
    requires WriteCollection(n, cs, pv).Some? && WriteCollection(m, cs', pv').Some?
    requires |WriteCollection(m, cs', pv').value| < 0x1_0000
    ensures WriteCollection(n, cs, pv) != WriteCollection(m, cs', pv')
  {
    hide WriteCollection, Digits, PackSigned;
    OldHead(n, cs, pv);
    NewHead(m, cs', pv');
    assert m <= |cs'| by { assert per == 1 || per == 2; }
    CountsLookDifferent(n, m);
    if n == 0 { assert |cs| == 0; }
  }

  /** A collection's bytes are a count and its chunks. */
  ghost predicate Counted(t: CqlType, b: ByteString, pv: int) {
    exists n: nat, cs: seq<ByteString> ::
      |cs| == n * (if t.MapOf? then 2 else 1) && WriteCollection(n, cs, pv) == Some(b)
  }

  lemma AgainIsCounted(t: CqlType, d: Decoded, pv: int)
    requires IsCollection(t) && SerializeAgain(t, d, pv).Some?
    ensures Counted(t, SerializeAgain(t, d, pv).value, pv)
  {
    hide AllAgain, LeavesToBinary, PairsAgain, WriteCollection, Inner;
    match (t, d)
    case (ListOf(element), ListD(items)) =>
      var cs := AllAgain(element, items, Inner(pv)).value;
      assert |cs| == |items| * 1 && WriteCollection(|items|, cs, pv) == SerializeAgain(t, d, pv);
    case (SetOf(member), SetD(members)) =>
      var cs := LeavesToBinary(member, members).value;
      assert |cs| == |members| * 1 && WriteCollection(|members|, cs, pv) == SerializeAgain(t, d, pv);
    case (MapOf(_, _), MapD(_, _, entries)) =>
      var cs := PairsAgain(t, d, 0, Inner(pv)).value;
      assert |cs| == |entries| * 2 && WriteCollection(|entries|, cs, pv) == SerializeAgain(t, d, pv);
    case _ =>
  }

  lemma CollectionIsCounted(t: CqlType, v: Value, pv: int)
    requires IsCollection(t) && Serialize(t, v, pv).Some?
    ensures Counted(t, Serialize(t, v, pv).value, pv)
  {
    hide ToBinaryAll, LeavesToBinary, ToBinaryPairs, WriteCollection, Inner;
    match (t, v)
    case (ListOf(element), ListV(items)) =>
      var cs := ToBinaryAll(element, items, Inner(pv)).value;
      assert |cs| == |items| * 1 && WriteCollection(|items|, cs, pv) == Serialize(t, v, pv);
    case (SetOf(member), SetV(members)) =>
      var cs := LeavesToBinary(member, members).value;
      assert |cs| == |members| * 1 && WriteCollection(|members|, cs, pv) == Serialize(t, v, pv);
    case (MapOf(_, _), MapV(entries)) =>
      var cs := ToBinaryPairs(t, entries, Inner(pv)).value;
      assert |cs| == |entries| * 2 && WriteCollection(|entries|, cs, pv) == Serialize(t, v, pv);
    case _ =>
  }

  lemma OldKeyDiffers(t: CqlType, entries: seq<(Value, Value)>, pv: int, flat: ByteString, i: nat)
    requires t.MapOf? && !KeysComparable(t, pv) && Serialize(t, MapV(entries), pv).Some?
    requires Counted(t.key, flat, pv) && i < |entries|
    ensures Wires(t, entries, pv)[i] != flat
  {
    hide ToBinaryPairs, WriteCollection, ToBinaryAll, LeavesToBinary;
    var cs := ToBinaryPairs(t, entries, Inner(pv)).value;
    PairChunk(t, entries, Inner(pv), i);
    KeyChunkFits(|entries|, cs, pv, 2 * i);
    if entries[i].0 == Null {
      NotEmpty(t.key, flat, pv);
    } else {
      CollectionIsCounted(t.key, entries[i].0, Inner(pv));
      CountedApart(t.key, flat, pv, cs[2 * i], Inner(pv));
    }
  }

  lemma KeyChunkFits(n: nat, cs: seq<ByteString>, pv: int, i: nat)
    requires pv < 3 && WriteCollection(n, cs, pv).Some? && i < |cs|
    ensures |cs[i]| < 0x1_0000
  {
    ChunkFits(cs, pv, i);
  }

  lemma NotEmpty(t: CqlType, b: ByteString, pv: int)
    requires Counted(t, b, pv)
    ensures b != []
  {
    hide WriteCollection;
    var n: nat, cs: seq<ByteString> :| |cs| == n * (if t.MapOf? then 2 else 1) && WriteCollection(n, cs, pv) == Some(b);
    CollectionReadsBack(n, if t.MapOf? then 2 else 1, cs, pv);
  }

  lemma CountedApart(t: CqlType, b: ByteString, pv: int, b': ByteString, pv': int)
    requires pv < 3 <= pv' && Counted(t, b, pv) && Counted(t, b', pv') && |b'| < 0x1_0000
    ensures b != b'
  {
    hide WriteCollection;
    var per := if t.MapOf? then 2 else 1;
    var n: nat, cs: seq<ByteString> :| |cs| == n * per && WriteCollection(n, cs, pv) == Some(b);
    var m: nat, cs': seq<ByteString> :| |cs'| == m * per && WriteCollection(m, cs', pv') == Some(b');
    OldIsNotNew(n, cs, pv, m, cs', per, pv');
  }

  // --------------------------------------------------------------------------- the map object

  datatype Lookup<V> = Found(value: V) | Missing | Raises

  /** A key that a caller made, or one that was decoded. */
  datatype Key = Given(v: Value) | Handed(d: Decoded)

  /** `_serialize_key`; nothing is an exception. */
  function Flat(keyType: CqlType, key: Key, pv: int): Option<ByteString> {
    match key
    case Given(v) => Serialize(keyType, v, pv)
    case Handed(d) => SerializeAgain(keyType, d, pv)
  }

  /** `themap[key]`, for items whose keys had the given bytes. */
  function Find<V>(wires: seq<ByteString>, items: seq<(V, V)>, flat: Option<ByteString>): Lookup<V>
    requires |wires| == |items|
  {
    if flat.None? then Raises
    else match Place(wires, flat) case None => Missing case Some(k) => Lookup.Found(items[k].1)
  }

  class OrderedMapSerializedKey<V(!new)> {
    const keyType: CqlType
    const protocolVersion: int
    var items: seq<(V, V)>
    var index: map<ByteString, nat>

    ghost var wires: seq<ByteString>

    ghost predicate Valid()
      reads this
    {
      && |wires| == |items|
      && (forall flat :: flat in index <==> flat in wires)
      && (forall flat <- index :: flat in wires && index[flat] == LastPlace(wires, flat))
    }

    constructor (keyType: CqlType, protocolVersion: int)
      ensures Valid() && this.keyType == keyType && this.protocolVersion == protocolVersion && items == []
              && wires == []
    {
      this.keyType, this.protocolVersion := keyType, protocolVersion;
      items, index, wires := [], map[], [];
    }

    method InsertUnchecked(key: V, flatKey: ByteString, value: V)
      requires Valid()
      modifies this
      ensures Valid() && items == old(items) + [(key, value)] && wires == old(wires) + [flatKey]
    {
      items := items + [(key, value)];
      wires := wires + [flatKey];
      index := index[flatKey := |items| - 1];
      assert wires[..|wires| - 1] == old(wires);
    }

    method GetItem(key: Key) returns (r: Lookup<V>)
      requires Valid()
      ensures r == Find(wires, items, Flat(keyType, key, protocolVersion))
    {
      var flat := Flat(keyType, key, protocolVersion);
      if flat.None? {
        r := Raises;
      } else if flat.value in index {
        r := Lookup.Found(items[index[flat.value]].1);
      } else {
        r := Missing;
      }
    }
  }

  // ------------------------------------------------------------- looking up in a decoded map

  /** The items of the object that a map value is decoded to. */
  function ItemsOf(entries: seq<Entry>): (items: seq<(Decoded, Decoded)>)
    ensures |items| == |entries|
    ensures forall i :: 0 <= i < |entries| ==> items[i] == (entries[i].key, entries[i].value)
  {
    seq(|entries|, i requires 0 <= i < |entries| => (entries[i].key, entries[i].value))
  }

  /** `themap[key]` for the object that a map value is decoded to. */
  function GetFrom(d: Decoded, key: Key): Lookup<Decoded>
    requires d.MapD?
  {
    Find(WiresOf(d.entries), ItemsOf(d.entries), Flat(d.keyType, key, d.protocolVersion))
  }

  /** The key that was encoded finds its own value: unless a later entry has the same bytes, in
      which case it finds that entry's. */
  lemma EncodedKeyFinds(t: CqlType, entries: seq<(Value, Value)>, pv: int, i: nat)
    requires t.MapOf? && KeysComparable(t, pv) && ToBinaryPairs(t, entries, Inner(pv)).Some?
    requires i < |entries| && entries[i].0 != Null
    ensures var wires := Wires(t, entries, pv);
            && GetFrom(Shown(t, MapV(entries), pv), Given(entries[i].0)) ==
               Lookup.Found(Shown(t.value, entries[LastPlace(wires, wires[i])].1, Inner(pv)))
            && ((forall j :: i < j < |entries| ==> wires[j] != wires[i]) <==> LastPlace(wires, wires[i]) == i)
  {
    ShownMap(t, entries, pv);
    hide ToBinaryPairs, ShownPairs, Shown, Serialize;
    PairChunk(t, entries, Inner(pv), i);
    SameInEveryVersion(t.key, entries[i].0, pv);
    ShownWires(t, entries, pv);
    var wires := Wires(t, entries, pv);
    assert Serialize(t.key, entries[i].0, pv) == Some(wires[i]);
    ShownPairAt(t, entries, Inner(pv), LastPlace(wires, wires[i]));
  }

  lemma ShownMap(t: CqlType, entries: seq<(Value, Value)>, pv: int)
    requires t.MapOf?
    ensures Shown(t, MapV(entries), pv) == MapD(t.key, pv, ShownPairs(t, entries, Inner(pv)))
  {
  }

  lemma {:induction false} SeenPairAt(t: CqlType, entries: seq<(Value, Value)>, i: nat)
    requires t.MapOf? && i < |entries|
    ensures SeenPairs(t, entries)[i] == (Seen(t.key, entries[i].0), Seen(t.value, entries[i].1))
    decreases |entries|
  {
    hide Seen;
    if i > 0 { SeenPairAt(t, entries[1..], i - 1); }
  }

  /** Clean keys, no two alike, lead to their own places. */
  lemma OwnKeyPlace(t: CqlType, entries: seq<(Value, Value)>, pv: int, i: nat)
    requires t.MapOf? && KeysComparable(t, pv) && ToBinaryPairs(t, entries, Inner(pv)).Some?
    requires i < |entries| && entries[i].0 != Null
    requires forall j :: 0 <= j < |entries| ==> Clean(t.key, entries[j].0)
    requires forall j, k :: 0 <= j < k < |entries| ==> entries[j].0 != entries[k].0
    ensures Place(Wires(t, entries, pv), Flat(t.key, Given(entries[i].0), pv)) == Some(i)
    ensures Flat(t.key, Given(entries[i].0), pv).Some?
  {
    hide ToBinaryPairs, Serialize, Clean;
    OwnKeyLast(t, entries, pv, i);
    PairChunk(t, entries, Inner(pv), i);
    SameInEveryVersion(t.key, entries[i].0, pv);
  }

  /** With clean keys, no two alike, every entry of the decoded map has its original key and is found
      under it; and it is found under the key the map itself shows exactly when that key is
      stable. */
  lemma CleanKeysFindTheirOwn(t: CqlType, entries: seq<(Value, Value)>, pv: int, i: nat)
    requires t.MapOf? && KeysComparable(t, pv) && Serialize(t, MapV(entries), pv).Some? && i < |entries|
    requires forall j :: 0 <= j < |entries| ==> entries[j].0 != Null && Clean(t.key, entries[j].0)
    requires forall j, k :: 0 <= j < k < |entries| ==> entries[j].0 != entries[k].0
    ensures ToBinaryPairs(t, entries, Inner(pv)).Some?
    ensures var d := Shown(t, MapV(entries), pv);
            && View(d.entries[i].key) == entries[i].0
            && GetFrom(d, Given(entries[i].0)) == Lookup.Found(Shown(t.value, entries[i].1, Inner(pv)))
            && (OwnPlace(t, entries, pv, i) == Some(i) <==> Stable(t.key, entries[i].0, Inner(pv)))
  {
    ShownMap(t, entries, pv);
    hide ToBinaryPairs, ShownPairs, Shown, Serialize, Clean, ToBinary, SerializeAgain, Stable, WriteCollection;
    SerializedMap(t, entries, pv);
    OwnKeyLast(t, entries, pv, i);
    EncodedKeyFinds(t, entries, pv, i);
    ShownPairAt(t, entries, Inner(pv), i);
    CleanKeyShown(t, entries, pv, i);
    DecodedKeyFlattens(t, entries, pv, i);
    CleanNotNull(t.key, entries[i].0);
  }

  lemma CleanNotNull(t: CqlType, key: Value)
    requires key != Null && Clean(t, key) && Typed(t, key)
    ensures !ComesBackAsNull(t, key)
  {
  }

  lemma OwnKeyLast(t: CqlType, entries: seq<(Value, Value)>, pv: int, i: nat)
    requires t.MapOf? && ToBinaryPairs(t, entries, Inner(pv)).Some? && i < |entries|
    requires forall j :: 0 <= j < |entries| ==> Clean(t.key, entries[j].0)
    requires forall j, k :: 0 <= j < k < |entries| ==> entries[j].0 != entries[k].0
    ensures var wires := Wires(t, entries, pv); forall j :: i < j < |entries| ==> wires[j] != wires[i]
  {
    hide ToBinaryPairs, Clean, ToBinary;
    var wires := Wires(t, entries, pv);
    PairChunk(t, entries, Inner(pv), i);
    forall j | i < j < |entries|
      ensures wires[j] != wires[i]
    {
      PairChunk(t, entries, Inner(pv), j);
      if wires[j] == wires[i] {
        CleanInjective(t.key, entries[i].0, entries[j].0, Inner(pv));
      }
    }
  }

  lemma CleanKeyShown(t: CqlType, entries: seq<(Value, Value)>, pv: int, i: nat)
    requires t.MapOf? && ToBinaryPairs(t, entries, Inner(pv)).Some? && i < |entries| && Clean(t.key, entries[i].0)
    ensures View(Shown(t.key, entries[i].0, Inner(pv))) == entries[i].0 && Typed(t.key, entries[i].0)
  {
    hide ToBinaryPairs, Clean, ToBinary, Shown, View, FromBinary, DecodeBinary;
    PairChunk(t, entries, Inner(pv), i);
    var key := entries[i].0;
    ExactRoundTrip(t.key, key, Inner(pv));
    DecodesAsShown(t.key, key, Inner(pv));
    ViewOfDecoded(t.key, ToBinary(t.key, key, Inner(pv)), Inner(pv));
    SerializableIsTyped(t.key, key, Inner(pv));
  }

  /** In versions 1 and 2 a map whose keys are lists, sets or maps finds nothing, whatever key it
      is asked for. */
  lemma OldCollectionKeysMiss(t: CqlType, entries: seq<(Value, Value)>, pv: int, key: Key)
    requires t.MapOf? && !KeysComparable(t, pv) && Serialize(t, MapV(entries), pv).Some?
    ensures !GetFrom(Shown(t, MapV(entries), pv), key).Found?
  {
    ShownMap(t, entries, pv);
    hide ToBinaryPairs, ShownPairs, Shown, SerializeAgain, Serialize;
    SerializedMap(t, entries, pv);
    ShownWires(t, entries, pv);
    var wires, flat := Wires(t, entries, pv), Flat(t.key, key, pv);
    if flat.Some? {
      match key {
        case Given(v) => CollectionIsCounted(t.key, v, pv);
        case Handed(d) => AgainIsCounted(t.key, d, pv);
      }
      forall i | 0 <= i < |wires|
        ensures wires[i] != flat.value
      {
        OldKeyDiffers(t, entries, pv, flat.value, i);
      }
    }
  }

  /** Under a key that was encoded some entry is found if and only if the keys are comparable. */
  lemma KeysFoundExactlyWhen(t: CqlType, entries: seq<(Value, Value)>, pv: int, i: nat)
    requires t.MapOf? && Serialize(t, MapV(entries), pv).Some? && i < |entries| && entries[i].0 != Null
    ensures Shown(t, MapV(entries), pv).MapD?
    ensures GetFrom(Shown(t, MapV(entries), pv), Given(entries[i].0)).Found? <==> KeysComparable(t, pv)
  {
    ShownMap(t, entries, pv);
    hide ToBinaryPairs, ShownPairs, Find, Shown, Serialize;
    SerializedMap(t, entries, pv);
    if KeysComparable(t, pv) {
      EncodedKeyFinds(t, entries, pv, i);
    } else {
      OldCollectionKeysMiss(t, entries, pv, Given(entries[i].0));
    }
  }

  // --------------------------------------------------------- maps that do not encode the same

  lemma {:induction false} LostEntry(t: CqlType, d: Decoded, i: nat, k: nat, pv: int)
    requires t.MapOf? && d.MapD? && i <= k < |d.entries| && EntryAgain(t, d, k, pv) == None
    ensures PairsAgain(t, d, i, pv) == None
    decreases k - i
  {
    hide EntryAgain;
    if i < k { LostEntry(t, d, i + 1, k, pv); }
  }

  /** A decoded map cannot be serialised again if one of its keys came back as null, or if it is not
      empty and its keys are not comparable: looking a key up raises. */
  lemma CannotSerializeAgain(t: CqlType, entries: seq<(Value, Value)>, pv: int, i: nat)
    requires t.MapOf? && Serialize(t, MapV(entries), pv).Some? && i < |entries|
    requires ComesBackAsNull(t.key, entries[i].0) || !KeysComparable(t, pv)
    ensures SerializeAgain(t, Shown(t, MapV(entries), pv), pv) == None
  {
    var d := MapD(t.key, pv, ShownPairs(t, entries, Inner(pv)));
    ShownMap(t, entries, pv);
    AgainRaises(t, d, pv);
    hide SerializeAgain, ToBinaryPairs, ShownPairs, Shown, Serialize, WriteCollection, PairsAgain;
    SerializedMap(t, entries, pv);
    ShownWires(t, entries, pv);
    ShownPairAt(t, entries, Inner(pv), i);
    if KeysComparable(t, pv) {
      PairChunk(t, entries, Inner(pv), i);
      ShownNull(t.key, entries[i].0, Inner(pv));
      NullRaisesAgain(t.key, pv);
    } else {
      OldShownKeysMiss(t, entries, pv, i);
    }
    LostEntry(t, d, 0, i, Inner(pv));
  }

  lemma AgainRaises(t: CqlType, d: Decoded, pv: int)
    requires t.MapOf? && d.MapD?
    ensures PairsAgain(t, d, 0, Inner(pv)) == None ==> SerializeAgain(t, d, pv) == None
  {
  }

  /** So a map that is itself a key, and has a null for a key, is no key that its map can find. */
  lemma NullKeyInKeyIsLost(t: CqlType, entries: seq<(Value, Value)>, pv: int, i: nat, k: nat)
    requires t.MapOf? && t.key.MapOf? && pv >= 3 && Serialize(t, MapV(entries), pv).Some? && i < |entries|
    requires entries[i].0.MapV? && k < |entries[i].0.entries|
    requires ComesBackAsNull(t.key.key, entries[i].0.entries[k].0)
    ensures Shown(t, MapV(entries), pv).MapD?
    ensures var d := Shown(t, MapV(entries), pv); GetFrom(d, Handed(d.entries[i].key)) == Raises
  {
    ShownMap(t, entries, pv);
    hide SerializeAgain, ToBinaryPairs, ShownPairs, Shown, Serialize, WriteCollection, PairsAgain;
    SerializedMap(t, entries, pv);
    PairChunk(t, entries, Inner(pv), i);
    ShownPairAt(t, entries, Inner(pv), i);
    CannotSerializeAgain(t.key, entries[i].0.entries, Inner(pv), k);
    SameAgainInEveryVersion(t.key, Shown(t.key, entries[i].0, Inner(pv)), pv);
  }

  const BLOBS := MapOf(Prim(Blob), Prim(Blob))

  function BlobEntry(key: Value, byte: Byte): (Value, Value) { (key, Leaf(BytesV([byte]))) }

  /** Null and the empty blob have the same bytes as keys: both values are written, and of the two
      the second comes out twice. */
  lemma NullAndEmptyKeys(pv: int)
    ensures var empty := Leaf(BytesV([]));
            var v := MapV([BlobEntry(Null, 1), BlobEntry(empty, 2)]);
            && ToBinary(BLOBS, v, pv).Some?
            && ToBinaryAgain(BLOBS, Shown(BLOBS, v, pv), pv) ==
               ToBinary(BLOBS, MapV([BlobEntry(Null, 2), BlobEntry(empty, 2)]), pv)
            && ToBinaryAgain(BLOBS, Shown(BLOBS, v, pv), pv) != ToBinary(BLOBS, v, pv)
  {
    hide WriteCollection, ToBinaryPairs, PairsAgain, ShownPairs, Shown, BlobEntry;
    var empty := Leaf(BytesV([]));
    var entries := [BlobEntry(Null, 1), BlobEntry(empty, 2)];
    BlobChunks(1, 2, Inner(pv));
    BlobChunks(2, 2, Inner(pv));
    BlobsAgain(pv);
    ShownMap(BLOBS, entries, pv);
    TwoCollections(pv);
  }

  lemma TwoCollections(pv: int)
    ensures WriteCollection(2, [[], [1], [], [2]], pv).Some? && WriteCollection(2, [[], [2], [], [2]], pv).Some?
    ensures WriteCollection(2, [[], [1], [], [2]], pv) != WriteCollection(2, [[], [2], [], [2]], pv)
  {
    hide WriteCollection;
    var cs: seq<ByteString>, cs': seq<ByteString> := [[], [1], [], [2]], [[], [2], [], [2]];
    FourChunks(cs, pv);
    FourChunks(cs', pv);
    assert cs[1][0] != cs'[1][0];
    CollectionInjective(2, cs, 2, cs', 2, pv);
  }

  lemma BlobChunks(a: Byte, b: Byte, pv: int)
    ensures ToBinaryPairs(BLOBS, [BlobEntry(Null, a), BlobEntry(Leaf(BytesV([])), b)], pv) == Some([[], [a], [], [b]])
  {
    var entries := [BlobEntry(Null, a), BlobEntry(Leaf(BytesV([])), b)];
    var rest := entries[1..];
    assert rest == [BlobEntry(Leaf(BytesV([])), b)] && rest[1..] == [];
    assert ToBinaryPairs(BLOBS, [], pv) == Some([]);
    assert ToBinaryPairs(BLOBS, rest, pv) == Some([[], [b]] + []);
    var cs: seq<ByteString> := [[], [b]] + [];
    assert ToBinaryPairs(BLOBS, entries, pv) == Some([[], [a]] + cs) && [[], [a]] + cs == [[], [a], [], [b]];
  }

  lemma BlobsAgain(pv: int)
    ensures var entries := [BlobEntry(Null, 1), BlobEntry(Leaf(BytesV([])), 2)];
            var d := MapD(Prim(Blob), pv, ShownPairs(BLOBS, entries, Inner(pv)));
            PairsAgain(BLOBS, d, 0, Inner(pv)) == Some([[], [2], [], [2]])
  {
    var empty := Leaf(BytesV([]));
    var entries := [BlobEntry(Null, 1), BlobEntry(empty, 2)];
    var d := MapD(Prim(Blob), pv, ShownPairs(BLOBS, entries, Inner(pv)));
    ShownPairAt(BLOBS, entries, Inner(pv), 0);
    ShownPairAt(BLOBS, entries, Inner(pv), 1);
    var wires := WiresOf(d.entries);
    assert wires == [[], []];
    assert EntryAgain(BLOBS, d, 0, Inner(pv)) == Some(([], [2]));
    assert EntryAgain(BLOBS, d, 1, Inner(pv)) == Some(([], [2]));
    assert PairsAgain(BLOBS, d, 2, Inner(pv)) == Some([]);
    assert PairsAgain(BLOBS, d, 1, Inner(pv)) == Some([[], [2]] + []);
    var cs: seq<ByteString> := [[], [2]] + [];
    assert PairsAgain(BLOBS, d, 0, Inner(pv)) == Some([[], [2]] + cs) && [[], [2]] + cs == [[], [2], [], [2]];
  }

  lemma FourChunks(cs: seq<ByteString>, pv: int)
    requires |cs| == 4 && forall i :: 0 <= i < 4 ==> |cs[i]| <= 1
    ensures WriteCollection(2, cs, pv).Some?
  {
    hide PackLength;
    SmallLengths(pv);
    ShortChunks(cs, pv);
  }

  lemma SmallLengths(pv: int)
    ensures PackLength(0, pv).Some? && PackLength(1, pv).Some? && PackLength(2, pv).Some?
  {
  }

  lemma {:induction false} ShortChunks(cs: seq<ByteString>, pv: int)
    requires forall i :: 0 <= i < |cs| ==> |cs[i]| <= 1
    ensures WriteChunks(cs, pv).Some?
  {
    hide PackLength;
    if cs != [] {
      SmallLengths(pv);
      ShortChunks(cs[1..], pv);
    }
  }

  /** A key that is a short tuple comes back padded, and the padded key is not found. */
  lemma ShortTupleKeyIsLost(pv: int)
    ensures var t, key := MapOf(TupleOf([Prim(Blob), Prim(Blob)]), Prim(Blob)), TupleV([Leaf(BytesV([]))]);
            var d := Shown(t, MapV([(key, Leaf(BytesV([])))]), pv);
            && d.MapD? && |d.entries| == 1 && d.entries[0].key == TupleD([LeafD(BytesV([])), NullD])
            && GetFrom(d, Handed(d.entries[0].key)) == Missing
  {
    var t, key := MapOf(TupleOf([Prim(Blob), Prim(Blob)]), Prim(Blob)), TupleV([Leaf(BytesV([]))]);
    var entries := [(key, Leaf(BytesV([])))];
    ShownMap(t, entries, pv);
    ShownPairAt(t, entries, Inner(pv), 0);
    ShortTuplePadded(pv);
    hide Shown, ShownPairs, SerializeAgain, Wire;
    var d := Shown(t, MapV(entries), pv);
    assert WiresOf(d.entries) == [Wire(t.key, key, Inner(pv))];
  }

  /** Padded, the tuple has other bytes. */
  lemma ShortTuplePadded(pv: int)
    ensures var t, key := TupleOf([Prim(Blob), Prim(Blob)]), TupleV([Leaf(BytesV([]))]);
            var padded := TupleD([LeafD(BytesV([])), NullD]);
            && Shown(t, key, Inner(pv)) == padded
            && SerializeAgain(t, padded, pv).Some? && SerializeAgain(t, padded, pv).value != Wire(t, key, Inner(pv))
  {
    var t, key := TupleOf([Prim(Blob), Prim(Blob)]), TupleV([Leaf(BytesV([]))]);
    var padded := TupleD([LeafD(BytesV([])), NullD]);
    assert Shown(t, key, Inner(pv)) == padded by {
      assert [Prim(Blob), Prim(Blob)][1..] == [Prim(Blob)];
      assert ShownParts([Prim(Blob)], [], Inner(Inner(pv))) == [NullD];
    }
    assert !Stable(t, key, Inner(pv));
    hide Shown, Serialize, SerializeAgain, Stable;
    BlobPairEncodes(key.parts, pv);
    BlobPairAgain(pv);
    EncodesTheSame(t, key, Inner(pv));
    SameAgainInEveryVersion(t, padded, pv);
  }

  lemma BlobPairAgain(pv: int)
    ensures SerializeAgain(TupleOf([Prim(Blob), Prim(Blob)]), TupleD([LeafD(BytesV([])), NullD]), pv).Some?
  {
    BlobPartsAgain(Inner(pv));
    hide PartsAgain, WriteParts;
    TwoPartsWritten();
  }

  lemma BlobPartsAgain(pv: int)
    ensures PartsAgain([Prim(Blob), Prim(Blob)], [LeafD(BytesV([])), NullD], pv) == Some([Some([]), None])
  {
    var types, parts := [Prim(Blob), Prim(Blob)], [LeafD(BytesV([])), NullD];
    assert types[1..] == [Prim(Blob)] && parts[1..] == [NullD] && [NullD][1..] == [];
    assert PartsAgain([Prim(Blob)], [NullD], pv) == Some([None] + []);
    assert PartsAgain(types, parts, pv) == Some([Some([])] + ([None] + []));
    var cs: seq<Option<ByteString>> := [Some([])] + ([None] + []);
    assert cs == [Some([]), None];
  }

  lemma TwoPartsWritten()
    ensures WriteParts([Some([]), None]).Some?
  {
    ShortPartsEncode();
    hide PackPartLength;
    var cs: seq<Option<ByteString>> := [Some([]), None];
    assert cs[1..][1..] == [] && WriteParts(cs[1..][1..]).Some?;
    assert WriteParts(cs[1..]).Some?;
  }

  lemma BlobPairEncodes(parts: seq<Value>, pv: int)
    requires |parts| <= 2 && forall i :: 0 <= i < |parts| ==> parts[i] == Null || parts[i] == Leaf(BytesV([]))
    ensures Serialize(TupleOf([Prim(Blob), Prim(Blob)]), TupleV(parts), pv).Some?
    ensures Serialize(TupleOf([Prim(Blob), Prim(Blob)]), TupleV(parts), Inner(pv)).Some?
  {
    hide ToBinaryParts, WriteParts;
    BlankParts([Prim(Blob), Prim(Blob)], parts, Inner(pv));
    BlankParts([Prim(Blob), Prim(Blob)], parts, Inner(Inner(pv)));
  }

  lemma {:induction false} BlankParts(types: seq<CqlType>, parts: seq<Value>, pv: int)
    requires |parts| <= |types| && (forall i :: 0 <= i < |types| ==> types[i] == Prim(Blob))
    requires forall i :: 0 <= i < |parts| ==> parts[i] == Null || parts[i] == Leaf(BytesV([]))
    ensures ToBinaryParts(types, parts, pv).Some?
    ensures WriteParts(ToBinaryParts(types, parts, pv).value).Some?
  {
    hide PackPartLength;
    if parts != [] {
      BlankParts(types[1..], parts[1..], pv);
      ShortPartsEncode();
      assert types[0] == Prim(Blob) && Serialize(Prim(Blob), Leaf(BytesV([])), pv) == Some([]);
      var cs := ToBinaryParts(types, parts, pv).value;
      assert cs[1..] == ToBinaryParts(types[1..], parts[1..], pv).value;
    }
  }

  lemma ShortPartsEncode()
    ensures PackPartLength(None).Some? && PackPartLength(Some([])).Some?
  {
  }
}
