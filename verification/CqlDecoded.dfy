/** Values as the driver hands them out. A decoded map is not a dict: it keeps the bytes its keys
    had on the wire, and gives a value only through a lookup by those bytes. So serialising it
    again looks every key up. */
module CqlDecoded {
  import opened Bytes
  import opened Seqs
  import opened CqlLeaves
  import opened CqlWire
  import opened CqlCodec

  datatype Decoded =
    | NullD
    | LeafD(leaf: LeafValue)
    | ListD(items: seq<Decoded>)
    | SetD(members: seq<LeafValue>)
    | MapD(keyType: CqlType, protocolVersion: int, entries: seq<Entry>)
    | TupleD(parts: seq<Decoded>)

  /** One item of a decoded map, with the bytes of its key. */
  datatype Entry = Entry(wire: ByteString, key: Decoded, value: Decoded)

  // ------------------------------------------------------------------------- as plain values

  function View(d: Decoded): Value
    decreases d, 0
  {
    match d
    case NullD => Null
    case LeafD(x) => Leaf(x)
    case ListD(items) => ListV(ViewAll(items))
    case SetD(members) => SetV(members)
    case MapD(_, _, entries) => MapV(ViewPairs(entries))
    case TupleD(parts) => TupleV(ViewAll(parts))
  }

  function ViewAll(items: seq<Decoded>): (r: seq<Value>)
    ensures |r| == |items|
    decreases items, 0
  {
    if items == [] then [] else [View(items[0])] + ViewAll(items[1..])
  }

  function ViewPairs(entries: seq<Entry>): (r: seq<(Value, Value)>)
    ensures |r| == |entries|
    decreases entries, 0
  {
    if entries == [] then [] else [(View(entries[0].key), View(entries[0].value))] + ViewPairs(entries[1..])
  }

  // --------------------------------------------------------------------------- deserialising

  function DecodeBinary(t: CqlType, b: Option<ByteString>, pv: int): Option<Decoded>
    decreases t, 2, 0
  {
    if b.None? then Some(NullD)
    else if b.value == [] && !EmptyAllowed(t) then Some(NullD)
    else Decode(t, b.value, pv)
  }

  /** `deserialize_safe`: a map remembers its key type and the version it was read with. */
  function Decode(t: CqlType, b: ByteString, pv: int): Option<Decoded>
    requires b != [] || EmptyAllowed(t)
    decreases t, 1, 0
  {
    match t
    case Prim(leaf) =>
      (match DeserializeLeaf(leaf, b) case None => None case Some(x) => Some(LeafD(x)))
    case ListOf(element) =>
      (match ReadCollection(b, 1, pv)
       case None => None
       case Some(cs) =>
         match DecodeAll(element, cs, Inner(pv)) case None => None case Some(items) => Some(ListD(items)))
    case SetOf(member) =>
      (match ReadCollection(b, 1, pv)
       case None => None
       case Some(cs) =>
         match LeavesFromBinary(member, cs) case None => None case Some(xs) => Some(SetD(Sorted(xs))))
    case MapOf(key, _) =>
      (match ReadCollection(b, 2, pv)
       case None => None
       case Some(cs) =>
         match DecodePairs(t, cs, Inner(pv)) case None => None case Some(entries) => Some(MapD(key, pv, entries)))
    case TupleOf(types) =>
      if types == [] then None
      else
        (match ReadParts(b, 0, |types|)
         case None => None
         case Some(cs) =>
           match DecodeParts(types, cs, Inner(pv)) case None => None case Some(parts) => Some(TupleD(parts)))
  }

  function DecodeAll(t: CqlType, cs: seq<ByteString>, pv: int): Option<seq<Decoded>>
    decreases t, 3, |cs|
  {
    if cs == [] then Some([])
    else
      match DecodeBinary(t, Some(cs[0]), pv)
      case None => None
      case Some(v) =>
        match DecodeAll(t, cs[1..], pv)
        case None => None
        case Some(vs) => Some([v] + vs)
  }

  function DecodePairs(t: CqlType, cs: seq<ByteString>, pv: int): Option<seq<Entry>>
    requires t.MapOf? && |cs| % 2 == 0
    decreases t, 0, |cs|
  {
    if cs == [] then Some([])
    else
      match DecodeBinary(t.key, Some(cs[0]), pv)
      case None => None
      case Some(k) =>
        match DecodeBinary(t.value, Some(cs[1]), pv)
        case None => None
        case Some(v) =>
          match DecodePairs(t, cs[2..], pv)
          case None => None
          case Some(rest) => Some([Entry(cs[0], k, v)] + rest)
  }

  function DecodeParts(types: seq<CqlType>, cs: seq<Option<ByteString>>, pv: int): Option<seq<Decoded>>
    requires |cs| <= |types|
    decreases types, 0, 0
  {
    if types == [] then Some([])
    else
      match DecodeParts(types[1..], if cs == [] then [] else cs[1..], pv)
      case None => None
      case Some(vs) =>
        match (if cs == [] then Some(NullD) else DecodeBinary(types[0], cs[0], pv))
        case None => None
        case Some(v) => Some([v] + vs)
  }

  /** Seen as plain values, it is what `FromBinary` reads, for all bytes. */
  lemma {:induction false} ViewOfDecoded(t: CqlType, b: Option<ByteString>, pv: int)
    ensures FromBinary(t, b, pv) == match DecodeBinary(t, b, pv) case None => None case Some(d) => Some(View(d))
    decreases t, 2, 0
  {
    hide ReadCollection, ReadParts, DeserializeLeaf, LeavesFromBinary, Sorted, Inner;
    hide FromBinaryAll, DecodeAll, FromBinaryPairs, DecodePairs, FromBinaryParts, DecodeParts, ViewAll, ViewPairs;
    if b.Some? && (b.value != [] || EmptyAllowed(t)) {
      match t
      case ListOf(element) =>
        if ReadCollection(b.value, 1, pv).Some? {
          ViewOfAll(element, ReadCollection(b.value, 1, pv).value, Inner(pv));
        }
      case MapOf(_, _) =>
        if ReadCollection(b.value, 2, pv).Some? { ViewOfPairs(t, ReadCollection(b.value, 2, pv).value, Inner(pv)); }
      case TupleOf(types) =>
        if ReadParts(b.value, 0, |types|).Some? {
          ViewOfParts(types, ReadParts(b.value, 0, |types|).value, Inner(pv));
        }
      case _ =>
    }
  }

  lemma {:induction false} ViewOfAll(t: CqlType, cs: seq<ByteString>, pv: int)
    ensures FromBinaryAll(t, cs, pv) == match DecodeAll(t, cs, pv) case None => None case Some(ds) => Some(ViewAll(ds))
    decreases t, 3, |cs|
  {
    hide FromBinary, DecodeBinary, View;
    if cs != [] {
      ViewOfDecoded(t, Some(cs[0]), pv);
      ViewOfAll(t, cs[1..], pv);
    }
  }

  lemma {:induction false} ViewOfPairs(t: CqlType, cs: seq<ByteString>, pv: int)
    requires t.MapOf? && |cs| % 2 == 0
    ensures FromBinaryPairs(t, cs, pv) ==
            match DecodePairs(t, cs, pv) case None => None case Some(entries) => Some(ViewPairs(entries))
    decreases t, 0, |cs|
  {
    hide FromBinary, DecodeBinary, View;
    if cs != [] {
      ViewOfDecoded(t.key, Some(cs[0]), pv);
      ViewOfDecoded(t.value, Some(cs[1]), pv);
      ViewOfPairs(t, cs[2..], pv);
    }
  }

  lemma {:induction false} ViewOfParts(types: seq<CqlType>, cs: seq<Option<ByteString>>, pv: int)
    requires |cs| <= |types|
    ensures FromBinaryParts(types, cs, pv) ==
            match DecodeParts(types, cs, pv) case None => None case Some(ds) => Some(ViewAll(ds))
    decreases types, 0, 0
  {
    hide FromBinary, DecodeBinary, View;
    if types != [] {
      if cs != [] { ViewOfDecoded(types[0], cs[0], pv); }
      ViewOfParts(types[1..], if cs == [] then [] else cs[1..], pv);
      assert View(NullD) == Null by { ViewOfNull(); }
    }
  }

  lemma ViewOfNull()
    ensures View(NullD) == Null
  {
  }

  // --------------------------------------------------------------------- serialising again

  function WiresOf(entries: seq<Entry>): (wires: seq<ByteString>)
    ensures |wires| == |entries|
    ensures forall i :: 0 <= i < |entries| ==> wires[i] == entries[i].wire
  {
    seq(|entries|, i requires 0 <= i < |entries| => entries[i].wire)
  }

  /** The last place where a flat key stands. */
  function LastPlace(wires: seq<ByteString>, flat: ByteString): (k: nat)
    requires flat in wires
    ensures k < |wires| && wires[k] == flat && (forall j :: k < j < |wires| ==> wires[j] != flat)
  {
    if wires[|wires| - 1] == flat then |wires| - 1
    else
      assert wires == wires[..|wires| - 1] + [wires[|wires| - 1]];
      LastPlace(wires[..|wires| - 1], flat)
  }

  /** The place `_index` gives for a serialised key; nothing is an exception. */
  function Place(wires: seq<ByteString>, flat: Option<ByteString>): (k: Option<nat>)
    ensures k.Some? ==> k.value < |wires|
  {
    if flat.Some? && flat.value in wires then Some(LastPlace(wires, flat.value)) else None
  }

  /** `to_binary` of a decoded value. */
  function ToBinaryAgain(t: CqlType, d: Decoded, pv: int): Option<ByteString>
    decreases d, 2, 0
  {
    if d == NullD then Some([]) else SerializeAgain(t, d, pv)
  }

  function SerializeAgain(t: CqlType, d: Decoded, pv: int): Option<ByteString>
    decreases d, 1, 0
  {
    match (t, d)
    case (Prim(leaf), LeafD(x)) => SerializeLeaf(leaf, x)
    case (ListOf(element), ListD(items)) =>
      (match AllAgain(element, items, Inner(pv))
       case None => None
       case Some(cs) => WriteCollection(|items|, cs, pv))
    case (SetOf(member), SetD(members)) =>
      (match LeavesToBinary(member, members)
       case None => None
       case Some(cs) => WriteCollection(|members|, cs, pv))
    case (MapOf(_, _), MapD(_, _, entries)) =>
      (match PairsAgain(t, d, 0, Inner(pv))
       case None => None
       case Some(cs) => WriteCollection(|entries|, cs, pv))
    case (TupleOf(types), TupleD(parts)) =>
      if types == [] || |parts| > |types| then None
      else
        (match PartsAgain(types, parts, Inner(pv))
         case None => None
         case Some(cs) => WriteParts(cs))
    case _ => None
  }

  function AllAgain(t: CqlType, items: seq<Decoded>, pv: int): (r: Option<seq<ByteString>>)
    ensures r.Some? ==> |r.value| == |items|
    decreases items, 0, 0
  {
    if items == [] then Some([])
    else
      match ToBinaryAgain(t, items[0], pv)
      case None => None
      case Some(c) =>
        match AllAgain(t, items[1..], pv)
        case None => None
        case Some(cs) => Some([c] + cs)
  }

  /** One item of a decoded map as iteration gives it: the key it shows, and what it answers when
      that key is looked up. */
  function EntryAgain(t: CqlType, d: Decoded, i: nat, pv: int): Option<(ByteString, ByteString)>
    requires t.MapOf? && d.MapD? && i < |d.entries|
    decreases d, 0, 0
  {
    match Place(WiresOf(d.entries), SerializeAgain(d.keyType, d.entries[i].key, d.protocolVersion))
    case None => None
    case Some(j) =>
      match ToBinaryAgain(t.key, d.entries[i].key, pv)
      case None => None
      case Some(k) =>
        match ToBinaryAgain(t.value, d.entries[j].value, pv)
        case None => None
        case Some(c) => Some((k, c))
  }

  /** The items from place `i` on. */
  function PairsAgain(t: CqlType, d: Decoded, i: nat, pv: int): (r: Option<seq<ByteString>>)
    requires t.MapOf? && d.MapD? && i <= |d.entries|
    ensures r.Some? ==> |r.value| == (|d.entries| - i) * 2
    decreases d, 0, 1 + |d.entries| - i
  {
    if i == |d.entries| then Some([])
    else
      match EntryAgain(t, d, i, pv)
      case None => None
      case Some((k, c)) =>
        match PairsAgain(t, d, i + 1, pv)
        case None => None
        case Some(cs) => Some([k, c] + cs)
  }

  function PartsAgain(types: seq<CqlType>, parts: seq<Decoded>, pv: int): (r: Option<seq<Option<ByteString>>>)
    requires |parts| <= |types|
    ensures r.Some? ==> |r.value| == |parts|
    decreases parts, 0, 0
  {
    if parts == [] then Some([])
    else
      match PartsAgain(types[1..], parts[1..], pv)
      case None => None
      case Some(cs) =>
        if parts[0] == NullD then Some([None] + cs)
        else
          match SerializeAgain(types[0], parts[0], pv)
          case None => None
          case Some(c) => Some([Some(c)] + cs)
  }

  // ------------------------------------------------------------------------ what comes back

  /** The bytes of a value that can be serialised. */
  function Wire(t: CqlType, v: Value, pv: int): ByteString {
    match ToBinary(t, v, pv) case None => [] case Some(b) => b
  }

  /** The object a round trip turns a value into. */
  function Shown(t: CqlType, v: Value, pv: int): Decoded
    decreases t, 2, 0
  {
    match (t, v)
    case (_, Null) =>
      if t == Prim(Blob) then LeafD(BytesV([])) else if t == Prim(Text) then LeafD(TextV("")) else NullD
    case (Prim(_), Leaf(x)) => LeafD(x)
    case (ListOf(element), ListV(items)) => ListD(ShownAll(element, items, Inner(pv)))
    case (SetOf(_), SetV(members)) => SetD(Sorted(members))
    case (MapOf(key, _), MapV(entries)) => MapD(key, pv, ShownPairs(t, entries, Inner(pv)))
    case (TupleOf(types), TupleV(parts)) => if parts == [] then NullD else TupleD(ShownParts(types, parts, Inner(pv)))
    case _ => NullD
  }

  function ShownAll(t: CqlType, items: seq<Value>, pv: int): (r: seq<Decoded>)
    ensures |r| == |items|
    decreases t, 3, |items|
  {
    if items == [] then [] else [Shown(t, items[0], pv)] + ShownAll(t, items[1..], pv)
  }

  function ShownPairs(t: CqlType, entries: seq<(Value, Value)>, pv: int): (r: seq<Entry>)
    requires t.MapOf?
    ensures |r| == |entries|
    decreases t, 0, |entries|
  {
    if entries == [] then []
    else
      [Entry(Wire(t.key, entries[0].0, pv), Shown(t.key, entries[0].0, pv), Shown(t.value, entries[0].1, pv))] +
      ShownPairs(t, entries[1..], pv)
  }

  function ShownParts(types: seq<CqlType>, parts: seq<Value>, pv: int): (r: seq<Decoded>)
    ensures |r| == |types|
    decreases types, 0, 0
  {
    if types == [] then []
    else
      [if parts == [] || parts[0] == Null then NullD else Shown(types[0], parts[0], pv)] +
      ShownParts(types[1..], if parts == [] then [] else parts[1..], pv)
  }

  lemma {:induction false} DecodesAsShown(t: CqlType, v: Value, pv: int)
    requires ToBinary(t, v, pv).Some?
    ensures DecodeBinary(t, ToBinary(t, v, pv), pv) == Some(Shown(t, v, pv))
    decreases t, 2, 0
  {
    hide SerializeLeaf, DeserializeLeaf, ReadCollection, WriteCollection, ReadParts, WriteParts, Sorted, Inner;
    hide ToBinaryAll, DecodeAll, ShownAll, LeavesToBinary, LeavesFromBinary, ToBinaryPairs, DecodePairs, ShownPairs;
    hide ToBinaryParts, DecodeParts, ShownParts;
    match (t, v)
    case (_, Null) => if EmptyAllowed(t) { NullDecodes(t, pv); }
    case (Prim(leaf), Leaf(x)) => LeafReadsBack(leaf, x);
    case (ListOf(element), ListV(items)) =>
      AllDecode(element, items, Inner(pv));
      CollectionReadsBack(|items|, 1, ToBinaryAll(element, items, Inner(pv)).value, pv);
    case (SetOf(member), SetV(members)) =>
      LeavesReadBack(member, members);
      CollectionReadsBack(|members|, 1, LeavesToBinary(member, members).value, pv);
    case (MapOf(_, _), MapV(entries)) =>
      PairsDecode(t, entries, Inner(pv));
      CollectionReadsBack(|entries|, 2, ToBinaryPairs(t, entries, Inner(pv)).value, pv);
    case (TupleOf(types), TupleV(parts)) =>
      PartsDecode(types, parts, Inner(pv));
      var cs := ToBinaryParts(types, parts, Inner(pv)).value;
      PartsReadBack([], cs, |types|);
      assert [] + WriteParts(cs).value == WriteParts(cs).value;
    case _ =>
  }

  lemma NullDecodes(t: CqlType, pv: int)
    requires EmptyAllowed(t)
    ensures DecodeBinary(t, Some([]), pv) == Some(Shown(t, Null, pv))
  {
  }

  lemma {:induction false} AllDecode(t: CqlType, items: seq<Value>, pv: int)
    requires ToBinaryAll(t, items, pv).Some?
    ensures DecodeAll(t, ToBinaryAll(t, items, pv).value, pv) == Some(ShownAll(t, items, pv))
    decreases t, 3, |items|
  {
    hide ToBinary, DecodeBinary, Shown;
    if items != [] {
      DecodesAsShown(t, items[0], pv);
      AllDecode(t, items[1..], pv);
    }
  }

  lemma {:induction false} PairsDecode(t: CqlType, entries: seq<(Value, Value)>, pv: int)
    requires t.MapOf? && ToBinaryPairs(t, entries, pv).Some?
    ensures DecodePairs(t, ToBinaryPairs(t, entries, pv).value, pv) == Some(ShownPairs(t, entries, pv))
    decreases t, 0, |entries|
  {
    hide ToBinary, DecodeBinary, Shown;
    if entries != [] {
      DecodesAsShown(t.key, entries[0].0, pv);
      DecodesAsShown(t.value, entries[0].1, pv);
      PairsDecode(t, entries[1..], pv);
      var cs := ToBinaryPairs(t, entries, pv).value;
      assert cs[2..] == ToBinaryPairs(t, entries[1..], pv).value;
    }
  }

  lemma {:induction false} PartsDecode(types: seq<CqlType>, parts: seq<Value>, pv: int)
    requires |parts| <= |types| && ToBinaryParts(types, parts, pv).Some?
    ensures DecodeParts(types, ToBinaryParts(types, parts, pv).value, pv) == Some(ShownParts(types, parts, pv))
    decreases types, 0, 0
  {
    hide Serialize, DecodeBinary, Shown;
    if types != [] {
      if parts == [] {
        PartsDecode(types[1..], [], pv);
      } else {
        PartsDecode(types[1..], parts[1..], pv);
        var cs := ToBinaryParts(types, parts, pv).value;
        assert cs[1..] == ToBinaryParts(types[1..], parts[1..], pv).value;
        PartDecodes(types[0], parts[0], cs[0], pv);
      }
    }
  }

  lemma {:induction false} PartDecodes(t: CqlType, v: Value, c: Option<ByteString>, pv: int)
    requires if v == Null then c == None else Serialize(t, v, pv).Some? && c == Serialize(t, v, pv)
    ensures DecodeBinary(t, c, pv) == Some(if v == Null then NullD else Shown(t, v, pv))
    decreases t, 3, 0
  {
    hide Serialize, Decode, Shown;
    if v != Null { DecodesAsShown(t, v, pv); }
  }
}
