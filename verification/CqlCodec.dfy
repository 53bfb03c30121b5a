/** Type-directed serialisation of nested CQL values, and what comes back from it. */
module CqlCodec {
  import opened Bytes
  import opened Seqs
  import opened CqlLeaves
  import opened CqlWire

  datatype CqlType =
    | Prim(leaf: LeafType)
    | ListOf(element: CqlType)
    | SetOf(member: LeafType)
    | MapOf(key: CqlType, value: CqlType)
    | TupleOf(parts: seq<CqlType>)

  datatype Value =
    | Null
    | Leaf(leaf: LeafValue)
    | ListV(items: seq<Value>)
    | SetV(members: seq<LeafValue>)
    | MapV(entries: seq<(Value, Value)>)
    | TupleV(parts: seq<Value>)

  predicate EmptyAllowed(t: CqlType) { t.Prim? && EmptyOk(t.leaf) }

  /** The protocol version used inside collections. */
  function Inner(pv: int): int { Max(3, pv) }

  // --------------------------------------------------------------------------- serialising

  /** `to_binary`; nothing is an exception. */
  function ToBinary(t: CqlType, v: Value, pv: int): Option<ByteString>
    decreases t, 2, 0
  {
    if v == Null then Some([]) else Serialize(t, v, pv)
  }

  function Serialize(t: CqlType, v: Value, pv: int): Option<ByteString>
    decreases t, 1, 0
  {
    match (t, v)
    case (Prim(leaf), Leaf(x)) => SerializeLeaf(leaf, x)
    case (ListOf(element), ListV(items)) =>
      (match ToBinaryAll(element, items, Inner(pv))
       case None => None
       case Some(cs) => WriteCollection(|items|, cs, pv))
    case (SetOf(member), SetV(members)) =>
      (match LeavesToBinary(member, members)
       case None => None
       case Some(cs) => WriteCollection(|members|, cs, pv))
    case (MapOf(_, _), MapV(entries)) =>
      (match ToBinaryPairs(t, entries, Inner(pv))
       case None => None
       case Some(cs) => WriteCollection(|entries|, cs, pv))
    case (TupleOf(types), TupleV(parts)) =>
      if types == [] || |parts| > |types| then None
      else
        (match ToBinaryParts(types, parts, Inner(pv))
         case None => None
         case Some(cs) => WriteParts(cs))
    case _ => None
  }

  function ToBinaryAll(t: CqlType, items: seq<Value>, pv: int): (r: Option<seq<ByteString>>)
    ensures r.Some? ==> |r.value| == |items|
    decreases t, 3, |items|
  {
    if items == [] then Some([])
    else
      match ToBinary(t, items[0], pv)
      case None => None
      case Some(c) =>
        match ToBinaryAll(t, items[1..], pv)
        case None => None
        case Some(cs) => Some([c] + cs)
  }

  function LeavesToBinary(t: LeafType, members: seq<LeafValue>): (r: Option<seq<ByteString>>)
    ensures r.Some? ==> |r.value| == |members|
  {
    if members == [] then Some([])
    else
      match SerializeLeaf(t, members[0])
      case None => None
      case Some(c) =>
        match LeavesToBinary(t, members[1..])
        case None => None
        case Some(cs) => Some([c] + cs)
  }

  /** Keys and values in turn. */
  function ToBinaryPairs(t: CqlType, entries: seq<(Value, Value)>, pv: int): (r: Option<seq<ByteString>>)
    requires t.MapOf?
    ensures r.Some? ==> |r.value| == |entries| * 2
    decreases t, 0, |entries|
  {
    if entries == [] then Some([])
    else
      match ToBinary(t.key, entries[0].0, pv)
      case None => None
      case Some(k) =>
        match ToBinary(t.value, entries[0].1, pv)
        case None => None
        case Some(c) =>
          match ToBinaryPairs(t, entries[1..], pv)
          case None => None
          case Some(cs) => Some([k, c] + cs)
  }

  function ToBinaryParts(types: seq<CqlType>, parts: seq<Value>, pv: int): (r: Option<seq<Option<ByteString>>>)
    requires |parts| <= |types|
    ensures r.Some? ==> |r.value| == |parts|
    decreases types, 0, 0
  {
    if parts == [] then Some([])
    else
      match ToBinaryParts(types[1..], parts[1..], pv)
      case None => None
      case Some(cs) =>
        if parts[0] == Null then Some([None] + cs)
        else
          match Serialize(types[0], parts[0], pv)
          case None => None
          case Some(c) => Some([Some(c)] + cs)
  }

  // ------------------------------------------------------------------------- deserialising

  /** `from_binary`; the argument is None for a null part of a tuple. */
  function FromBinary(t: CqlType, b: Option<ByteString>, pv: int): Option<Value>
    decreases t, 2, 0
  {
    if b.None? then Some(Null)
    else if b.value == [] && !EmptyAllowed(t) then Some(Null)
    else Deserialize(t, b.value, pv)
  }

  function Deserialize(t: CqlType, b: ByteString, pv: int): Option<Value>
    requires b != [] || EmptyAllowed(t)
    decreases t, 1, 0
  {
    match t
    case Prim(leaf) =>
      (match DeserializeLeaf(leaf, b) case None => None case Some(x) => Some(Leaf(x)))
    case ListOf(element) =>
      (match ReadCollection(b, 1, pv)
       case None => None
       case Some(cs) =>
         match FromBinaryAll(element, cs, Inner(pv)) case None => None case Some(items) => Some(ListV(items)))
    case SetOf(member) =>
      (match ReadCollection(b, 1, pv)
       case None => None
       case Some(cs) =>
         match LeavesFromBinary(member, cs) case None => None case Some(xs) => Some(SetV(Sorted(xs))))
    case MapOf(_, _) =>
      (match ReadCollection(b, 2, pv)
       case None => None
       case Some(cs) =>
         match FromBinaryPairs(t, cs, Inner(pv)) case None => None case Some(entries) => Some(MapV(entries)))
    case TupleOf(types) =>
      if types == [] then None
      else
        (match ReadParts(b, 0, |types|)
         case None => None
         case Some(cs) =>
           match FromBinaryParts(types, cs, Inner(pv)) case None => None case Some(parts) => Some(TupleV(parts)))
  }

  function FromBinaryAll(t: CqlType, cs: seq<ByteString>, pv: int): Option<seq<Value>>
    decreases t, 3, |cs|
  {
    if cs == [] then Some([])
    else
      match FromBinary(t, Some(cs[0]), pv)
      case None => None
      case Some(v) =>
        match FromBinaryAll(t, cs[1..], pv)
        case None => None
        case Some(vs) => Some([v] + vs)
  }

  /** A null element cannot be compared with the others: sorting raises. */
  function LeavesFromBinary(t: LeafType, cs: seq<ByteString>): Option<seq<LeafValue>> {
    if cs == [] then Some([])
    else if cs[0] == [] && !EmptyOk(t) then None
    else
      match DeserializeLeaf(t, cs[0])
      case None => None
      case Some(x) =>
        match LeavesFromBinary(t, cs[1..])
        case None => None
        case Some(xs) => Some([x] + xs)
  }

  function FromBinaryPairs(t: CqlType, cs: seq<ByteString>, pv: int): Option<seq<(Value, Value)>>
    requires t.MapOf? && |cs| % 2 == 0
    decreases t, 0, |cs|
  {
    if cs == [] then Some([])
    else
      match FromBinary(t.key, Some(cs[0]), pv)
      case None => None
      case Some(k) =>
        match FromBinary(t.value, Some(cs[1]), pv)
        case None => None
        case Some(v) =>
          match FromBinaryPairs(t, cs[2..], pv)
          case None => None
          case Some(rest) => Some([(k, v)] + rest)
  }

  /** Missing parts at the end come back as nulls. */
  function FromBinaryParts(types: seq<CqlType>, cs: seq<Option<ByteString>>, pv: int): Option<seq<Value>>
    requires |cs| <= |types|
    decreases types, 0, 0
  {
    if types == [] then Some([])
    else
      match FromBinaryParts(types[1..], if cs == [] then [] else cs[1..], pv)
      case None => None
      case Some(vs) =>
        match (if cs == [] then Some(Null) else FromBinary(types[0], cs[0], pv))
        case None => None
        case Some(v) => Some([v] + vs)
  }

  // ------------------------------------------------------------------------ what comes back

  /** The value a binary round trip turns `v` into: a null of a type that allows empty bytes
      becomes the empty value, an empty tuple becomes null, a short tuple is padded with nulls,
      and a set is sorted. */
  function Seen(t: CqlType, v: Value): Value
    decreases t, 2, 0
  {
    if v == Null then (if t == Prim(Blob) then Leaf(BytesV([])) else if t == Prim(Text) then Leaf(TextV("")) else Null)
    else if t.TupleOf? && v == TupleV([]) then Null
    else SeenInside(t, v)
  }

  function SeenInside(t: CqlType, v: Value): Value
    decreases t, 1, 0
  {
    match (t, v)
    case (ListOf(element), ListV(items)) => ListV(SeenAll(element, items))
    case (SetOf(_), SetV(members)) => SetV(Sorted(members))
    case (MapOf(_, _), MapV(entries)) => MapV(SeenPairs(t, entries))
    case (TupleOf(types), TupleV(parts)) => TupleV(SeenParts(types, parts))
    case _ => v
  }

  function SeenAll(t: CqlType, items: seq<Value>): (r: seq<Value>)
    ensures |r| == |items|
    decreases t, 3, |items|
  {
    if items == [] then [] else [Seen(t, items[0])] + SeenAll(t, items[1..])
  }

  function SeenPairs(t: CqlType, entries: seq<(Value, Value)>): (r: seq<(Value, Value)>)
    requires t.MapOf?
    ensures |r| == |entries|
    decreases t, 0, |entries|
  {
    if entries == [] then []
    else [(Seen(t.key, entries[0].0), Seen(t.value, entries[0].1))] + SeenPairs(t, entries[1..])
  }

  function SeenParts(types: seq<CqlType>, parts: seq<Value>): (r: seq<Value>)
    ensures |r| == |types|
    decreases types, 0, 0
  {
    if types == [] then []
    else
      [if parts == [] || parts[0] == Null then Null else Seen(types[0], parts[0])] +
      SeenParts(types[1..], if parts == [] then [] else parts[1..])
  }

  // ------------------------------------------------------------------------- the round trip

  lemma {:induction false} LeavesReadBack(t: LeafType, members: seq<LeafValue>)
    requires LeavesToBinary(t, members).Some?
    ensures LeavesFromBinary(t, LeavesToBinary(t, members).value) == Some(members)
  {
    hide SerializeLeaf, DeserializeLeaf;
    if members != [] {
      LeafReadsBack(t, members[0]);
      LeavesReadBack(t, members[1..]);
      assert [members[0]] + members[1..] == members;
    }
  }

  /** Whatever can be serialised comes back, as Seen says it does, under every protocol version. */
  lemma {:induction false} RoundTrip(t: CqlType, v: Value, pv: int)
    requires ToBinary(t, v, pv).Some?
    ensures FromBinary(t, Some(ToBinary(t, v, pv).value), pv) == Some(Seen(t, v))
    decreases t, 2, 0
  {
    hide Serialize, Deserialize, SeenInside;
    if v == Null {
      if EmptyAllowed(t) { NullLeaf(t, pv); }
    } else {
      Inside(t, v, pv);
    }
  }

  lemma NullLeaf(t: CqlType, pv: int)
    requires EmptyAllowed(t)
    ensures Deserialize(t, [], pv) == Some(Seen(t, Null))
  {
  }

  lemma {:induction false} Inside(t: CqlType, v: Value, pv: int)
    requires v != Null && Serialize(t, v, pv).Some?
    ensures var b := Serialize(t, v, pv).value;
            if b == [] && !EmptyAllowed(t) then t.TupleOf? && v == TupleV([])
            else Deserialize(t, b, pv) == Some(SeenInside(t, v)) && !(t.TupleOf? && v == TupleV([]))
    decreases t, 1, 0
  {
    hide SerializeLeaf, DeserializeLeaf, ReadCollection, WriteCollection, ReadParts, WriteParts, Sorted, Inner;
    hide ToBinaryAll, FromBinaryAll, SeenAll, LeavesToBinary, LeavesFromBinary, ToBinaryPairs, FromBinaryPairs,
      SeenPairs;
    hide ToBinaryParts, FromBinaryParts, SeenParts;
    match (t, v)
    case (Prim(leaf), Leaf(x)) =>
      LeafReadsBack(leaf, x);
    case (ListOf(element), ListV(items)) =>
      AllReadBack(element, items, Inner(pv));
      CollectionReadsBack(|items|, 1, ToBinaryAll(element, items, Inner(pv)).value, pv);
    case (SetOf(member), SetV(members)) =>
      LeavesReadBack(member, members);
      CollectionReadsBack(|members|, 1, LeavesToBinary(member, members).value, pv);
    case (MapOf(_, _), MapV(entries)) =>
      PairsReadBack(t, entries, Inner(pv));
      CollectionReadsBack(|entries|, 2, ToBinaryPairs(t, entries, Inner(pv)).value, pv);
    case (TupleOf(types), TupleV(parts)) =>
      PartsComeBack(types, parts, Inner(pv));
      var cs := ToBinaryParts(types, parts, Inner(pv)).value;
      PartsReadBack([], cs, |types|);
      assert [] + WriteParts(cs).value == WriteParts(cs).value;
    case _ =>
  }

  lemma {:induction false} AllReadBack(t: CqlType, items: seq<Value>, pv: int)
    requires ToBinaryAll(t, items, pv).Some?
    ensures FromBinaryAll(t, ToBinaryAll(t, items, pv).value, pv) == Some(SeenAll(t, items))
    decreases t, 3, |items|
  {
    hide ToBinary, FromBinary, Seen;
    if items != [] {
      RoundTrip(t, items[0], pv);
      AllReadBack(t, items[1..], pv);
    }
  }

  lemma {:induction false} PairsReadBack(t: CqlType, entries: seq<(Value, Value)>, pv: int)
    requires t.MapOf? && ToBinaryPairs(t, entries, pv).Some?
    ensures FromBinaryPairs(t, ToBinaryPairs(t, entries, pv).value, pv) == Some(SeenPairs(t, entries))
    decreases t, 0, |entries|
  {
    hide ToBinary, FromBinary, Seen;
    if entries != [] {
      RoundTrip(t.key, entries[0].0, pv);
      RoundTrip(t.value, entries[0].1, pv);
      PairsReadBack(t, entries[1..], pv);
      var cs := ToBinaryPairs(t, entries, pv).value;
      assert cs[2..] == ToBinaryPairs(t, entries[1..], pv).value;
    }
  }

  lemma {:induction false} PartsComeBack(types: seq<CqlType>, parts: seq<Value>, pv: int)
    requires |parts| <= |types| && ToBinaryParts(types, parts, pv).Some?
    ensures FromBinaryParts(types, ToBinaryParts(types, parts, pv).value, pv) == Some(SeenParts(types, parts))
    decreases types, 0, 0
  {
    hide Serialize, FromBinary, Seen;
    if types != [] {
      if parts == [] {
        PartsComeBack(types[1..], [], pv);
      } else {
        PartsComeBack(types[1..], parts[1..], pv);
        var cs := ToBinaryParts(types, parts, pv).value;
        assert cs[1..] == ToBinaryParts(types[1..], parts[1..], pv).value;
        PartComesBack(types[0], parts[0], cs[0], pv);
      }
    }
  }

  lemma {:induction false} PartComesBack(t: CqlType, v: Value, c: Option<ByteString>, pv: int)
    requires if v == Null then c == None else Serialize(t, v, pv).Some? && c == Some(Serialize(t, v, pv).value)
    ensures FromBinary(t, c, pv) == Some(if v == Null then Null else Seen(t, v))
    decreases t, 3, 0
  {
    hide Serialize, Deserialize, Seen;
    if v != Null { RoundTrip(t, v, pv); }
  }

  // -------------------------------------------------------------------- when it is the same

  /** Values that fit their type, whatever their size. */
  predicate Typed(t: CqlType, v: Value)
    decreases t, 2, 0
  {
    match (t, v)
    case (_, Null) => true
    case (Prim(leaf), Leaf(x)) => if leaf == Blob then x.BytesV? else if leaf == Text then x.TextV? else x.IntV?
    case (ListOf(element), ListV(items)) => TypedAll(element, items)
    case (SetOf(_), SetV(_)) => true
    case (MapOf(_, _), MapV(entries)) => TypedPairs(t, entries)
    case (TupleOf(types), TupleV(parts)) => types != [] && |parts| <= |types| && TypedParts(types, parts)
    case _ => false
  }

  predicate TypedAll(t: CqlType, items: seq<Value>)
    decreases t, 3, |items|
  {
    items == [] || (Typed(t, items[0]) && TypedAll(t, items[1..]))
  }

  predicate TypedPairs(t: CqlType, entries: seq<(Value, Value)>)
    requires t.MapOf?
    decreases t, 0, |entries|
  {
    entries == [] || (Typed(t.key, entries[0].0) && Typed(t.value, entries[0].1) && TypedPairs(t, entries[1..]))
  }

  predicate TypedParts(types: seq<CqlType>, parts: seq<Value>)
    requires |parts| <= |types|
    decreases types, 0, 0
  {
    parts == [] || (Typed(types[0], parts[0]) && TypedParts(types[1..], parts[1..]))
  }

  /** No null where blob or text is expected, full tuples only, and sets in order. */
  predicate Clean(t: CqlType, v: Value)
    decreases t, 2, 0
  {
    match (t, v)
    case (_, Null) => !EmptyAllowed(t)
    case (ListOf(element), ListV(items)) => CleanAll(element, items)
    case (SetOf(_), SetV(members)) => Sorted(members) == members
    case (MapOf(_, _), MapV(entries)) => CleanPairs(t, entries)
    case (TupleOf(types), TupleV(parts)) => |parts| == |types| && CleanParts(types, parts)
    case _ => true
  }

  predicate CleanAll(t: CqlType, items: seq<Value>)
    decreases t, 3, |items|
  {
    items == [] || (Clean(t, items[0]) && CleanAll(t, items[1..]))
  }

  predicate CleanPairs(t: CqlType, entries: seq<(Value, Value)>)
    requires t.MapOf?
    decreases t, 0, |entries|
  {
    entries == [] || (Clean(t.key, entries[0].0) && Clean(t.value, entries[0].1) && CleanPairs(t, entries[1..]))
  }

  /** A null part is fine in a tuple, where it has its own encoding. */
  predicate CleanParts(types: seq<CqlType>, parts: seq<Value>)
    requires |parts| == |types|
    decreases types, 0, 0
  {
    types == [] || ((parts[0] == Null || Clean(types[0], parts[0])) && CleanParts(types[1..], parts[1..]))
  }

  /** The clean values, and only they, come back unchanged. */
  lemma {:induction false} SeenUnchanged(t: CqlType, v: Value)
    requires Typed(t, v)
    ensures Seen(t, v) == v <==> Clean(t, v)
    decreases t, 2, 0
  {
    hide SeenAll, SeenPairs, SeenParts, TypedAll, TypedPairs, TypedParts, CleanAll, CleanPairs, CleanParts, Sorted;
    match (t, v)
    case (ListOf(element), ListV(items)) => SeenAllUnchanged(element, items);
    case (MapOf(_, _), MapV(entries)) => SeenPairsUnchanged(t, entries);
    case (TupleOf(types), TupleV(parts)) =>
      if |parts| == |types| { SeenPartsUnchanged(types, parts); }
    case _ =>
  }

  lemma {:induction false} SeenAllUnchanged(t: CqlType, items: seq<Value>)
    requires TypedAll(t, items)
    ensures SeenAll(t, items) == items <==> CleanAll(t, items)
    decreases t, 3, |items|
  {
    hide Seen, Clean, Typed;
    if items != [] {
      SeenUnchanged(t, items[0]);
      SeenAllUnchanged(t, items[1..]);
      HeadAndTail(Seen(t, items[0]), SeenAll(t, items[1..]), items);
    }
  }

  lemma HeadAndTail<T>(x: T, rest: seq<T>, s: seq<T>)
    requires s != []
    ensures [x] + rest == s <==> x == s[0] && rest == s[1..]
  {
    assert s == [s[0]] + s[1..];
    if [x] + rest == s {
      assert ([x] + rest)[0] == x && ([x] + rest)[1..] == rest;
    }
  }

  lemma {:induction false} SeenPairsUnchanged(t: CqlType, entries: seq<(Value, Value)>)
    requires t.MapOf? && TypedPairs(t, entries)
    ensures SeenPairs(t, entries) == entries <==> CleanPairs(t, entries)
    decreases t, 0, |entries|
  {
    hide Seen, Clean, Typed;
    if entries != [] {
      SeenUnchanged(t.key, entries[0].0);
      SeenUnchanged(t.value, entries[0].1);
      SeenPairsUnchanged(t, entries[1..]);
      HeadAndTail((Seen(t.key, entries[0].0), Seen(t.value, entries[0].1)), SeenPairs(t, entries[1..]), entries);
    }
  }

  lemma {:induction false} SeenPartsUnchanged(types: seq<CqlType>, parts: seq<Value>)
    requires |parts| == |types| && TypedParts(types, parts)
    ensures SeenParts(types, parts) == parts <==> CleanParts(types, parts)
    decreases types, 0, 0
  {
    hide Seen, Clean, Typed;
    if types != [] {
      SeenUnchanged(types[0], parts[0]);
      SeenPartsUnchanged(types[1..], parts[1..]);
      HeadAndTail(if parts[0] == Null then Null else Seen(types[0], parts[0]), SeenParts(types[1..], parts[1..]),
        parts);
    }
  }

  lemma {:induction false} SerializableIsTyped(t: CqlType, v: Value, pv: int)
    requires ToBinary(t, v, pv).Some?
    ensures Typed(t, v)
    decreases t, 2, 0
  {
    hide WriteCollection, WriteParts, LeavesToBinary, ToBinaryAll, ToBinaryPairs, ToBinaryParts, TypedAll,
      TypedPairs, TypedParts, Inner;
    match (t, v)
    case (_, Null) =>
    case (ListOf(element), ListV(items)) => AllTyped(element, items, Inner(pv));
    case (MapOf(_, _), MapV(entries)) => PairsTyped(t, entries, Inner(pv));
    case (TupleOf(types), TupleV(parts)) => PartsTyped(types, parts, Inner(pv));
    case _ =>
  }

  lemma {:induction false} AllTyped(t: CqlType, items: seq<Value>, pv: int)
    requires ToBinaryAll(t, items, pv).Some?
    ensures TypedAll(t, items)
    decreases t, 3, |items|
  {
    hide ToBinary, Typed;
    if items != [] {
      SerializableIsTyped(t, items[0], pv);
      AllTyped(t, items[1..], pv);
    }
  }

  lemma {:induction false} PairsTyped(t: CqlType, entries: seq<(Value, Value)>, pv: int)
    requires t.MapOf? && ToBinaryPairs(t, entries, pv).Some?
    ensures TypedPairs(t, entries)
    decreases t, 0, |entries|
  {
    hide ToBinary, Typed;
    if entries != [] {
      SerializableIsTyped(t.key, entries[0].0, pv);
      SerializableIsTyped(t.value, entries[0].1, pv);
      PairsTyped(t, entries[1..], pv);
    }
  }

  lemma {:induction false} PartsTyped(types: seq<CqlType>, parts: seq<Value>, pv: int)
    requires |parts| <= |types| && ToBinaryParts(types, parts, pv).Some?
    ensures TypedParts(types, parts)
    decreases types, 0, 0
  {
    hide Serialize, Typed;
    if parts != [] {
      PartsTyped(types[1..], parts[1..], pv);
      SerializableIsTyped(types[0], parts[0], pv);
    }
  }

  /** The round trip is exact for the clean values and only for them. */
  lemma ExactRoundTrip(t: CqlType, v: Value, pv: int)
    requires ToBinary(t, v, pv).Some?
    ensures FromBinary(t, Some(ToBinary(t, v, pv).value), pv) == Some(v) <==> Clean(t, v)
  {
    hide ToBinary, FromBinary, Seen, Clean, Typed;
    RoundTrip(t, v, pv);
    SerializableIsTyped(t, v, pv);
    SeenUnchanged(t, v);
  }

  /** A null in a list of blobs comes back as the empty blob. */
  lemma NullBlobComesBackEmpty(pv: int)
    ensures var t, v := ListOf(Prim(Blob)), ListV([Null]);
            && ToBinary(t, v, pv).Some?
            && FromBinary(t, Some(ToBinary(t, v, pv).value), pv) == Some(ListV([Leaf(BytesV([]))]))
  {
    var t, v := ListOf(Prim(Blob)), ListV([Null]);
    assert [Null][1..] == [];
    assert ToBinaryAll(Prim(Blob), [], Inner(pv)) == Some([]);
    var cs: seq<ByteString> := [[]];
    assert ToBinaryAll(Prim(Blob), [Null], Inner(pv)) == Some([[]] + []) && [[]] + [] == cs;
    assert cs[1..] == [] && WriteChunks([], pv) == Some([]);
    assert ToBinary(t, v, pv).Some?;
    RoundTrip(t, v, pv);
    assert SeenAll(Prim(Blob), [Null]) == [Leaf(BytesV([]))] + SeenAll(Prim(Blob), []);
    assert [Leaf(BytesV([]))] + [] == [Leaf(BytesV([]))];
    assert Seen(t, v) == SeenInside(t, v) == ListV([Leaf(BytesV([]))]);
  }

  /** Distinct clean values have distinct encodings. */
  lemma CleanInjective(t: CqlType, v: Value, w: Value, pv: int)
    requires ToBinary(t, v, pv).Some? && ToBinary(t, v, pv) == ToBinary(t, w, pv)
    requires Clean(t, v) && Clean(t, w)
    ensures v == w
  {
    hide ToBinary, FromBinary, Clean;
    ExactRoundTrip(t, v, pv);
    ExactRoundTrip(t, w, pv);
  }
}
