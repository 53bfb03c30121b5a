/** The serialisers and deserialisers as the driver runs them: loops over a growing buffer, and
    over a byte string with an offset. Each one computes what the codec's functions say. */
module CqlSerializers {
  import opened Bytes
  import opened Seqs
  import opened Frames
  import opened CqlLeaves
  import opened CqlWire
  import opened CqlCodec
  import opened CqlMaps
  import opened CqlDecoded
  import Codec = CqlCodec

  /** What a loop returns when the rest of it yields `rest`. */
  function Onto<T>(sofar: seq<T>, rest: Option<seq<T>>): Option<seq<T>> {
    if rest.None? then None else Some(sofar + rest.value)
  }

  /** How deep a type's serialiser can call others. */
  function Size(t: CqlType): nat
    decreases t, 1
  {
    match t
    case Prim(_) => 0
    case ListOf(element) => 1 + Size(element)
    case SetOf(_) => 1
    case MapOf(key, value) => 1 + Size(key) + Size(value)
    case TupleOf(parts) => 1 + SizeAll(parts)
  }

  function SizeAll(types: seq<CqlType>): nat
    decreases types, 0
  {
    if types == [] then 0 else 1 + Size(types[0]) + SizeAll(types[1..])
  }

  lemma {:induction false} SizeAt(types: seq<CqlType>, k: nat)
    requires k < |types|
    ensures Size(types[k]) < SizeAll(types)
    decreases |types|
  {
    if k > 0 { SizeAt(types[1..], k - 1); }
  }

  // --------------------------------------------------------------------------- serialising

  method ToBinary(t: CqlType, v: Value, pv: int) returns (r: Option<ByteString>)
    ensures r == Codec.ToBinary(t, v, pv)
    decreases Size(t), 2
  {
    if v == Null {
      r := Some([]);
    } else {
      r := Serialize(t, v, pv);
    }
  }

  method Serialize(t: CqlType, v: Value, pv: int) returns (r: Option<ByteString>)
    ensures r == Codec.Serialize(t, v, pv)
    decreases Size(t), 1
  {
    match (t, v)
    case (Prim(leaf), Leaf(x)) => r := PackLeaf(leaf, x);
    case (ListOf(element), ListV(items)) => r := SerializeItems(element, items, pv);
    case (SetOf(member), SetV(members)) =>
      MembersAreItems(member, members, Inner(pv));
      r := SerializeItems(Prim(member), Leaves(members), pv);
    case (MapOf(_, _), MapV(entries)) => r := SerializeEntries(t, entries, pv);
    case (TupleOf(types), TupleV(parts)) =>
      if types == [] || |parts| > |types| {
        return None;
      }
      r := SerializeTuple(types, parts, pv);
    case _ => r := None;
  }

  method PackLeaf(t: LeafType, v: LeafValue) returns (r: Option<ByteString>)
    ensures r == SerializeLeaf(t, v)
  {
    if t == VarInt && v.IntV? {
      var b := PackVarint(v.n);
      r := Some(b);
    } else {
      r := SerializeLeaf(t, v);
    }
  }

  function Leaves(members: seq<LeafValue>): (items: seq<Value>)
    ensures |items| == |members|
    ensures forall i :: 0 <= i < |members| ==> items[i] == Leaf(members[i])
  {
    seq(|members|, i requires 0 <= i < |members| => Leaf(members[i]))
  }

  /** A set is written as the list of its members. */
  lemma {:induction false} MembersAreItems(t: LeafType, members: seq<LeafValue>, pv: int)
    ensures LeavesToBinary(t, members) == ToBinaryAll(Prim(t), Leaves(members), pv)
    decreases |members|
  {
    hide SerializeLeaf;
    if members != [] {
      MembersAreItems(t, members[1..], pv);
      assert Leaves(members)[1..] == Leaves(members[1..]);
    }
  }

  /** The bytes of the items from some place on. */
  function ItemBytes(t: CqlType, items: seq<Value>, outer: int): Option<ByteString> {
    match ToBinaryAll(t, items, Inner(outer)) case None => None case Some(cs) => WriteChunks(cs, outer)
  }

  function OneChunk(c: Option<ByteString>, outer: int): Option<ByteString> {
    if c.None? then None
    else match PackLength(|c.value|, outer) case None => None case Some(len) => Some(len + c.value)
  }

  /** One chunk and then the rest; an exception in either is an exception. */
  function Then(first: Option<ByteString>, rest: Option<ByteString>): Option<ByteString> {
    if first.None? then None else Onto(first.value, rest)
  }

  lemma FirstItem(t: CqlType, items: seq<Value>, outer: int)
    requires items != []
    ensures ItemBytes(t, items, outer) ==
            Then(OneChunk(Codec.ToBinary(t, items[0], Inner(outer)), outer), ItemBytes(t, items[1..], outer))
  {
    hide Codec.ToBinary, PackLength;
    var c, rest := Codec.ToBinary(t, items[0], Inner(outer)), ToBinaryAll(t, items[1..], Inner(outer));
    if c.Some? && rest.Some? { FirstChunk(c.value, rest.value, outer); }
  }

  lemma FirstChunk(c: ByteString, cs: seq<ByteString>, outer: int)
    ensures WriteChunks([c] + cs, outer) == Then(OneChunk(Some(c), outer), WriteChunks(cs, outer))
  {
    assert ([c] + cs)[1..] == cs;
  }

  lemma OntoThen(buf: ByteString, first: Option<ByteString>, rest: Option<ByteString>)
    ensures first.Some? ==> Onto(buf + first.value, rest) == Onto(buf, Then(first, rest))
    ensures first.None? ==> Onto(buf, Then(first, rest)) == None
  {
    if first.Some? && rest.Some? {
      assert buf + first.value + rest.value == buf + (first.value + rest.value);
    }
  }

  /** `_SimpleParameterizedType.serialize_safe`. */
  method SerializeItems(t: CqlType, items: seq<Value>, pv: int) returns (r: Option<ByteString>)
    ensures r == match ToBinaryAll(t, items, Inner(pv))
                 case None => None
                 case Some(cs) => WriteCollection(|items|, cs, pv)
    decreases Size(t), 3
  {
    hide Codec.ToBinary, ToBinaryAll, WriteChunks, PackLength, Inner, ItemBytes, OneChunk, Then;
    ghost var total :=
      match ToBinaryAll(t, items, Inner(pv)) case None => None case Some(cs) => WriteCollection(|items|, cs, pv);
    var head := PackLength(|items|, pv);
    if head.None? {
      return None;
    }
    var buf := head.value;
    HeadAndItems(t, items, buf, pv);
    var k := 0;
    while k < |items|
      invariant 0 <= k <= |items|
      invariant Onto(buf, ItemBytes(t, items[k..], pv)) == total
    {
      FirstItem(t, items[k..], pv);
      assert items[k..][1..] == items[k + 1..];
      var item := ToBinary(t, items[k], Inner(pv));
      var chunk := WriteChunk(item, pv);
      OntoThen(buf, chunk, ItemBytes(t, items[k + 1..], pv));
      if chunk.None? {
        return None;
      }
      buf := buf + chunk.value;
      k := k + 1;
    }
    NoItems(t, pv);
    assert items[k..] == [] && buf + [] == buf;
    r := Some(buf);
  }

  method WriteChunk(c: Option<ByteString>, outer: int) returns (r: Option<ByteString>)
    ensures r == OneChunk(c, outer)
  {
    if c.None? {
      return None;
    }
    var len := PackLength(|c.value|, outer);
    if len.None? {
      return None;
    }
    r := Some(len.value + c.value);
  }

  lemma HeadAndItems(t: CqlType, items: seq<Value>, head: ByteString, pv: int)
    requires PackLength(|items|, pv) == Some(head)
    ensures Onto(head, ItemBytes(t, items[0..], pv)) ==
            match ToBinaryAll(t, items, Inner(pv)) case None => None case Some(cs) => WriteCollection(|items|, cs, pv)
  {
    assert items[0..] == items;
  }

  lemma NoItems(t: CqlType, pv: int)
    ensures ItemBytes(t, [], pv) == Some([])
  {
  }

  function EntryBytes(t: CqlType, entries: seq<(Value, Value)>, outer: int): Option<ByteString>
    requires t.MapOf?
  {
    match ToBinaryPairs(t, entries, Inner(outer)) case None => None case Some(cs) => WriteChunks(cs, outer)
  }

  lemma FirstEntry(t: CqlType, entries: seq<(Value, Value)>, outer: int)
    requires t.MapOf? && entries != []
    ensures EntryBytes(t, entries, outer) ==
            Then(OneChunk(Codec.ToBinary(t.key, entries[0].0, Inner(outer)), outer),
                 Then(OneChunk(Codec.ToBinary(t.value, entries[0].1, Inner(outer)), outer),
                   EntryBytes(t, entries[1..], outer)))
  {
    hide Codec.ToBinary, PackLength;
    var k, c := Codec.ToBinary(t.key, entries[0].0, Inner(outer)), Codec.ToBinary(t.value, entries[0].1, Inner(outer));
    var rest := ToBinaryPairs(t, entries[1..], Inner(outer));
    if k.Some? && c.Some? && rest.Some? {
      FirstChunk(c.value, rest.value, outer);
      FirstChunk(k.value, [c.value] + rest.value, outer);
      assert [k.value] + ([c.value] + rest.value) == [k.value, c.value] + rest.value;
    }
  }

  /** `MapType.serialize_safe`. */
  method SerializeEntries(t: CqlType, entries: seq<(Value, Value)>, pv: int) returns (r: Option<ByteString>)
    requires t.MapOf?
    ensures r == Codec.Serialize(t, MapV(entries), pv)
    decreases Size(t), 0
  {
    hide Codec.ToBinary, ToBinaryPairs, WriteChunks, PackLength, Inner, EntryBytes, OneChunk, Then, Codec.Serialize;
    var head := PackLength(|entries|, pv);
    HeadAndEntries(t, entries, pv);
    if head.None? {
      return None;
    }
    var buf := head.value;
    var k := 0;
    assert entries[0..] == entries;
    while k < |entries|
      invariant 0 <= k <= |entries|
      invariant Onto(buf, EntryBytes(t, entries[k..], pv)) == Codec.Serialize(t, MapV(entries), pv)
    {
      FirstEntry(t, entries[k..], pv);
      assert entries[k..][1..] == entries[k + 1..];
      var keybytes := ToBinary(t.key, entries[k].0, Inner(pv));
      var valbytes := ToBinary(t.value, entries[k].1, Inner(pv));
      var keyChunk := WriteChunk(keybytes, pv);
      var valChunk := WriteChunk(valbytes, pv);
      ghost var rest := EntryBytes(t, entries[k + 1..], pv);
      OntoThen(buf, keyChunk, Then(valChunk, rest));
      if keyChunk.None? {
        return None;
      }
      OntoThen(buf + keyChunk.value, valChunk, rest);
      if valChunk.None? {
        return None;
      }
      buf := buf + keyChunk.value + valChunk.value;
      k := k + 1;
    }
    NoEntries(t, pv);
    assert entries[k..] == [] && buf + [] == buf;
    r := Some(buf);
  }

  lemma HeadAndEntries(t: CqlType, entries: seq<(Value, Value)>, pv: int)
    requires t.MapOf?
    ensures Codec.Serialize(t, MapV(entries), pv) ==
            if PackLength(|entries|, pv).None? then None
            else Onto(PackLength(|entries|, pv).value, EntryBytes(t, entries, pv))
  {
    hide PackLength;
  }

  lemma NoEntries(t: CqlType, pv: int)
    requires t.MapOf?
    ensures EntryBytes(t, [], pv) == Some([])
  {
  }

  // ---------------------------------------------------------------- serialising a decoded map

  /** Items of a decoded map with the bytes of their keys. */
  function Zip(wires: seq<ByteString>, items: seq<(Decoded, Decoded)>): (entries: seq<Entry>)
    requires |wires| == |items|
    ensures |entries| == |items|
    ensures forall i :: 0 <= i < |items| ==> entries[i] == Entry(wires[i], items[i].0, items[i].1)
  {
    seq(|items|, i requires 0 <= i < |items| => Entry(wires[i], items[i].0, items[i].1))
  }

  function BytesAgain(t: CqlType, d: Decoded, i: nat, outer: int): Option<ByteString>
    requires t.MapOf? && d.MapD? && i <= |d.entries|
  {
    match PairsAgain(t, d, i, Inner(outer)) case None => None case Some(cs) => WriteChunks(cs, outer)
  }

  lemma NextAgain(t: CqlType, d: Decoded, i: nat, outer: int)
    requires t.MapOf? && d.MapD? && i < |d.entries|
    ensures BytesAgain(t, d, i, outer) ==
            match EntryAgain(t, d, i, Inner(outer))
            case None => None
            case Some((k, c)) =>
              Then(OneChunk(Some(k), outer), Then(OneChunk(Some(c), outer), BytesAgain(t, d, i + 1, outer)))
  {
    hide EntryAgain, PackLength;
    var e, rest := EntryAgain(t, d, i, Inner(outer)), PairsAgain(t, d, i + 1, Inner(outer));
    if e.Some? && rest.Some? {
      FirstChunk(e.value.1, rest.value, outer);
      FirstChunk(e.value.0, [e.value.1] + rest.value, outer);
      assert [e.value.0] + ([e.value.1] + rest.value) == [e.value.0, e.value.1] + rest.value;
    }
  }

  lemma HeadAndAgain(t: CqlType, d: Decoded, pv: int)
    requires t.MapOf? && d.MapD?
    ensures SerializeAgain(t, d, pv) ==
            if PackLength(|d.entries|, pv).None? then None
            else Onto(PackLength(|d.entries|, pv).value, BytesAgain(t, d, 0, pv))
    ensures BytesAgain(t, d, |d.entries|, pv) == Some([])
  {
    hide PackLength;
  }

  /** The item that iteration over a decoded map yields next: its key, and what `themap[key]` gives. */
  method IterateItem(t: CqlType, themap: OrderedMapSerializedKey<Decoded>, k: nat, pv: int)
    returns (r: Option<(ByteString, ByteString)>)
    requires t.MapOf? && themap.Valid() && k < |themap.items|
    ensures r == EntryAgain(t, MapD(themap.keyType, themap.protocolVersion, Zip(themap.wires, themap.items)), k, pv)
  {
    hide SerializeAgain, LastPlace;
    ghost var d := MapD(themap.keyType, themap.protocolVersion, Zip(themap.wires, themap.items));
    assert WiresOf(d.entries) == themap.wires;
    var key := themap.items[k].0;
    var val := themap.GetItem(Handed(key));
    if !val.Found? {
      return None;
    }
    var keybytes := ToBinaryAgain(t.key, key, pv);
    var valbytes := ToBinaryAgain(t.value, val.value, pv);
    r := if keybytes.Some? && valbytes.Some? then Some((keybytes.value, valbytes.value)) else None;
  }

  /** `MapType.serialize_safe` of a decoded map. */
  method SerializeDecodedMap(t: CqlType, themap: OrderedMapSerializedKey<Decoded>, pv: int)
    returns (r: Option<ByteString>)
    requires t.MapOf? && themap.Valid()
    ensures r == SerializeAgain(t, MapD(themap.keyType, themap.protocolVersion, Zip(themap.wires, themap.items)), pv)
  {
    hide EntryAgain, PairsAgain, WriteChunks, PackLength, Inner, BytesAgain, OneChunk, Then, SerializeAgain;
    ghost var d := MapD(themap.keyType, themap.protocolVersion, Zip(themap.wires, themap.items));
    HeadAndAgain(t, d, pv);
    var head := PackLength(|themap.items|, pv);
    if head.None? {
      return None;
    }
    var buf := head.value;
    var k := 0;
    while k < |themap.items|
      invariant 0 <= k <= |themap.items|
      invariant Onto(buf, BytesAgain(t, d, k, pv)) == SerializeAgain(t, d, pv)
    {
      NextAgain(t, d, k, pv);
      var item := IterateItem(t, themap, k, Inner(pv));
      if item.None? {
        return None;
      }
      var keyChunk := WriteChunk(Some(item.value.0), pv);
      var valChunk := WriteChunk(Some(item.value.1), pv);
      ghost var rest := BytesAgain(t, d, k + 1, pv);
      OntoThen(buf, keyChunk, Then(valChunk, rest));
      if keyChunk.None? {
        return None;
      }
      OntoThen(buf + keyChunk.value, valChunk, rest);
      if valChunk.None? {
        return None;
      }
      buf := buf + keyChunk.value + valChunk.value;
      k := k + 1;
    }
    assert buf + [] == buf;
    r := Some(buf);
  }

  // -------------------------------------------------------------------------------- tuples

  function PartBytes(types: seq<CqlType>, parts: seq<Value>, inner: int): Option<ByteString>
    requires |parts| <= |types|
  {
    match ToBinaryParts(types, parts, inner) case None => None case Some(cs) => WriteParts(cs)
  }

  function OnePart(t: CqlType, v: Value, inner: int): Option<ByteString> {
    match EncodedPart(t, v, inner)
    case None => None
    case Some(c) =>
      match PackPartLength(c)
      case None => None
      case Some(len) => Some(len + (if c.Some? then c.value else []))
  }

  lemma FirstPart(types: seq<CqlType>, parts: seq<Value>, inner: int)
    requires parts != [] && |parts| <= |types|
    ensures PartBytes(types, parts, inner) ==
            Then(OnePart(types[0], parts[0], inner), PartBytes(types[1..], parts[1..], inner))
  {
    hide Codec.Serialize, PackPartLength;
    var c, rest := EncodedPart(types[0], parts[0], inner), ToBinaryParts(types[1..], parts[1..], inner);
    if c.Some? && rest.Some? {
      assert ToBinaryParts(types, parts, inner) == Some([c.value] + rest.value);
      assert ([c.value] + rest.value)[1..] == rest.value;
    }
  }

  /** `TupleType.serialize_safe`, for a value that is not too long. */
  method SerializeTuple(types: seq<CqlType>, parts: seq<Value>, pv: int) returns (r: Option<ByteString>)
    requires types != [] && |parts| <= |types|
    ensures r == Codec.Serialize(TupleOf(types), TupleV(parts), pv)
    decreases SizeAll(types), 3
  {
    hide ToBinaryParts, WriteParts, Inner, PartBytes, OnePart, Then, Codec.Serialize;
    ghost var total := PartBytes(types, parts, Inner(pv));
    TupleBytes(types, parts, pv);
    var buf: ByteString := [];
    var k := 0;
    assert types[0..] == types && parts[0..] == parts;
    OntoNothing(total);
    while k < |parts|
      invariant 0 <= k <= |parts|
      invariant Onto(buf, PartBytes(types[k..], parts[k..], Inner(pv))) == total
    {
      FirstPart(types[k..], parts[k..], Inner(pv));
      assert types[k..][1..] == types[k + 1..] && parts[k..][1..] == parts[k + 1..];
      SizeAt(types, k);
      var part := SerializePart(types[k], parts[k], Inner(pv));
      OntoThen(buf, part, PartBytes(types[k + 1..], parts[k + 1..], Inner(pv)));
      if part.None? {
        return None;
      }
      buf := buf + part.value;
      k := k + 1;
    }
    NoParts(types[k..], Inner(pv));
    assert parts[k..] == [] && buf + [] == buf;
    r := Some(buf);
  }

  method SerializePart(t: CqlType, v: Value, inner: int) returns (r: Option<ByteString>)
    ensures r == OnePart(t, v, inner)
    decreases Size(t), 3
  {
    if v == Null {
      MinusOneFits();
      return Some(PackSigned(-1, 4) + []);
    }
    var packed := Serialize(t, v, inner);
    if packed.None? {
      return None;
    }
    var len := PackLength(|packed.value|, 3);
    if len.None? {
      return None;
    }
    r := Some(len.value + packed.value);
  }

  lemma TupleBytes(types: seq<CqlType>, parts: seq<Value>, pv: int)
    requires types != [] && |parts| <= |types|
    ensures Codec.Serialize(TupleOf(types), TupleV(parts), pv) == PartBytes(types, parts, Inner(pv))
  {
  }

  lemma OntoNothing<T>(r: Option<seq<T>>)
    ensures Onto([], r) == r
  {
    if r.Some? { assert [] + r.value == r.value; }
  }

  lemma NoParts(types: seq<CqlType>, inner: int)
    ensures PartBytes(types, [], inner) == Some([])
  {
  }

  // ------------------------------------------------------------------------- deserialising

  method FromBinary(t: CqlType, b: Option<ByteString>, pv: int) returns (r: Option<Value>)
    ensures r == Codec.FromBinary(t, b, pv)
    decreases Size(t), 2
  {
    if b.None? {
      r := Some(Null);
    } else if b.value == [] && !EmptyAllowed(t) {
      r := Some(Null);
    } else {
      r := Deserialize(t, b.value, pv);
    }
  }

  method Deserialize(t: CqlType, b: ByteString, pv: int) returns (r: Option<Value>)
    requires b != [] || EmptyAllowed(t)
    ensures r == Codec.Deserialize(t, b, pv)
    decreases Size(t), 1
  {
    match t
    case Prim(leaf) =>
      var x := DeserializeLeaf(leaf, b);
      r := if x.None? then None else Some(Leaf(x.value));
    case ListOf(element) =>
      var items := DeserializeItems(element, b, pv);
      r := if items.None? then None else Some(ListV(items.value));
    case SetOf(member) =>
      var items := DeserializeItems(Prim(member), b, pv);
      if ReadCollection(b, 1, pv).Some? { ItemsAreMembers(member, ReadCollection(b, 1, pv).value, Inner(pv)); }
      if items.None? || MembersOf(items.value).None? {
        return None;
      }
      var sorted := SortedSetOf(MembersOf(items.value).value);
      r := Some(SetV(sorted));
    case MapOf(_, _) =>
      var themap := DeserializeEntries(t, b, pv);
      r := if themap == null then None else Some(MapV(themap.items));
    case TupleOf(types) =>
      if types == [] {
        return None;
      }
      var parts := DeserializeTuple(types, b, pv);
      r := if parts.None? then None else Some(TupleV(parts.value));
  }

  /** The leaves among which a sorted set sorts; nothing when one is null. */
  function MembersOf(items: seq<Value>): Option<seq<LeafValue>> {
    if items == [] then Some([])
    else if !items[0].Leaf? then None
    else Onto([items[0].leaf], MembersOf(items[1..]))
  }

  lemma {:induction false} ItemsAreMembers(t: LeafType, cs: seq<ByteString>, pv: int)
    ensures LeavesFromBinary(t, cs) ==
            match FromBinaryAll(Prim(t), cs, pv) case None => None case Some(items) => MembersOf(items)
    decreases |cs|
  {
    hide DeserializeLeaf;
    if cs != [] {
      ItemsAreMembers(t, cs[1..], pv);
      var v := Codec.FromBinary(Prim(t), Some(cs[0]), pv);
      var rest := FromBinaryAll(Prim(t), cs[1..], pv);
      if v.Some? && rest.Some? {
        assert ([v.value] + rest.value)[1..] == rest.value;
      }
    }
  }

  /** What the reading loop still yields: `n` items from offset `p` on. */
  function ItemsAt(t: CqlType, b: ByteString, p: int, n: int, outer: int): Option<seq<Value>> {
    match ReadChunks(b, p, n, outer) case None => None case Some(cs) => FromBinaryAll(t, cs, Inner(outer))
  }

  function OneValue(v: Option<Value>, rest: Option<seq<Value>>): Option<seq<Value>> {
    if v.None? then None else Onto([v.value], rest)
  }

  lemma NextItem(t: CqlType, b: ByteString, p: int, n: int, outer: int)
    requires n > 0
    ensures var w := LengthWidth(outer);
            var len := UnpackLength(Slice(b, p, p + w), outer);
            ItemsAt(t, b, p, n, outer) ==
            if len.None? then None
            else OneValue(Codec.FromBinary(t, Some(Slice(b, p + w, p + w + len.value)), Inner(outer)),
                          ItemsAt(t, b, p + w + len.value, n - 1, outer))
  {
    hide Codec.FromBinary, UnpackLength, Slice;
    var w := LengthWidth(outer);
    var len := UnpackLength(Slice(b, p, p + w), outer);
    if len.Some? {
      var c, rest := Slice(b, p + w, p + w + len.value), ReadChunks(b, p + w + len.value, n - 1, outer);
      if rest.Some? { assert ([c] + rest.value)[1..] == rest.value; }
    }
  }

  lemma OntoOne(vs: seq<Value>, v: Option<Value>, rest: Option<seq<Value>>)
    ensures v.Some? ==> Onto(vs + [v.value], rest) == Onto(vs, OneValue(v, rest))
    ensures v.None? ==> Onto(vs, OneValue(v, rest)) == None
  {
    if v.Some? && rest.Some? {
      assert vs + [v.value] + rest.value == vs + ([v.value] + rest.value);
    }
  }

  /** `_SimpleParameterizedType.deserialize_safe`. */
  method DeserializeItems(t: CqlType, b: ByteString, pv: int) returns (r: Option<seq<Value>>)
    ensures r == match ReadCollection(b, 1, pv) case None => None case Some(cs) => FromBinaryAll(t, cs, Inner(pv))
    decreases Size(t), 3
  {
    hide Codec.FromBinary, FromBinaryAll, ReadChunks, UnpackLength, Slice, Inner, ItemsAt, OneValue;
    ghost var total :=
      match ReadCollection(b, 1, pv) case None => None case Some(cs) => FromBinaryAll(t, cs, Inner(pv));
    var length := LengthWidth(pv);
    var numelements := UnpackLength(Slice(b, 0, length), pv);
    if numelements.None? {
      return None;
    }
    var p, result, left: int := length, [], numelements.value;
    FirstRead(t, b, left, pv);
    OntoNothing(total);
    while left > 0
      invariant Onto(result, ItemsAt(t, b, p, left, pv)) == total
    {
      NextItem(t, b, p, left, pv);
      var itemlen := UnpackLength(Slice(b, p, p + length), pv);
      if itemlen.None? {
        return None;
      }
      p := p + length;
      var item := Slice(b, p, p + itemlen.value);
      p := p + itemlen.value;
      var v := FromBinary(t, Some(item), Inner(pv));
      OntoOne(result, v, ItemsAt(t, b, p, left - 1, pv));
      if v.None? {
        return None;
      }
      result := result + [v.value];
      left := left - 1;
    }
    LastRead(t, b, p, left, pv);
    assert result + [] == result;
    r := Some(result);
  }

  lemma FirstRead(t: CqlType, b: ByteString, count: int, pv: int)
    requires UnpackLength(Slice(b, 0, LengthWidth(pv)), pv) == Some(count)
    ensures ItemsAt(t, b, LengthWidth(pv), count, pv) ==
            match ReadCollection(b, 1, pv) case None => None case Some(cs) => FromBinaryAll(t, cs, Inner(pv))
  {
    assert count * 1 == count;
  }

  lemma LastRead(t: CqlType, b: ByteString, p: int, n: int, pv: int)
    requires n <= 0
    ensures ItemsAt(t, b, p, n, pv) == Some([])
  {
  }

  // ---------------------------------------------------------------------------------- maps

  /** The chunks of `n` entries from offset `p` on, read as entries. */
  function EntriesAt(t: CqlType, b: ByteString, p: int, n: int, outer: int): Option<seq<(Value, Value)>>
    requires t.MapOf?
  {
    match ReadChunks(b, p, 2 * n, outer) case None => None case Some(cs) => FromBinaryPairs(t, cs, Inner(outer))
  }

  function OneEntry(k: Option<Value>, v: Option<Value>, rest: Option<seq<(Value, Value)>>)
    : Option<seq<(Value, Value)>>
  {
    if k.None? || v.None? then None else Onto([(k.value, v.value)], rest)
  }

  /** The two chunks at an offset, and the offset after them. */
  datatype TwoChunks = Cut | TwoChunks(key: ByteString, value: ByteString, next: int)

  function ReadTwo(b: ByteString, p: int, outer: int): TwoChunks {
    match ReadOne(b, p, outer)
    case None => Cut
    case Some((key, q)) =>
      match ReadOne(b, q, outer)
      case None => Cut
      case Some((value, next)) => TwoChunks(key, value, next)
  }

  /** The chunk at an offset, and the offset after it. */
  function ReadOne(b: ByteString, p: int, outer: int): Option<(ByteString, int)> {
    var w := LengthWidth(outer);
    match UnpackLength(Slice(b, p, p + w), outer)
    case None => None
    case Some(len) => Some((Slice(b, p + w, p + w + len), p + w + len))
  }

  lemma ReadChunksByOne(b: ByteString, p: int, n: int, outer: int)
    requires n > 0
    ensures ReadChunks(b, p, n, outer) ==
            match ReadOne(b, p, outer)
            case None => None
            case Some((c, q)) => Onto([c], ReadChunks(b, q, n - 1, outer))
  {
    hide UnpackLength, Slice;
  }

  lemma ReadChunksByTwo(b: ByteString, p: int, n: int, outer: int)
    requires n > 0
    ensures ReadChunks(b, p, 2 * n, outer) ==
            match ReadTwo(b, p, outer)
            case Cut => None
            case TwoChunks(k, v, q) => Onto([k, v], ReadChunks(b, q, 2 * (n - 1), outer))
  {
    hide ReadChunks, ReadOne;
    ReadChunksByOne(b, p, 2 * n, outer);
    if ReadOne(b, p, outer).Some? {
      ReadChunksByOne(b, ReadOne(b, p, outer).value.1, 2 * n - 1, outer);
      var two := ReadTwo(b, p, outer);
      if two.TwoChunks? { TwoOnto(two.key, two.value, ReadChunks(b, two.next, 2 * n - 2, outer)); }
    }
  }

  lemma TwoOnto(k: ByteString, v: ByteString, rest: Option<seq<ByteString>>)
    ensures Onto([k], Onto([v], rest)) == Onto([k, v], rest)
  {
    if rest.Some? { assert [k] + ([v] + rest.value) == [k, v] + rest.value; }
  }

  lemma NextEntry(t: CqlType, b: ByteString, p: int, n: int, outer: int)
    requires t.MapOf? && n > 0
    ensures EntriesAt(t, b, p, n, outer) ==
            match ReadTwo(b, p, outer)
            case Cut => None
            case TwoChunks(k, v, q) =>
              OneEntry(Codec.FromBinary(t.key, Some(k), Inner(outer)), Codec.FromBinary(t.value, Some(v), Inner(outer)),
                       EntriesAt(t, b, q, n - 1, outer))
  {
    hide Codec.FromBinary, ReadTwo, ReadChunks;
    ReadChunksByTwo(b, p, n, outer);
    var two := ReadTwo(b, p, outer);
    if two.TwoChunks? {
      var rest := ReadChunks(b, two.next, 2 * (n - 1), outer);
      if rest.Some? { assert ([two.key, two.value] + rest.value)[2..] == rest.value; }
    }
  }

  lemma OntoEntry(es: seq<(Value, Value)>, k: Option<Value>, v: Option<Value>, rest: Option<seq<(Value, Value)>>)
    ensures k.Some? && v.Some? ==> Onto(es + [(k.value, v.value)], rest) == Onto(es, OneEntry(k, v, rest))
    ensures k.None? || v.None? ==> Onto(es, OneEntry(k, v, rest)) == None
  {
    if k.Some? && v.Some? && rest.Some? {
      assert es + [(k.value, v.value)] + rest.value == es + ([(k.value, v.value)] + rest.value);
    }
  }

  /** `MapType.deserialize_safe`: the entries, indexed by the bytes of their keys. */
  method DeserializeEntries(t: CqlType, b: ByteString, pv: int) returns (themap: OrderedMapSerializedKey?<Value>)
    requires t.MapOf?
    ensures themap == null <==> ReadEntries(t, b, pv).None?
    ensures themap != null ==>
              && fresh(themap) && themap.Valid() && themap.keyType == t.key && themap.protocolVersion == pv
              && Some(themap.items) == ReadEntries(t, b, pv)
              && themap.wires == KeyChunks(ReadCollection(b, 2, pv).value)
    decreases Size(t), 0
  {
    hide Codec.FromBinary, FromBinaryPairs, ReadChunks, UnpackLength, Slice, Inner, EntriesAt, OneEntry, ReadTwo,
      KeyChunks;
    hide LastPlace, Codec.Deserialize;
    var length := LengthWidth(pv);
    var numelements := UnpackLength(Slice(b, 0, length), pv);
    FirstEntryRead(t, b, pv);
    if numelements.None? {
      return null;
    }
    var p, left: int := length, numelements.value;
    themap := new OrderedMapSerializedKey<Value>(t.key, pv);
    OntoNothing(ReadEntries(t, b, pv));
    OntoNothing(KeysAt(b, p, left, pv));
    while left > 0
      invariant fresh(themap) && themap.Valid() && themap.keyType == t.key && themap.protocolVersion == pv
      invariant Onto(themap.items, EntriesAt(t, b, p, left, pv)) == ReadEntries(t, b, pv)
      invariant Onto(themap.wires, KeysAt(b, p, left, pv)) == KeysAt(b, length, numelements.value, pv)
    {
      NextEntry(t, b, p, left, pv);
      NextKey(b, p, left, pv);
      var keyBytes, valBytes, next := ReadEntry(b, p, pv);
      if keyBytes.None? {
        return null;
      }
      var key := FromBinary(t.key, Some(keyBytes.value), Inner(pv));
      var val := FromBinary(t.value, Some(valBytes), Inner(pv));
      OntoEntry(themap.items, key, val, EntriesAt(t, b, next, left - 1, pv));
      if key.None? || val.None? {
        return null;
      }
      OntoKey(themap.wires, keyBytes.value, KeysAt(b, next, left - 1, pv));
      themap.InsertUnchecked(key.value, keyBytes.value, val.value);
      p, left := next, left - 1;
    }
    LastEntryRead(t, b, p, left, pv);
    assert themap.items + [] == themap.items && themap.wires + [] == themap.wires;
  }

  /** What the deserialised map holds, in order. */
  function ReadEntries(t: CqlType, b: ByteString, pv: int): Option<seq<(Value, Value)>>
    requires t.MapOf?
  {
    match ReadCollection(b, 2, pv) case None => None case Some(cs) => FromBinaryPairs(t, cs, Inner(pv))
  }

  /** The bytes of the keys of `n` entries from offset `p` on. */
  function KeysAt(b: ByteString, p: int, n: int, outer: int): Option<seq<ByteString>> {
    match ReadChunks(b, p, 2 * n, outer) case None => None case Some(cs) => Some(KeyChunks(cs))
  }

  lemma OntoKey(wires: seq<ByteString>, k: ByteString, rest: Option<seq<ByteString>>)
    ensures Onto(wires + [k], rest) == Onto(wires, Onto([k], rest))
  {
    if rest.Some? { assert wires + [k] + rest.value == wires + ([k] + rest.value); }
  }

  lemma NextKey(b: ByteString, p: int, n: int, outer: int)
    requires n > 0
    ensures KeysAt(b, p, n, outer) ==
            match ReadTwo(b, p, outer)
            case Cut => None
            case TwoChunks(k, _, q) => Onto([k], KeysAt(b, q, n - 1, outer))
  {
    hide ReadTwo, ReadChunks;
    ReadChunksByTwo(b, p, n, outer);
    var two := ReadTwo(b, p, outer);
    if two.TwoChunks? {
      var rest := ReadChunks(b, two.next, 2 * (n - 1), outer);
      if rest.Some? { KeyChunksFirst(two.key, two.value, rest.value); }
    }
  }

  lemma KeyChunksFirst(k: ByteString, v: ByteString, cs: seq<ByteString>)
    requires |cs| % 2 == 0
    ensures KeyChunks([k, v] + cs) == [k] + KeyChunks(cs)
  {
    var all := [k, v] + cs;
    forall i | 0 <= i < |cs| / 2 + 1
      ensures KeyChunks(all)[i] == ([k] + KeyChunks(cs))[i]
    {
      if i > 0 { assert all[2 * i] == cs[2 * (i - 1)]; }
    }
  }

  method ReadEntry(b: ByteString, p: int, outer: int) returns (key: Option<ByteString>, value: ByteString, next: int)
    ensures match ReadTwo(b, p, outer)
            case Cut => key == None
            case TwoChunks(k, v, q) => key == Some(k) && value == v && next == q
  {
    hide UnpackLength, Slice;
    value, next := [], p;
    var length := LengthWidth(outer);
    var keyLen := UnpackLength(Slice(b, p, p + length), outer);
    if keyLen.None? {
      return None, value, next;
    }
    next := p + length;
    var keyBytes := Slice(b, next, next + keyLen.value);
    next := next + keyLen.value;
    var valLen := UnpackLength(Slice(b, next, next + length), outer);
    if valLen.None? {
      return None, value, next;
    }
    next := next + length;
    value := Slice(b, next, next + valLen.value);
    next := next + valLen.value;
    key := Some(keyBytes);
  }

  lemma FirstEntryRead(t: CqlType, b: ByteString, pv: int)
    requires t.MapOf?
    ensures var count := UnpackLength(Slice(b, 0, LengthWidth(pv)), pv);
            if count.None? then ReadEntries(t, b, pv) == None
            else
              && EntriesAt(t, b, LengthWidth(pv), count.value, pv) == ReadEntries(t, b, pv)
              && KeysAt(b, LengthWidth(pv), count.value, pv) ==
                 (match ReadCollection(b, 2, pv) case None => None case Some(cs) => Some(KeyChunks(cs)))
  {
    hide FromBinaryPairs, ReadChunks, KeyChunks;
  }

  lemma LastEntryRead(t: CqlType, b: ByteString, p: int, n: int, pv: int)
    requires t.MapOf? && n <= 0
    ensures EntriesAt(t, b, p, n, pv) == Some([]) && KeysAt(b, p, n, pv) == Some([])
  {
  }

  /** What deserialising the bytes of a map value builds: its entries as they come back, found
      by the bytes its keys were written with. */
  lemma DecodedMap(t: CqlType, entries: seq<(Value, Value)>, pv: int)
    requires t.MapOf? && Codec.Serialize(t, MapV(entries), pv).Some?
    ensures var b := Codec.Serialize(t, MapV(entries), pv).value;
            && ReadEntries(t, b, pv) == Some(SeenPairs(t, entries))
            && ReadCollection(b, 2, pv).Some? && KeyChunks(ReadCollection(b, 2, pv).value) == Wires(t, entries, pv)
  {
    hide ToBinaryPairs, FromBinaryPairs, SeenPairs, WriteCollection, ReadCollection, KeyChunks;
    PairsReadBack(t, entries, Inner(pv));
    CollectionReadsBack(|entries|, 2, ToBinaryPairs(t, entries, Inner(pv)).value, pv);
  }

  /** A map value written, read back, and asked for one of its own keys. */
  method LookUpOwnKey(t: CqlType, entries: seq<(Value, Value)>, pv: int, i: nat) returns (r: Lookup<Value>)
    requires t.MapOf? && KeysComparable(t, pv) && Codec.Serialize(t, MapV(entries), pv).Some? && i < |entries|
    requires forall j :: 0 <= j < |entries| ==> entries[j].0 != Null && Clean(t.key, entries[j].0)
    requires forall j, k :: 0 <= j < k < |entries| ==> entries[j].0 != entries[k].0
    ensures r == Lookup.Found(Seen(t.value, entries[i].1))
  {
    hide Clean, Seen, SeenPairs, ToBinaryPairs, Wires, ReadCollection, ReadEntries;
    var b := Serialize(t, MapV(entries), pv);
    DecodedMap(t, entries, pv);
    OwnKeyPlace(t, entries, pv, i);
    SeenPairAt(t, entries, i);
    var themap := DeserializeEntries(t, b.value, pv);
    r := themap.GetItem(Given(entries[i].0));
  }

  // -------------------------------------------------------------------------------- tuples

  function PartsAt(types: seq<CqlType>, b: ByteString, p: nat, inner: int): Option<seq<Value>> {
    match ReadParts(b, p, |types|) case None => None case Some(cs) => FromBinaryParts(types, cs, inner)
  }

  /** Nothing is left to read: the missing parts are nulls. */
  lemma {:induction false} OnlyNulls(types: seq<CqlType>, inner: int)
    ensures FromBinaryParts(types, [], inner) == Some(seq(|types|, _ => Null))
    decreases |types|
  {
    hide Codec.FromBinary;
    var nulls := seq(|types|, _ => Null);
    if types == [] {
      assert nulls == [];
    } else {
      OnlyNulls(types[1..], inner);
      var rest := FromBinaryParts(types[1..], [], inner).value;
      assert FromBinaryParts(types, [], inner) == Some([Null] + rest);
      assert [Null] + rest == nulls;
    }
  }

  lemma NextPart(types: seq<CqlType>, b: ByteString, p: nat, inner: int)
    requires types != [] && p != |b|
    ensures var len := UnpackLength(Slice(b, p, p + 4), 3);
            PartsAt(types, b, p, inner) ==
            if len.None? then None
            else if len.value >= 0 then
              OneValue(Codec.FromBinary(types[0], Some(Slice(b, p + 4, p + 4 + len.value)), inner),
                       PartsAt(types[1..], b, p + 4 + len.value, inner))
            else OneValue(Codec.FromBinary(types[0], None, inner), PartsAt(types[1..], b, p + 4, inner))
  {
    hide Codec.FromBinary, UnpackLength, Slice;
    var len := UnpackLength(Slice(b, p, p + 4), 3);
    if len.Some? {
      var c := if len.value >= 0 then Some(Slice(b, p + 4, p + 4 + len.value)) else None;
      var rest := ReadParts(b, if len.value >= 0 then p + 4 + len.value else p + 4, |types| - 1);
      if rest.Some? { assert ([c] + rest.value)[1..] == rest.value; }
    }
  }

  /** `TupleType.deserialize_safe`. */
  method DeserializeTuple(types: seq<CqlType>, b: ByteString, pv: int) returns (r: Option<seq<Value>>)
    ensures r == PartsAt(types, b, 0, Inner(pv))
    decreases SizeAll(types), 3
  {
    hide Codec.FromBinary, ReadParts, FromBinaryParts, UnpackLength, Slice, Inner, PartsAt, OneValue;
    var p: nat, values: seq<Value>, k := 0, [], 0;
    assert types[0..] == types;
    OntoNothing(PartsAt(types, b, 0, Inner(pv)));
    while k < |types| && p != |b|
      invariant 0 <= k <= |types| && |values| == k
      invariant Onto(values, PartsAt(types[k..], b, p, Inner(pv))) == PartsAt(types, b, 0, Inner(pv))
      decreases |types| - k
    {
      NextPart(types[k..], b, p, Inner(pv));
      assert types[k..][1..] == types[k + 1..];
      var itemlen := UnpackLength(Slice(b, p, p + 4), 3);
      if itemlen.None? {
        return None;
      }
      p := p + 4;
      var item := None;
      if itemlen.value >= 0 {
        item := Some(Slice(b, p, p + itemlen.value));
        p := p + itemlen.value;
      }
      SizeAt(types, k);
      var v := FromBinary(types[k], item, Inner(pv));
      OntoOne(values, v, PartsAt(types[k + 1..], b, p, Inner(pv)));
      if v.None? {
        return None;
      }
      values := values + [v.value];
      k := k + 1;
    }
    LastPart(types[k..], b, p, Inner(pv));
    if |values| < |types| {
      values := values + seq(|types| - |values|, _ => Null);
    } else {
      assert values + seq(0, _ => Null) == values;
    }
    r := Some(values);
  }

  lemma LastPart(types: seq<CqlType>, b: ByteString, p: nat, inner: int)
    requires types == [] || p == |b|
    ensures PartsAt(types, b, p, inner) == Some(seq(|types|, _ => Null))
  {
    OnlyNulls(types, inner);
  }
}
