/** Leaf types of the CQL codec, and the order in which a decoded set keeps them. */
module CqlLeaves {
  import opened Bits
  import opened Bytes
  import opened Seqs
  import opened Varint
  import opened Frames
  import opened SortedSets
  import Utf8

  /** `int`, `varint`, `blob` and `text`. */
  datatype LeafType = Int32 | VarInt | Blob | Text

  datatype LeafValue = IntV(n: int) | BytesV(bytes: ByteString) | TextV(text: string)

  /** `empty_binary_ok`. */
  predicate EmptyOk(t: LeafType) { t == Blob || t == Text }

  // -------------------------------------------------------------------------------- varint

  function VarintLength(n: int): (k: nat)
    ensures k > 0 && FitsSigned(n, k)
  {
    NegativeLength(if n >= 0 then n else -n - 1);
    BitLength(if n >= 0 then n else -n - 1) / 8 + 1
  }

  /** What `varint_pack` gives. */
  function VarintBytes(n: int): (b: ByteString)
    ensures b != []
  {
    PackSigned(n, VarintLength(n))
  }

  lemma VarintBytesShortest(n: int)
    ensures VarintUnpack(VarintBytes(n)) == n && IsShortest(VarintBytes(n), n)
  {
    hide Pow2, VarintUnpack, IsShortest, PackSigned, BitLength;
    NegativeLength(if n >= 0 then n else -n - 1);
    SignedReadsBack(n, VarintLength(n));
    OutOfReachIsShortest(VarintBytes(n), n);
  }

  method PackVarint(n: int) returns (b: ByteString)
    ensures b == VarintBytes(n)
  {
    b := VarintPack(n);
    VarintBytesShortest(n);
    assert |b| < |VarintBytes(n)| || VarintBytes(n) == b;
    assert |VarintBytes(n)| < |b| || b == VarintBytes(n);
  }

  // -------------------------------------------------------------------------------- leaves

  /** `serialize`; nothing is an exception. */
  function SerializeLeaf(t: LeafType, v: LeafValue): Option<ByteString> {
    match (t, v)
    case (Int32, IntV(n)) => if FitsSigned(n, 4) then Some(PackSigned(n, 4)) else None
    case (VarInt, IntV(n)) => Some(VarintBytes(n))
    case (Blob, BytesV(b)) => Some(b)
    case (Text, TextV(s)) => Some(Utf8.Encode(s))
    case _ => None
  }

  /** `deserialize`, for bytes that are not empty unless the type allows it. */
  function DeserializeLeaf(t: LeafType, b: ByteString): Option<LeafValue>
    requires b != [] || EmptyOk(t)
  {
    match t
    case Int32 => if |b| == 4 then Some(IntV(VarintUnpack(b))) else None
    case VarInt => Some(IntV(VarintUnpack(b)))
    case Blob => Some(BytesV(b))
    case Text => (match Utf8.Decode(b) case None => None case Some(s) => Some(TextV(s)))
  }

  lemma LeafReadsBack(t: LeafType, v: LeafValue)
    requires SerializeLeaf(t, v).Some?
    ensures SerializeLeaf(t, v).value != [] || EmptyOk(t)
    ensures DeserializeLeaf(t, SerializeLeaf(t, v).value) == Some(v)
  {
    hide Pow2, VarintUnpack, PackSigned, VarintBytes, FitsSigned;
    match (t, v)
    case (Int32, IntV(n)) => SignedReadsBack(n, 4);
    case (VarInt, IntV(n)) => VarintBytesShortest(n);
    case (Blob, BytesV(b)) =>
    case (Text, TextV(s)) => Utf8.TextReadsBack(s);
    case _ =>
  }

  // --------------------------------------------------------------------------------- order

  function Codes(s: string): (r: seq<int>)
    ensures |r| == |s| && forall i :: 0 <= i < |s| ==> r[i] == s[i] as int
  {
    seq(|s|, i requires 0 <= i < |s| => s[i] as int)
  }

  function Rank(v: LeafValue): int {
    match v case IntV(_) => 0 case BytesV(_) => 1 case TextV(_) => 2
  }

  function Key(v: LeafValue): seq<int> {
    match v case IntV(n) => [n] case BytesV(b) => b case TextV(s) => Codes(s)
  }

  /** Python's order on sequences. */
  predicate LexLess(s: seq<int>, t: seq<int>) {
    t != [] && (s == [] || s[0] < t[0] || (s[0] == t[0] && LexLess(s[1..], t[1..])))
  }

  /** Numbers by value, byte strings and texts element by element; values of one leaf type are
      all of one kind. */
  predicate Less(a: LeafValue, b: LeafValue) {
    Rank(a) < Rank(b) || (Rank(a) == Rank(b) && LexLess(Key(a), Key(b)))
  }

  lemma {:induction false} LexIrreflexive(s: seq<int>)
    ensures !LexLess(s, s)
  {
    if s != [] { LexIrreflexive(s[1..]); }
  }

  lemma {:induction false} LexTransitive(s: seq<int>, t: seq<int>, u: seq<int>)
    requires LexLess(s, t) && LexLess(t, u)
    ensures LexLess(s, u)
  {
    if s != [] && s[0] == t[0] == u[0] { LexTransitive(s[1..], t[1..], u[1..]); }
  }

  lemma {:induction false} LexTotal(s: seq<int>, t: seq<int>)
    ensures LexLess(s, t) || LexLess(t, s) || s == t
  {
    if s != [] && t != [] && s[0] == t[0] {
      LexTotal(s[1..], t[1..]);
      assert s == [s[0]] + s[1..] && t == [t[0]] + t[1..];
    }
  }

  /** The sequences agree before place i and differ there, the first being smaller. */
  predicate SmallerAt(s: seq<int>, t: seq<int>, i: nat) {
    i < |s| && i < |t| && s[..i] == t[..i] && s[i] < t[i]
  }

  ghost predicate SmallerSomewhere(s: seq<int>, t: seq<int>) { exists i: nat :: SmallerAt(s, t, i) }

  lemma SmallerLater(s: seq<int>, t: seq<int>, i: nat)
    requires s != [] && t != [] && s[0] == t[0]
    ensures SmallerAt(s, t, i + 1) <==> SmallerAt(s[1..], t[1..], i)
  {
    if i < |s[1..]| && i < |t[1..]| {
      assert s[..i + 1] == [s[0]] + s[1..][..i] && t[..i + 1] == [t[0]] + t[1..][..i];
      assert s[1..][..i] == s[..i + 1][1..] && t[1..][..i] == t[..i + 1][1..];
    }
  }

  /** Sequences compare by their first difference, and a beginning comes before the whole. */
  lemma {:induction false} LexMeans(s: seq<int>, t: seq<int>)
    ensures LexLess(s, t) <==> s < t || SmallerSomewhere(s, t)
  {
    if s != [] && t != [] {
      assert s == [s[0]] + s[1..] && t == [t[0]] + t[1..];
      if s[0] == t[0] {
        LexMeans(s[1..], t[1..]);
        SameStart(s, t);
      } else if s[0] < t[0] {
        assert SmallerAt(s, t, 0);
      } else {
        LargerStart(s, t);
      }
    }
  }

  lemma LargerStart(s: seq<int>, t: seq<int>)
    requires s != [] && t != [] && s[0] > t[0]
    ensures !SmallerSomewhere(s, t) && !(s < t)
  {
    forall i: nat ensures !SmallerAt(s, t, i) {
      if 0 < i < |s| && i < |t| { assert s[..i][0] == s[0] && t[..i][0] == t[0]; }
    }
  }

  lemma SameStart(s: seq<int>, t: seq<int>)
    requires s != [] && t != [] && s[0] == t[0]
    ensures SmallerSomewhere(s, t) <==> SmallerSomewhere(s[1..], t[1..])
    ensures s < t <==> s[1..] < t[1..]
  {
    hide SmallerAt;
    assert s == [s[0]] + s[1..] && t == [t[0]] + t[1..];
    if SmallerSomewhere(s, t) {
      var i: nat :| SmallerAt(s, t, i);
      NotAtStart(s, t, i);
      SmallerLater(s, t, i - 1);
    }
    if SmallerSomewhere(s[1..], t[1..]) {
      var i: nat :| SmallerAt(s[1..], t[1..], i);
      SmallerLater(s, t, i);
    }
  }

  lemma NotAtStart(s: seq<int>, t: seq<int>, i: nat)
    requires SmallerAt(s, t, i) && s[0] == t[0]
    ensures i > 0
  {
  }

  /** Numbers are ordered by value, byte strings by bytes, texts by code points. */
  lemma LessMeans(m: int, n: int, b: ByteString, b': ByteString, s: string, s': string)
    ensures Less(IntV(m), IntV(n)) <==> m < n
    ensures Less(BytesV(b), BytesV(b')) <==> b < b' || SmallerSomewhere(b, b')
    ensures Less(TextV(s), TextV(s')) <==> Codes(s) < Codes(s') || SmallerSomewhere(Codes(s), Codes(s'))
  {
    LexMeans(b, b');
    LexMeans(Codes(s), Codes(s'));
    OneNumber(m, n);
    hide LexLess, SmallerSomewhere;
  }

  lemma OneNumber(m: int, n: int)
    ensures LexLess([m], [n]) <==> m < n
  {
    assert [m][1..] == [] && [n][1..] == [];
  }

  lemma KeyInjective(a: LeafValue, b: LeafValue)
    requires Rank(a) == Rank(b) && Key(a) == Key(b)
    ensures a == b
  {
    match (a, b)
    case (IntV(n), IntV(m)) => assert [n][0] == [m][0];
    case (BytesV(s), BytesV(t)) =>
    case (TextV(s), TextV(t)) =>
      forall i | 0 <= i < |s| ensures s[i] == t[i] { assert Codes(s)[i] == Codes(t)[i]; }
      assert s == t;
    case _ =>
  }

  lemma LessIsTotal()
    ensures TotalOrder(Less)
  {
    hide LexLess, Key;
    forall x ensures !Less(x, x) { LexIrreflexive(Key(x)); }
    forall x, y, z | Less(x, y) && Less(y, z) ensures Less(x, z) {
      if Rank(x) == Rank(y) == Rank(z) { LexTransitive(Key(x), Key(y), Key(z)); }
    }
    forall x, y ensures Less(x, y) || Less(y, x) || x == y {
      if Rank(x) == Rank(y) {
        LexTotal(Key(x), Key(y));
        if Key(x) == Key(y) { KeyInjective(x, y); }
      }
    }
  }

  /** Where a sorted set puts one more element. */
  function AddSorted(s: seq<LeafValue>, x: LeafValue): seq<LeafValue> {
    if s == [] then [x]
    else if Less(s[0], x) then [s[0]] + AddSorted(s[1..], x)
    else if s[0] == x then s
    else [x] + s
  }

  /** The elements in order, each once. */
  function Sorted(items: seq<LeafValue>): seq<LeafValue> {
    if items == [] then [] else AddSorted(Sorted(items[..|items| - 1]), items[|items| - 1])
  }

  lemma {:induction false} AddSortedFacts(s: seq<LeafValue>, x: LeafValue)
    requires Increasing(Less, s) && TotalOrder(Less)
    ensures Increasing(Less, AddSorted(s, x)) && Elems(AddSorted(s, x)) == Elems(s) + {x}
  {
    hide Less;
    if s == [] {
      assert Elems([x]) == {x};
    } else if Less(s[0], x) {
      assert Increasing(Less, s[1..]);
      AddSortedFacts(s[1..], x);
      PrependLeast(s[0], AddSorted(s[1..], x), s[1..], x);
      assert s == [s[0]] + s[1..];
      ElemsConcat([s[0]], s[1..]);
      ElemsConcat([s[0]], AddSorted(s[1..], x));
    } else if s[0] == x {
      assert x in Elems(s);
    } else {
      assert Less(x, s[0]);
      forall i | 0 <= i < |s| ensures Less(x, s[i]) {
        if i > 0 { assert Less(s[0], s[i]); }
      }
      ElemsConcat([x], s);
      assert Elems([x]) == {x};
    }
  }

  lemma PrependLeast(least: LeafValue, added: seq<LeafValue>, rest: seq<LeafValue>, x: LeafValue)
    requires Increasing(Less, added) && Elems(added) == Elems(rest) + {x}
    requires Less(least, x) && Increasing(Less, [least] + rest)
    ensures Increasing(Less, [least] + added)
  {
    forall i | 0 <= i < |added| ensures Less(least, added[i]) {
      assert added[i] in Elems(added);
      if added[i] != x {
        var k :| 0 <= k < |rest| && rest[k] == added[i];
        assert ([least] + rest)[k + 1] == rest[k] && ([least] + rest)[0] == least;
      }
    }
  }

  lemma {:induction false} SortedFacts(items: seq<LeafValue>)
    ensures Increasing(Less, Sorted(items)) && Elems(Sorted(items)) == Elems(items)
  {
    hide Less, Increasing, TotalOrder;
    LessIsTotal();
    if items == [] {
      NothingIncreases();
    } else {
      var front, x := items[..|items| - 1], items[|items| - 1];
      SortedFacts(front);
      AddSortedFacts(Sorted(front), x);
      assert items == front + [x];
      ElemsAppend(front, x);
    }
  }

  lemma NothingIncreases()
    ensures Increasing<LeafValue>(Less, [])
  {
  }

  /** Sorting leaves an increasing sequence alone, and no other. */
  lemma SortedFixes(items: seq<LeafValue>)
    ensures Sorted(items) == items <==> Increasing(Less, items)
  {
    SortedFacts(items);
    LessIsTotal();
    if Increasing(Less, items) { Canonical(Less, Sorted(items), items); }
  }

  /** `util.sortedset(items)`. */
  method SortedSetOf(items: seq<LeafValue>) returns (sorted: seq<LeafValue>)
    ensures sorted == Sorted(items)
  {
    LessIsTotal();
    var s := new SortedSet<LeafValue>(Less);
    s.Update(items);
    SortedFacts(items);
    Canonical(Less, s.items, Sorted(items));
    sorted := s.items;
  }
}
