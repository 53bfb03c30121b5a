/** `KeyspaceMetadata.user_type_strings`: export the user types of a keyspace so that a type
    comes after the types its fields mention. */
module UserTypes {
  import opened Seqs

  import opened CqlTypeNames

  /** The CQL types of the fields, as text. */
  datatype UserType = UserType(fieldTypes: seq<string>)

  type Types = map<string, UserType>

  /** The scanner finds the name in one of the fields. */
  ghost predicate Mentions(t: UserType, name: string) {
    exists f :: 0 <= f < |t.fieldTypes| && name in CqlTypesFromString(t.fieldTypes[f])
  }

  /** Every type of the keyspace that an exported type mentions is exported before it. */
  ghost predicate Ordered(types: Types, output: seq<string>) {
    forall i, d :: 0 <= i < |output| && output[i] in types && d in types && Mentions(types[output[i]], d)
                   ==> d in output[..i]
  }

  /** A rank that falls along every mention: the mentions have no cycle. */
  ghost predicate Ranks(types: Types, rank: map<string, nat>) {
    && (forall k :: k in types ==> k in rank)
    && (forall k, d :: k in types && d in types && Mentions(types[k], d) ==> rank[d] < rank[k])
  }

  ghost predicate Acyclic(types: Types) {
    exists rank :: Ranks(types, rank)
  }

  /** What is left and what is out are apart. */
  ghost predicate Consistent(types: Types, left: Types, output: seq<string>) {
    && Distinct(output)
    && (forall k :: k in left ==> k in types && types[k] == left[k])
    && (forall k :: k in output ==> k in types && k !in left)
  }

  /** The types being resolved: neither left nor out. */
  ghost function OpenOf(types: Types, left: Types, output: seq<string>): set<string> {
    set k | k in types && k !in left && k !in output
  }

  lemma Pop(types: Types, left: Types, output: seq<string>, key: string)
    requires Consistent(types, left, output) && key in left
    ensures key in types && types[key] == left[key]
    ensures Consistent(types, left - {key}, output)
    ensures key !in OpenOf(types, left, output)
    ensures OpenOf(types, left - {key}, output) == OpenOf(types, left, output) + {key}
  {
  }

  lemma NotLeft(types: Types, left: Types, output: seq<string>, key: string)
    requires key in OpenOf(types, left, output)
    ensures key !in left
  {
  }

  lemma Emit(types: Types, left: Types, output: seq<string>, key: string)
    requires Consistent(types, left, output) && key in OpenOf(types, left, output)
    ensures Consistent(types, left, output + [key])
    ensures OpenOf(types, left, output + [key]) == OpenOf(types, left, output) - {key}
  {
  }

  // ------------------------------------------------------------------- the order of the export

  /** What is left of the dictionary, and what is in the list. */
  datatype Progress = Progress(left: Types, output: seq<string>)

  /** `resolve_user_types`. */
  function Resolved(p: Progress, key: string): (r: Progress)
    requires key in p.left
    ensures r.left.Keys < p.left.Keys
    decreases |p.left|, 0
  {
    var left := p.left - {key};
    Popped(p.left, left, key);
    Smaller(left.Keys, p.left.Keys);
    var r := ResolvedFields(p.(left := left), p.left[key].fieldTypes);
    r.(output := r.output + [key])
  }

  function ResolvedFields(p: Progress, fields: seq<string>): (r: Progress)
    ensures r.left.Keys <= p.left.Keys
    decreases |p.left|, 2, |fields|
  {
    if fields == [] then p
    else
      var q := ResolvedFields(p, fields[..|fields| - 1]);
      SubsetSize(q.left.Keys, p.left.Keys);
      ResolvedNames(q, CqlTypesFromString(fields[|fields| - 1]))
  }

  function ResolvedNames(p: Progress, names: seq<string>): (r: Progress)
    ensures r.left.Keys <= p.left.Keys
    decreases |p.left|, 1, |names|
  {
    if names == [] then p
    else
      var q := ResolvedNames(p, names[..|names| - 1]);
      SubsetSize(q.left.Keys, p.left.Keys);
      ResolvedIfLeft(q, names[|names| - 1])
  }

  function ResolvedIfLeft(p: Progress, name: string): (r: Progress)
    ensures r.left.Keys <= p.left.Keys
    decreases |p.left|, 1, 0
  {
    if name in p.left then Resolved(p, name) else p
  }

  /** The loop of `user_type_strings` over the sorted names. */
  function ResolvedKeys(p: Progress, keys: seq<string>): Progress {
    if keys == [] then p else ResolvedIfLeft(ResolvedKeys(p, keys[..|keys| - 1]), keys[|keys| - 1])
  }

  /** The list and the dictionary that the recursion works on. `types` is the whole keyspace. */
  class Exporter {
    ghost const types: Types
    var userTypes: Types
    var output: seq<string>

    constructor (types: Types)
      ensures this.types == userTypes == types && output == [] && Valid()
    {
      this.types := types;
      this.userTypes := types;
      this.output := [];
    }

    ghost predicate Valid()
      reads this
    {
      Consistent(types, userTypes, output)
    }

    ghost function Open(): set<string>
      reads this
    {
      OpenOf(types, userTypes, output)
    }

    ghost function Now(): Progress
      reads this
    {
      Progress(userTypes, output)
    }

    /** With a rank to go by, what is out is in order. */
    ghost predicate InOrder(rank: map<string, nat>)
      reads this
    {
      Ranks(types, rank) ==> Ordered(types, output)
    }

    /** `resolve_user_types`. */
    method Resolve(key: string, ghost rank: map<string, nat>)
      requires Valid() && key in userTypes
      requires InOrder(rank) && (Ranks(types, rank) ==> Above(rank, Open(), key))
      modifies this
      ensures Valid() && Open() == old(Open()) && key in output && key !in userTypes
      ensures userTypes.Keys < old(userTypes.Keys) && old(output) <= output
      ensures InOrder(rank) && Now() == Resolved(old(Now()), key)
      decreases |userTypes|, 0
    {
      hide Ranks, Ordered, Mentions, Consistent, OpenOf, AllOut, Above, Resolved, ResolvedNames, ResolvedFields,
        CqlTypesFromString;
      ResolvedIs(Now(), key);
      Pop(types, userTypes, output, key);
      var userType := userTypes[key];
      userTypes := userTypes - {key};
      Popped(old(userTypes), userTypes, key);
      Smaller(userTypes.Keys, old(userTypes.Keys));
      ghost var open := Open();
      assert open - {key} == old(Open());
      ResolveFields(key, userType, rank, open);
      if Ranks(types, rank) {
        OrderedAppend(types, output, key);
      }
      Emit(types, userTypes, output, key);
      NotLeft(types, userTypes, output, key);
      output := output + [key];
    }

    /** The loop over the fields of one type. */
    method ResolveFields(ghost key: string, userType: UserType, ghost rank: map<string, nat>, ghost open: set<string>)
      requires Valid() && Open() == open && InOrder(rank) && key in types && types[key] == userType
      requires Ranks(types, rank) ==> Above(rank, open - {key}, key)
      modifies this
      ensures Valid() && Open() == open && InOrder(rank)
      ensures userTypes.Keys <= old(userTypes.Keys) && old(output) <= output
      ensures Ranks(types, rank) ==>
                forall g :: 0 <= g < |userType.fieldTypes| ==>
                  AllOut(types, CqlTypesFromString(userType.fieldTypes[g]), output)
      ensures Now() == ResolvedFields(old(Now()), userType.fieldTypes)
      decreases |userTypes|, 2
    {
      hide Ranks, Ordered, Mentions, Consistent, OpenOf, AllOut, Above, Resolved, ResolvedNames, ResolvedFields,
        CqlTypesFromString;
      NoFields(Now());
      for f := 0 to |userType.fieldTypes|
        invariant Valid() && Open() == open && InOrder(rank)
        invariant userTypes.Keys <= old(userTypes.Keys) && old(output) <= output
        invariant Now() == ResolvedFields(old(Now()), userType.fieldTypes[..f])
        invariant Ranks(types, rank) ==>
                    forall g :: 0 <= g < f ==> AllOut(types, CqlTypesFromString(userType.fieldTypes[g]), output)
      {
        SubsetSize(userTypes.Keys, old(userTypes.Keys));
        FieldBelow(types, rank, open, key, f);
        ghost var before := output;
        NextField(old(Now()), userType.fieldTypes, f);
        ResolveField(userType.fieldTypes[f], rank, open);
        AllOutGrows(types, userType, before, output, f);
      }
      assert userType.fieldTypes[..|userType.fieldTypes|] == userType.fieldTypes;
    }

    /** The loop over the names that the scanner finds in one field. */
    method ResolveField(typeName: string, ghost rank: map<string, nat>, ghost open: set<string>)
      requires Valid() && Open() == open && InOrder(rank)
      requires Ranks(types, rank) ==> AllAbove(types, rank, open, CqlTypesFromString(typeName))
      modifies this
      ensures Valid() && Open() == open && InOrder(rank)
      ensures userTypes.Keys <= old(userTypes.Keys) && old(output) <= output
      ensures Ranks(types, rank) ==> AllOut(types, CqlTypesFromString(typeName), output)
      ensures Now() == ResolvedNames(old(Now()), CqlTypesFromString(typeName))
      decreases |userTypes|, 1
    {
      hide Ranks, Ordered, CqlTypesFromString, Resolved, ResolvedNames, Above, AllAbove, Consistent, OpenOf, AllOut;
      var names := CqlTypesFromString(typeName);
      NoNames(Now());
      NoneOut(types, names, output);
      for n := 0 to |names|
        invariant Valid() && Open() == open && InOrder(rank)
        invariant userTypes.Keys <= old(userTypes.Keys) && old(output) <= output
        invariant Ranks(types, rank) ==> AllOut(types, names[..n], output)
        invariant Now() == ResolvedNames(old(Now()), names[..n])
      {
        ghost var before := output;
        var subType := names[n];
        NextName(old(Now()), names, n);
        LeftOutOrOpen(types, userTypes, output, subType);
        if Ranks(types, rank) && subType in types { IsAbove(types, rank, open, names, n); }
        if subType in userTypes {
          SubsetSize(userTypes.Keys, old(userTypes.Keys));
          Resolve(subType, rank);
        }
        if Ranks(types, rank) { OneMoreOut(types, names, before, output, n); }
      }
      assert names[..|names|] == names;
    }
  }

  lemma NoneOut(types: Types, names: seq<string>, output: seq<string>)
    ensures names[..0] == [] && AllOut(types, names[..0], output)
  {
  }

  lemma LeftOutOrOpen(types: Types, left: Types, output: seq<string>, name: string)
    requires Consistent(types, left, output)
    ensures name in left ==> name in types
    ensures name in types ==> name in left || name in output || name in OpenOf(types, left, output)
  {
  }

  lemma OneMoreOut(types: Types, names: seq<string>, before: seq<string>, output: seq<string>, n: nat)
    requires n < |names| && before <= output && AllOut(types, names[..n], before)
    requires names[n] in types ==> names[n] in output
    ensures AllOut(types, names[..n + 1], output)
  {
    assert forall m :: 0 <= m < n ==> names[..n][m] == names[..n + 1][m];
    assert forall x :: x in before ==> x in output;
  }

  lemma ResolvedIs(p: Progress, key: string)
    requires key in p.left
    ensures var r := ResolvedFields(Progress(p.left - {key}, p.output), p.left[key].fieldTypes);
            Resolved(p, key) == Progress(r.left, r.output + [key])
  {
  }

  lemma NoFields(p: Progress)
    ensures ResolvedFields(p, []) == p
  {
  }

  lemma NextField(p: Progress, fields: seq<string>, f: nat)
    requires f < |fields|
    ensures fields[..0] == []
    ensures ResolvedFields(p, fields[..f + 1]) ==
            ResolvedNames(ResolvedFields(p, fields[..f]), CqlTypesFromString(fields[f]))
  {
    hide ResolvedNames;
    assert fields[..f + 1][..f] == fields[..f];
  }

  lemma NoNames(p: Progress)
    ensures ResolvedNames(p, []) == p
  {
  }

  lemma NextName(p: Progress, names: seq<string>, n: nat)
    requires n < |names|
    ensures ResolvedNames(p, names[..n + 1]) == ResolvedIfLeft(ResolvedNames(p, names[..n]), names[n])
  {
    hide Resolved;
    assert names[..n + 1][..n] == names[..n];
  }

  /** Every type being resolved ranks above the key. */
  ghost predicate Above(rank: map<string, nat>, open: set<string>, key: string) {
    key in rank && forall k :: k in open ==> k in rank && rank[key] < rank[k]
  }

  ghost predicate AllAbove(types: Types, rank: map<string, nat>, open: set<string>, names: seq<string>) {
    forall n :: 0 <= n < |names| && names[n] in types ==> Above(rank, open, names[n])
  }

  lemma IsAbove(types: Types, rank: map<string, nat>, open: set<string>, names: seq<string>, n: nat)
    requires n < |names| && names[n] in types && AllAbove(types, rank, open, names)
    ensures Above(rank, open, names[n]) && names[n] !in open
  {
  }

  ghost predicate AllOut(types: Types, names: seq<string>, output: seq<string>) {
    forall n :: 0 <= n < |names| && names[n] in types ==> names[n] in output
  }

  /** What a type mentions ranks below it, and so below everything being resolved. */
  lemma FieldBelow(types: Types, rank: map<string, nat>, open: set<string>, key: string, f: nat)
    requires key in types && f < |types[key].fieldTypes|
    requires Ranks(types, rank) ==> Above(rank, open - {key}, key)
    ensures Ranks(types, rank) ==> AllAbove(types, rank, open, CqlTypesFromString(types[key].fieldTypes[f]))
  {
    hide CqlTypesFromString;
    if Ranks(types, rank) {
      var names := CqlTypesFromString(types[key].fieldTypes[f]);
      forall n | 0 <= n < |names| && names[n] in types ensures Above(rank, open, names[n]) {
        assert Mentions(types[key], names[n]);
      }
    }
  }

  lemma AllOutGrows(types: Types, t: UserType, before: seq<string>, output: seq<string>, f: nat)
    requires before <= output && f <= |t.fieldTypes|
    ensures (forall g :: 0 <= g < f ==> AllOut(types, CqlTypesFromString(t.fieldTypes[g]), before)) ==>
            (forall g :: 0 <= g < f ==> AllOut(types, CqlTypesFromString(t.fieldTypes[g]), output))
  {
    hide CqlTypesFromString;
    assert forall x :: x in before ==> x in output;
  }

  lemma Popped(before: Types, after: Types, key: string)
    requires key in before && after == before - {key}
    ensures after.Keys < before.Keys
  {
    assert key in before.Keys && key !in after.Keys;
  }

  lemma Smaller(a: set<string>, b: set<string>)
    requires a < b
    ensures |a| < |b|
  {
    SubsetSize(a, b);
  }

  lemma OrderedAppend(types: Types, output: seq<string>, key: string)
    requires Ordered(types, output) && key in types
    requires forall g :: 0 <= g < |types[key].fieldTypes| ==>
               AllOut(types, CqlTypesFromString(types[key].fieldTypes[g]), output)
    ensures Ordered(types, output + [key])
  {
    hide CqlTypesFromString;
    forall d | d in types && Mentions(types[key], d) ensures d in output {
      var f :| 0 <= f < |types[key].fieldTypes| && d in CqlTypesFromString(types[key].fieldTypes[f]);
      assert AllOut(types, CqlTypesFromString(types[key].fieldTypes[f]), output);
    }
    var longer := output + [key];
    forall i, d | 0 <= i < |longer| && longer[i] in types && d in types && Mentions(types[longer[i]], d)
      ensures d in longer[..i]
    {
      if i < |output| {
        assert longer[..i] == output[..i];
      } else {
        assert longer[..i] == output;
      }
    }
  }

  /** `user_type_strings`: `keys` are the type names, sorted. Every type is exported exactly
      once, and the order respects the mentions exactly when it can: when they have no cycle. */
  method UserTypeStrings(types: Types, keys: seq<string>) returns (output: seq<string>)
    requires Elems(keys) == types.Keys
    ensures Distinct(output) && Elems(output) == types.Keys
    ensures Ordered(types, output) <==> Acyclic(types)
    ensures output == ResolvedKeys(Progress(types, []), keys).output
  {
    hide Ranks, Ordered, Consistent, Resolved;
    var e := new Exporter(types);
    ghost var rank := map[];
    if Acyclic(types) {
      rank := SomeRank(types);
    }
    StartOrdered(types);
    StartOpen(types);
    for i := 0 to |keys|
      invariant e.Valid() && e.types == types && e.Open() == {} && e.InOrder(rank)
      invariant forall j :: 0 <= j < i ==> keys[j] !in e.userTypes
      invariant e.Now() == ResolvedKeys(Progress(types, []), keys[..i])
    {
      assert keys[..i + 1][..i] == keys[..i];
      if keys[i] in e.userTypes {
        RankHas(types, rank, e.userTypes, e.output, keys[i]);
        e.Resolve(keys[i], rank);
      }
    }
    assert keys[..|keys|] == keys;
    output := e.output;
    AllExported(types, keys, e.userTypes, output);
    if Ordered(types, output) {
      OrderIsRank(types, output);
    }
  }

  lemma SomeRank(types: Types) returns (rank: map<string, nat>)
    requires Acyclic(types)
    ensures Ranks(types, rank)
  {
    rank :| Ranks(types, rank);
  }

  lemma StartOrdered(types: Types)
    ensures Ordered(types, [])
  {
  }

  lemma StartOpen(types: Types)
    ensures OpenOf(types, types, []) == {}
  {
  }

  lemma RankHas(types: Types, rank: map<string, nat>, left: Types, output: seq<string>, key: string)
    requires Consistent(types, left, output) && key in left
    ensures Ranks(types, rank) ==> Above(rank, {}, key)
  {
  }

  lemma AllExported(types: Types, keys: seq<string>, left: Types, output: seq<string>)
    requires Consistent(types, left, output) && OpenOf(types, left, output) == {} && Elems(keys) == types.Keys
    requires forall j :: 0 <= j < |keys| ==> keys[j] !in left
    ensures Distinct(output) && Elems(output) == types.Keys
  {
    forall k | k in types ensures k in output {
      assert k in Elems(keys);
      assert k !in OpenOf(types, left, output);
    }
  }

  function IndexOf(s: seq<string>, x: string): (i: nat)
    requires x in s
    ensures i < |s| && s[i] == x && x !in s[..i]
  {
    if s[0] == x then 0
    else
      var i := IndexOf(s[1..], x) + 1;
      assert s[..i] == [s[0]] + s[1..][..i - 1];
      i
  }

  lemma {:induction false} EarlierIndex(s: seq<string>, x: string, i: nat)
    requires i <= |s| && x in s[..i]
    ensures x in s && IndexOf(s, x) < i
  {
    if s[0] != x {
      assert s[..i] == [s[0]] + s[1..][..i - 1];
      EarlierIndex(s[1..], x, i - 1);
    }
  }

  /** An order that respects the mentions is itself a rank. */
  lemma OrderIsRank(types: Types, output: seq<string>)
    requires Ordered(types, output) && Elems(output) == types.Keys
    ensures Acyclic(types)
  {
    forall k | k in types ensures k in output { assert k in Elems(output); }
    var rank := map k | k in types :: IndexOf(output, k) as nat;
    forall k, d | k in types && d in types && Mentions(types[k], d) ensures rank[d] < rank[k] {
      var i := IndexOf(output, k);
      assert d in output[..i];
      EarlierIndex(output, d, i);
    }
    assert Ranks(types, rank);
  }

  // ------------------------------------------------------------------ what the fields really use

  /** The user types of a keyspace, by the types of their fields. */
  type Declared = map<string, seq<TypeExpr>>

  function PrintedFields(fields: seq<TypeExpr>): (r: seq<string>)
    ensures |r| == |fields| && forall f :: 0 <= f < |fields| ==> r[f] == Print(fields[f])
  {
    seq(|fields|, f requires 0 <= f < |fields| => Print(fields[f]))
  }

  function Printed(decl: Declared): Types {
    map k | k in decl :: UserType(PrintedFields(decl[k]))
  }

  ghost predicate Uses(fields: seq<TypeExpr>, d: string) {
    exists f :: 0 <= f < |fields| && d in Parts(fields[f])
  }

  ghost predicate AllReadable(decl: Declared) {
    forall k, f :: k in decl && 0 <= f < |decl[k]| ==> Legal(decl[k][f]) && Readable(decl[k][f])
  }

  /** Every type is exported after the types that it uses. */
  ghost predicate InUseOrder(decl: Declared, output: seq<string>) {
    forall i, d :: 0 <= i < |output| && output[i] in decl && d in decl && Uses(decl[output[i]], d) ==> d in output[..i]
  }

  ghost predicate UseRanks(decl: Declared, rank: map<string, nat>) {
    && (forall k :: k in decl ==> k in rank)
    && (forall k, d :: k in decl && d in decl && Uses(decl[k], d) ==> rank[d] < rank[k])
  }

  ghost predicate NoUseCycle(decl: Declared) {
    exists rank :: UseRanks(decl, rank)
  }

  lemma ReadableUses(decl: Declared, k: string, d: string)
    requires AllReadable(decl) && k in decl
    ensures Mentions(Printed(decl)[k], d) <==> Uses(decl[k], d)
  {
    hide CqlTypesFromString, Parts, Print, Legal, Readable;
    var t := Printed(decl)[k];
    if Mentions(t, d) {
      var f :| 0 <= f < |t.fieldTypes| && d in CqlTypesFromString(t.fieldTypes[f]);
      ReadsExactlyTheReadable(decl[k][f]);
    }
    if Uses(decl[k], d) {
      var f :| 0 <= f < |decl[k]| && d in Parts(decl[k][f]);
      ReadsExactlyTheReadable(decl[k][f]);
      assert d in CqlTypesFromString(t.fieldTypes[f]);
    }
  }

  lemma ReadableOrder(decl: Declared, output: seq<string>)
    requires AllReadable(decl)
    ensures Ordered(Printed(decl), output) <==> InUseOrder(decl, output)
    ensures Acyclic(Printed(decl)) <==> NoUseCycle(decl)
  {
    hide Mentions, Uses, AllReadable, PrintedFields;
    forall k, d | k in decl
      ensures Mentions(Printed(decl)[k], d) <==> Uses(decl[k], d)
    {
      ReadableUses(decl, k, d);
    }
    if Acyclic(Printed(decl)) {
      var rank :| Ranks(Printed(decl), rank);
      assert UseRanks(decl, rank);
    }
    if NoUseCycle(decl) {
      var rank :| UseRanks(decl, rank);
      assert Ranks(Printed(decl), rank);
    }
  }

  /** `user_type_strings` over types with readable fields: each exported once, and after all the
      types it uses exactly when the uses have no cycle. */
  method ExportDeclared(decl: Declared, keys: seq<string>) returns (output: seq<string>)
    requires Elems(keys) == decl.Keys
    ensures Distinct(output) && Elems(output) == decl.Keys
    ensures AllReadable(decl) ==> (InUseOrder(decl, output) <==> NoUseCycle(decl))
    ensures output == ResolvedKeys(Progress(Printed(decl), []), keys).output
  {
    hide Ordered, Acyclic, InUseOrder, NoUseCycle, AllReadable, ResolvedKeys;
    output := UserTypeStrings(Printed(decl), keys);
    if AllReadable(decl) { ReadableOrder(decl, output); }
  }

  const FROZEN_B := map["a" := [Named("frozen", [Named("frozen_b", [])])], "frozen_b" := [Named("int", [])]]

  lemma FoundInFrozenB()
    ensures CqlTypesFromString("frozen<frozen_b>") == ["_b"] && CqlTypesFromString("int") == ["int"]
  {
    hide CqlTypesFromString;
    ScanNothing();
    ScanSkipped('>', "");
    ScanName("_b", ">");
    ScanFrozen("_b>");
    ScanSkipped('<', "frozen_b>");
    ScanFrozen("<frozen_b>");
    ScanName("int", "");
    assert "_b" + ">" == "_b>" && FROZEN + "_b>" == "frozen_b>" && ['<'] + "frozen_b>" == "<frozen_b>" &&
           FROZEN + "<frozen_b>" == "frozen<frozen_b>" && "int" + "" == "int" && ['>'] + "" == ">";
  }

  /** A type with one field whose one name is not left is exported at once. */
  lemma NothingToResolve(p: Progress, key: string, field: string, name: string)
    requires key in p.left && p.left[key].fieldTypes == [field] && CqlTypesFromString(field) == [name]
    requires name !in p.left
    ensures Resolved(p, key) == Progress(p.left - {key}, p.output + [key])
  {
    hide CqlTypesFromString, Resolved, ResolvedNames, ResolvedFields;
    ResolvedIs(p, key);
    var q := Progress(p.left - {key}, p.output);
    NoFields(q);
    NextField(q, [field], 0);
    NoNames(q);
    NextName(q, [name], 0);
    assert [field][..1] == [field] && [field][..0] == [] && [name][..1] == [name] && [name][..0] == [];
  }

  lemma FrozenNameExported()
    ensures ResolvedKeys(Progress(Printed(FROZEN_B), []), ["a", "frozen_b"]).output == ["a", "frozen_b"]
  {
    hide CqlTypesFromString, Resolved;
    var types, keys := Printed(FROZEN_B), ["a", "frozen_b"];
    FoundInFrozenB();
    PrintedFrozenB();
    var p := Progress(types, []);
    var q := Progress(types - {"a"}, ["a"]);
    NothingToResolve(p, "a", "frozen<frozen_b>", "_b");
    assert p.output + ["a"] == ["a"];
    NothingToResolve(q, "frozen_b", "int", "int");
    assert q.output + ["frozen_b"] == keys;
    assert keys[..1] == ["a"] && ["a"][..0] == [];
    assert ResolvedKeys(p, []) == p;
    assert ResolvedKeys(p, ["a"]) == q;
  }

  lemma PrintedFrozenB()
    ensures Printed(FROZEN_B)["a"].fieldTypes == ["frozen<frozen_b>"]
    ensures Printed(FROZEN_B)["frozen_b"].fieldTypes == ["int"]
    ensures Printed(FROZEN_B).Keys == {"a", "frozen_b"}
  {
    var b := Named("frozen_b", []);
    assert Print(b) == "frozen_b";
    assert PrintAll([b]) == Print(b);
    assert Print(Named("frozen", [b])) == "frozen" + "<" + "frozen_b" + ">" == "frozen<frozen_b>";
    assert Print(Named("int", [])) == "int";
    assert Printed(FROZEN_B)["a"].fieldTypes[0] == "frozen<frozen_b>";
    assert Printed(FROZEN_B)["frozen_b"].fieldTypes[0] == "int";
  }

  lemma PartsOfFrozenB()
    ensures Parts(Named("frozen", [Named("frozen_b", [])])) == ["frozen_b"] && Parts(Named("int", [])) == ["int"]
  {
    var b := Named("frozen_b", []);
    assert [b][1..] == [];
    assert PartsOfAll([]) == [];
    assert Parts(b) == ["frozen_b"];
    assert PartsOfAll([b]) == ["frozen_b"] + [];
  }

  lemma FrozenBHasNoCycle()
    ensures NoUseCycle(FROZEN_B)
  {
    PartsOfFrozenB();
    hide Parts;
    var rank := map["a" := 1, "frozen_b" := 0];
    assert "int" != "a" && "int" != "frozen_b";
    assert UseRanks(FROZEN_B, rank);
  }

  /** A type called `frozen_b` is not found in `frozen<frozen_b>`: the type that uses it is exported
      first, though nothing forces it to be. */
  lemma FrozenNameOutOfOrder()
    ensures NoUseCycle(FROZEN_B)
    ensures var output := ResolvedKeys(Progress(Printed(FROZEN_B), []), ["a", "frozen_b"]).output;
            output == ["a", "frozen_b"] && !InUseOrder(FROZEN_B, output)
  {
    hide ResolvedKeys, Parts, NoUseCycle, Printed;
    FrozenBHasNoCycle();
    FrozenNameExported();
    PartsOfFrozenB();
    var output := ["a", "frozen_b"];
    assert Uses(FROZEN_B["a"], "frozen_b") by { assert "frozen_b" in Parts(FROZEN_B["a"][0]); }
    assert output[0] == "a" && "frozen_b" !in output[..0];
  }
}
