/** CQL type names as the schema tables give them, and `cql_types_from_string`, which picks the names
    out of one. */
module CqlTypeNames {
  import opened Seqs

  const FROZEN := "frozen"

  // --------------------------------------------------------------------------- the scanner

  predicate IsNameChar(c: char) {
    'a' <= c <= 'z' || 'A' <= c <= 'Z' || '0' <= c <= '9' || c == '_'
  }

  predicate IsSkipped(c: char) {
    c == ' ' || c == ',' || c == '<' || c == '>' || c == '\t' || c == '\n' || c == '\r' || c == '\U{000b}' ||
    c == '\U{000c}'
  }

  function NameLength(s: string): (n: nat)
    ensures n <= |s| && (s != "" && IsNameChar(s[0]) ==> n > 0)
  {
    if s == "" || !IsNameChar(s[0]) then 0 else 1 + NameLength(s[1..])
  }

  /** `cql_types_from_string`. The alternatives are tried in order, so `frozen` is skipped wherever
      the rest of the text starts with it; a character that fits none ends the scan, and what is
      left of the text is ignored. */
  function CqlTypesFromString(s: string): (names: seq<string>)
    decreases |s|
  {
    if s == "" then []
    else if FROZEN <= s then CqlTypesFromString(s[|FROZEN|..])
    else if IsNameChar(s[0]) then [s[..NameLength(s)]] + CqlTypesFromString(s[NameLength(s)..])
    else if IsSkipped(s[0]) then CqlTypesFromString(s[1..])
    else []
  }

  // --------------------------------------------------------------------------- type names

  /** A CQL type: a name with its parameters, or a quoted name of a user type. */
  datatype TypeExpr = Named(name: string, args: seq<TypeExpr>) | Quoted(name: string)

  predicate IsName(name: string) {
    name != "" && forall c <- name :: IsNameChar(c)
  }

  /** Names that need no quotes are written without. */
  predicate Legal(e: TypeExpr)
    decreases e, 1
  {
    e.Named? ==> IsName(e.name) && LegalAll(e.args)
  }

  predicate LegalAll(es: seq<TypeExpr>)
    decreases es, 0
  {
    es == [] || (Legal(es[0]) && LegalAll(es[1..]))
  }

  function Print(e: TypeExpr): string
    decreases e, 1
  {
    match e
    case Quoted(name) => "\"" + name + "\""
    case Named(name, args) => if args == [] then name else name + "<" + PrintAll(args) + ">"
  }

  function PrintAll(es: seq<TypeExpr>): string
    decreases es, 0
  {
    if es == [] then "" else if |es| == 1 then Print(es[0]) else Print(es[0]) + ", " + PrintAll(es[1..])
  }

  /** The types a type is made of: `frozen<...>` is no type of its own. */
  function Parts(e: TypeExpr): seq<string>
    decreases e, 1
  {
    match e
    case Quoted(name) => [name]
    case Named(name, args) => (if name == FROZEN && args != [] then [] else [name]) + PartsOfAll(args)
  }

  function PartsOfAll(es: seq<TypeExpr>): seq<string>
    decreases es, 0
  {
    if es == [] then [] else Parts(es[0]) + PartsOfAll(es[1..])
  }

  /** No name is quoted, and none starts with `frozen`. */
  predicate Readable(e: TypeExpr)
    decreases e, 1
  {
    && e.Named?
    && (!(FROZEN <= e.name) || (e.name == FROZEN && e.args != []))
    && ReadableAll(e.args)
  }

  predicate ReadableAll(es: seq<TypeExpr>)
    decreases es, 0
  {
    es == [] || (Readable(es[0]) && ReadableAll(es[1..]))
  }

  // ------------------------------------------------------------------- reading a readable type

  predicate Ends(rest: string) { rest == "" || !IsNameChar(rest[0]) }

  lemma {:induction false} NameLengthOf(name: string, rest: string)
    requires (forall c <- name :: IsNameChar(c)) && Ends(rest)
    ensures NameLength(name + rest) == |name|
    decreases |name|
  {
    if name == "" {
      assert name + rest == rest;
    } else {
      NameLengthOf(name[1..], rest);
      assert (name + rest)[1..] == name[1..] + rest;
    }
  }

  lemma ShortNameNotFrozen(name: string, rest: string)
    requires 0 < |name| < |FROZEN| && Ends(rest)
    ensures !(FROZEN <= name + rest)
  {
    if rest != "" {
      assert (name + rest)[|name|] == rest[0];
      assert IsNameChar(FROZEN[|name|]);
    }
  }

  /** `frozen` cannot straddle the end of a name. */
  lemma FrozenInName(name: string, rest: string)
    requires Ends(rest)
    ensures FROZEN <= name + rest ==> FROZEN <= name || (name == "" && FROZEN <= rest)
    ensures FROZEN <= name ==> FROZEN <= name + rest
  {
    if 0 < |name| < |FROZEN| { ShortNameNotFrozen(name, rest); }
    if FROZEN <= name + rest && |name| >= |FROZEN| {
      assert (name + rest)[..|FROZEN|] == name[..|FROZEN|];
    }
  }

  lemma ScanName(name: string, rest: string)
    requires IsName(name) && Ends(rest) && !(FROZEN <= name)
    ensures CqlTypesFromString(name + rest) == [name] + CqlTypesFromString(rest)
  {
    NameLengthOf(name, rest);
    FrozenInName(name, rest);
    assert (name + rest)[0] == name[0] && name[0] in name;
    assert (name + rest)[..|name|] == name && (name + rest)[|name|..] == rest;
  }

  lemma ScanFrozen(rest: string)
    ensures CqlTypesFromString(FROZEN + rest) == CqlTypesFromString(rest)
  {
    assert (FROZEN + rest)[|FROZEN|..] == rest;
  }

  lemma ScanSkipped(c: char, rest: string)
    requires IsSkipped(c)
    ensures CqlTypesFromString([c] + rest) == CqlTypesFromString(rest)
  {
    var s := [c] + rest;
    assert s[1..] == rest && s[0] == c && FROZEN[0] == 'f';
  }

  lemma {:induction false} ScanReadable(e: TypeExpr, rest: string)
    requires Legal(e) && Readable(e) && Ends(rest)
    ensures CqlTypesFromString(Print(e) + rest) == Parts(e) + CqlTypesFromString(rest)
    decreases e, 1
  {
    hide CqlTypesFromString, PrintAll, PartsOfAll, IsName;
    if e.args == [] {
      ScanName(e.name, rest);
      NoParts();
    } else {
      var inside := "<" + (PrintAll(e.args) + (">" + rest));
      assert Print(e) + rest == e.name + inside;
      ScanReadables(e.args, ">" + rest);
      ScanSkipped('<', PrintAll(e.args) + (">" + rest));
      ScanSkipped('>', rest);
      if e.name == FROZEN {
        ScanFrozen(inside);
      } else {
        ScanName(e.name, inside);
      }
      assert Parts(e) + CqlTypesFromString(rest) ==
             (if e.name == FROZEN then [] else [e.name]) + (PartsOfAll(e.args) + CqlTypesFromString(rest));
    }
  }

  lemma NoParts()
    ensures PartsOfAll([]) == []
  {
  }

  lemma {:induction false} ScanReadables(es: seq<TypeExpr>, rest: string)
    requires LegalAll(es) && ReadableAll(es) && es != [] && Ends(rest)
    ensures CqlTypesFromString(PrintAll(es) + rest) == PartsOfAll(es) + CqlTypesFromString(rest)
    decreases es, 0
  {
    hide CqlTypesFromString, Print, Parts;
    if |es| == 1 {
      ScanReadable(es[0], rest);
      assert es[1..] == [];
    } else {
      var tail := ", " + (PrintAll(es[1..]) + rest);
      assert PrintAll(es) + rest == Print(es[0]) + tail;
      ScanReadable(es[0], tail);
      ScanReadables(es[1..], rest);
      assert tail == [','] + ([' '] + (PrintAll(es[1..]) + rest));
      ScanSkipped(',', [' '] + (PrintAll(es[1..]) + rest));
      ScanSkipped(' ', PrintAll(es[1..]) + rest);
      assert PartsOfAll(es) + CqlTypesFromString(rest) ==
             Parts(es[0]) + (PartsOfAll(es[1..]) + CqlTypesFromString(rest));
    }
  }

  // ------------------------------------------------------------------ reading an unreadable one

  lemma PrefixOfPrefix(s: string, k: nat)
    requires k <= |s|
    ensures FROZEN <= s[..k] ==> FROZEN <= s
  {
  }

  /** Nothing the scanner finds starts with `frozen`. */
  lemma {:induction false} NothingFrozenFound(s: string, n: string)
    requires n in CqlTypesFromString(s)
    ensures !(FROZEN <= n)
    decreases |s|
  {
    if FROZEN <= s {
      NothingFrozenFound(s[|FROZEN|..], n);
    } else if IsNameChar(s[0]) {
      var name, rest := s[..NameLength(s)], s[NameLength(s)..];
      PrefixOfPrefix(s, NameLength(s));
      if n != name {
        assert CqlTypesFromString(s) == [name] + CqlTypesFromString(rest);
        NothingFrozenFound(rest, n);
      }
    } else if IsSkipped(s[0]) {
      NothingFrozenFound(s[1..], n);
    }
  }

  predicate HasQuote(e: TypeExpr)
    decreases e, 1
  {
    e.Quoted? || HasQuotes(e.args)
  }

  predicate HasQuotes(es: seq<TypeExpr>)
    decreases es, 0
  {
    es != [] && (HasQuote(es[0]) || HasQuotes(es[1..]))
  }

  /** A name gives one token at most. */
  lemma {:induction false} NameGivesOne(name: string, rest: string)
    requires (forall c <- name :: IsNameChar(c)) && Ends(rest)
    ensures |CqlTypesFromString(name + rest)| <= 1 + |CqlTypesFromString(rest)|
    decreases |name|
  {
    if name == "" {
      assert name + rest == rest;
    } else if FROZEN <= name {
      NameGivesOne(name[|FROZEN|..], rest);
      assert name + rest == FROZEN + (name[|FROZEN|..] + rest);
      ScanFrozen(name[|FROZEN|..] + rest);
    } else {
      ScanName(name, rest);
    }
  }

  lemma ScanQuote(rest: string)
    ensures CqlTypesFromString("\"" + rest) == []
  {
    var s := "\"" + rest;
    assert s[0] == '"' && FROZEN[0] == 'f';
  }

  /** A type gives no more tokens than it has parts, and fewer when a quote stops the scan. */
  lemma {:induction false} TokenCount(e: TypeExpr, rest: string)
    requires Legal(e) && Ends(rest)
    ensures var n := |CqlTypesFromString(Print(e) + rest)|;
            if HasQuote(e) then n < |Parts(e)| else n <= |Parts(e)| + |CqlTypesFromString(rest)|
    decreases e, 1
  {
    hide CqlTypesFromString, PrintAll, PartsOfAll;
    match e
    case Quoted(name) =>
      assert Print(e) + rest == "\"" + (name + "\"" + rest);
      ScanQuote(name + "\"" + rest);
    case Named(name, args) =>
      if args == [] {
        assert !HasQuotes(args);
        NameGivesOne(name, rest);
      } else {
        var inside := "<" + (PrintAll(args) + (">" + rest));
        assert Print(e) + rest == name + inside;
        TokenCounts(args, ">" + rest);
        ScanSkipped('<', PrintAll(args) + (">" + rest));
        ScanSkipped('>', rest);
        if name == FROZEN { ScanFrozen(inside); } else { NameGivesOne(name, inside); }
      }
  }

  lemma {:induction false} TokenCounts(es: seq<TypeExpr>, rest: string)
    requires LegalAll(es) && es != [] && Ends(rest)
    ensures var n := |CqlTypesFromString(PrintAll(es) + rest)|;
            if HasQuotes(es) then n < |PartsOfAll(es)| else n <= |PartsOfAll(es)| + |CqlTypesFromString(rest)|
    decreases es, 0
  {
    hide CqlTypesFromString, Print, Parts, HasQuote;
    if |es| == 1 {
      TokenCount(es[0], rest);
      assert es[1..] == [] && !HasQuotes(es[1..]) && PartsOfAll(es[1..]) == [];
    } else {
      var tail := ", " + (PrintAll(es[1..]) + rest);
      assert PrintAll(es) + rest == Print(es[0]) + tail;
      TokenCount(es[0], tail);
      TokenCounts(es[1..], rest);
      assert tail == [','] + ([' '] + (PrintAll(es[1..]) + rest));
      ScanSkipped(',', [' '] + (PrintAll(es[1..]) + rest));
      ScanSkipped(' ', PrintAll(es[1..]) + rest);
    }
  }

  /** A type without quotes that is not readable has a part that starts with `frozen`. */
  lemma {:induction false} FrozenPart(e: TypeExpr) returns (n: string)
    requires !HasQuote(e) && !Readable(e)
    ensures n in Parts(e) && FROZEN <= n
    decreases e, 1
  {
    if FROZEN <= e.name && !(e.name == FROZEN && e.args != []) {
      n := e.name;
    } else {
      n := FrozenPartOf(e.args);
    }
  }

  lemma {:induction false} FrozenPartOf(es: seq<TypeExpr>) returns (n: string)
    requires !HasQuotes(es) && !ReadableAll(es)
    ensures n in PartsOfAll(es) && FROZEN <= n
    decreases es, 0
  {
    if !Readable(es[0]) { n := FrozenPart(es[0]); } else { n := FrozenPartOf(es[1..]); }
  }

  /** The scanner finds the parts of a type, each once and in order, if and only if none of them is
      quoted and none starts with `frozen`. */
  lemma ReadsExactlyTheReadable(e: TypeExpr)
    requires Legal(e)
    ensures CqlTypesFromString(Print(e)) == Parts(e) <==> Readable(e)
  {
    hide CqlTypesFromString, Print, Parts, Readable, HasQuote, Legal;
    assert Print(e) + "" == Print(e);
    ScanNothing();
    if Readable(e) {
      ScanReadable(e, "");
      assert Parts(e) + [] == Parts(e);
    } else {
      TokenCount(e, "");
      if !HasQuote(e) {
        var n := FrozenPart(e);
        if n in CqlTypesFromString(Print(e)) { NothingFrozenFound(Print(e), n); }
      }
    }
  }

  lemma ScanNothing()
    ensures CqlTypesFromString("") == []
  {
  }
}
