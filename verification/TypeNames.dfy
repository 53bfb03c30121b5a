/** Cassandra's names for types: `cass_parameterized_type_with` prints one, and
    `parse_casstype_args` reads it back with an explicit stack. */
module TypeNames {
  import opened Seqs

  const PREFIX := "org.apache.cassandra.db.marshal."

  /** A type class: its `cassname`, and, once parameters have been applied, its subtypes and
      the names given to them. */
  datatype CassType = CassType(name: string, subtypes: seq<CassType>, fieldNames: seq<Option<string>>)

  /** `num_subtypes`. */
  datatype Arity = Exactly(n: nat) | Unknown

  type Registry = map<string, Arity>

  function ArityOf(registry: Registry, name: string): Arity {
    if name in registry then registry[name] else Unknown
  }

  // --------------------------------------------------------------------------- the printer

  function PrintedName(name: string, full: bool): string {
    if full && '.' !in name then PREFIX + name else name
  }

  /** `cass_parameterized_type`. */
  function Print(t: CassType, full: bool): string
    decreases t, 1
  {
    var cname := PrintedName(t.name, full);
    if t.subtypes == [] then cname else cname + "(" + PrintList(t.subtypes, full) + ")"
  }

  /** `', '.join(...)`. */
  function PrintList(ts: seq<CassType>, full: bool): string
    decreases ts, 0
  {
    if ts == [] then ""
    else if |ts| == 1 then Print(ts[0], full)
    else Print(ts[0], full) + ", " + PrintList(ts[1..], full)
  }

  // --------------------------------------------------------------------------- the scanner

  predicate IsWordChar(c: char) {
    'a' <= c <= 'z' || 'A' <= c <= 'Z' || '0' <= c <= '9' || c == '_' || c == '.'
  }

  predicate IsNameChar(c: char) {
    IsWordChar(c) || c == ':' || c == '=' || c == '>'
  }

  predicate IsBlank(c: char) {
    c == ' ' || c == ',' || c == '\t' || c == '\n' || c == '\r' || c == '\U{000b}' || c == '\U{000c}'
  }

  /** The length of the longest name at the front. */
  function NameLength(s: string): (n: nat)
    ensures n <= |s| && (s != "" && IsNameChar(s[0]) ==> n > 0)
  {
    if s == "" || !IsNameChar(s[0]) then 0 else 1 + NameLength(s[1..])
  }

  function PrependToken(tok: string, r: Option<seq<string>>): Option<seq<string>> {
    match r
    case None => None
    case Some(toks) => Some([tok] + toks)
  }

  /** `casstype_scanner.scan`: nothing when some characters remain. */
  function Scan(s: string): Option<seq<string>>
    decreases |s|
  {
    if s == "" then Some([])
    else if s[0] == '(' || s[0] == ')' then PrependToken(s[..1], Scan(s[1..]))
    else if IsNameChar(s[0]) then PrependToken(s[..NameLength(s)], Scan(s[NameLength(s)..]))
    else if IsBlank(s[0]) then Scan(s[1..])
    else None
  }

  // ---------------------------------------------------------------------------- the parser

  /** `re.split(':|=>', tok)`. */
  function Split(s: string, word: string): (parts: seq<string>)
    ensures parts != []
    decreases |s|
  {
    if s == "" then [word]
    else if s[0] == ':' then [word] + Split(s[1..], "")
    else if |s| >= 2 && s[0] == '=' && s[1] == '>' then [word] + Split(s[2..], "")
    else Split(s[1..], word + [s[0]])
  }

  function Trim(s: string): string {
    if PREFIX <= s then s[|PREFIX|..] else s
  }

  /** `lookup_casstype_simple`; an unknown name becomes an unrecognized type. */
  function LookupSimple(registry: Registry, tok: string): CassType {
    CassType(if Trim(tok) in registry then Trim(tok) else tok, [], [])
  }

  /** The (types, names) pair that collects the parameters of one open parenthesis. */
  datatype Level = Level(types: seq<CassType>, names: seq<Option<string>>)

  /** `apply_parameters`: nothing is the ValueError about the number of subtypes. */
  function ApplyParameters(registry: Registry, t: CassType, level: Level): Option<CassType> {
    var arity := ArityOf(registry, t.name);
    if arity.Exactly? && |level.types| != arity.n then None
    else Some(CassType(t.name, level.types, level.names))
  }

  /** One token; nothing is an IndexError or a ValueError. The top of the stack is last. */
  function ParseToken(registry: Registry, stack: seq<Level>, tok: string): (r: Option<seq<Level>>)
    requires stack != []
    ensures r.Some? ==> r.value != []
  {
    if tok == "(" then Some(stack + [Level([], [])])
    else if tok == ")" then
      var top, below := stack[|stack| - 1], stack[..|stack| - 1];
      if below == [] || below[|below| - 1].types == [] then None
      else
        var prev := below[|below| - 1];
        match ApplyParameters(registry, prev.types[|prev.types| - 1], top)
        case None => None
        case Some(t) => Some(below[|below| - 1 := prev.(types := prev.types[|prev.types| - 1 := t])])
    else
      var parts := Split(tok, "");
      var alias := if |parts| > 1 then Some(parts[0]) else None;
      Some(Push(stack, LookupSimple(registry, parts[|parts| - 1]), alias))
  }

  function Push(stack: seq<Level>, t: CassType, alias: Option<string>): seq<Level>
    requires stack != []
  {
    var top := stack[|stack| - 1];
    stack[|stack| - 1 := Level(top.types + [t], top.names + [alias])]
  }

  function ParseTokens(registry: Registry, stack: seq<Level>, toks: seq<string>): Option<seq<Level>>
    requires stack != []
    decreases |toks|
  {
    if toks == [] then Some(stack)
    else
      match ParseToken(registry, stack, toks[0])
      case None => None
      case Some(stack') => ParseTokens(registry, stack', toks[1..])
  }

  function Outermost(stack: seq<Level>): Option<CassType>
    requires stack != []
  {
    if stack[0].types == [] then None else Some(stack[0].types[0])
  }

  function Parse(registry: Registry, s: string): Option<CassType> {
    match Scan(s)
    case None => None
    case Some(toks) =>
      match ParseTokens(registry, [Level([], [])], toks)
      case None => None
      case Some(stack) => if stack == [] then None else Outermost(stack)
  }

  /** `parse_casstype_args`. */
  method ParseCasstypeArgs(registry: Registry, typestring: string) returns (result: Option<CassType>)
    ensures result == Parse(registry, typestring)
  {
    var tokens := Scan(typestring);
    if tokens.None? {
      return None;
    }
    var args := [Level([], [])];
    var k := 0;
    while k < |tokens.value|
      invariant 0 <= k <= |tokens.value| && args != []
      invariant ParseTokens(registry, args, tokens.value[k..]) ==
                ParseTokens(registry, [Level([], [])], tokens.value)
    {
      var next := ParseToken(registry, args, tokens.value[k]);
      if next.None? {
        return None;
      }
      args := next.value;
      k := k + 1;
    }
    result := Outermost(args);
  }

  // ------------------------------------------------------------------------ the round trip

  /** A name made of word characters, either registered without a dot or a dotted name outside
      the driver's own package. */
  predicate LegalName(registry: Registry, name: string) {
    && name != ""
    && (forall i :: 0 <= i < |name| ==> IsWordChar(name[i]))
    && (if '.' in name then !(PREFIX <= name) else name in registry)
  }

  predicate LegalAlias(alias: Option<string>) {
    alias.Some? ==> forall i :: 0 <= i < |alias.value| ==> IsWordChar(alias.value[i])
  }

  predicate LegalAliases(names: seq<Option<string>>) {
    forall i :: 0 <= i < |names| ==> LegalAlias(names[i])
  }

  lemma AliasesSplit(names: seq<Option<string>>)
    requires names != [] && LegalAliases(names)
    ensures LegalAlias(names[0]) && LegalAliases(names[1..])
  {
  }

  /** A type of legal names with as many parameters as it takes, named or not. */
  predicate LegalType(registry: Registry, t: CassType)
    decreases t, 1
  {
    && LegalName(registry, t.name)
    && |t.fieldNames| == |t.subtypes| && LegalAliases(t.fieldNames)
    && (t.subtypes != [] ==>
          ArityOf(registry, t.name) == Unknown || ArityOf(registry, t.name) == Exactly(|t.subtypes|))
    && LegalTypes(registry, t.subtypes)
  }

  predicate LegalTypes(registry: Registry, ts: seq<CassType>)
    decreases ts, 0
  {
    ts == [] || (LegalType(registry, ts[0]) && LegalTypes(registry, ts[1..]))
  }

  /** The ways in which servers spell types: with short or qualified names, with a colon or an arrow
      between the name of a parameter and its type, and with any blanks between parameters. */
  datatype Style = Style(full: bool, mark: string, gap: string)

  predicate LegalStyle(style: Style) {
    && (style.mark == ":" || style.mark == "=>")
    && style.gap != "" && forall i :: 0 <= i < |style.gap| ==> IsBlank(style.gap[i])
  }

  /** A type's name, behind the name of the parameter that it is the type of. */
  function Marked(alias: Option<string>, name: string, style: Style): string {
    (if alias.Some? then alias.value + style.mark else "") + PrintedName(name, style.full)
  }

  function Spell(alias: Option<string>, t: CassType, style: Style): string
    requires |t.fieldNames| == |t.subtypes|
    decreases t, 1
  {
    var word := Marked(alias, t.name, style);
    if t.subtypes == [] then word else word + "(" + SpellList(t.subtypes, t.fieldNames, style) + ")"
  }

  function SpellList(ts: seq<CassType>, names: seq<Option<string>>, style: Style): string
    requires |names| == |ts|
    decreases ts, 0
  {
    if ts == [] then ""
    else
      var first := if |ts[0].fieldNames| == |ts[0].subtypes| then Spell(names[0], ts[0], style) else "";
      if |ts| == 1 then first else first + style.gap + SpellList(ts[1..], names[1..], style)
  }

  function Tokens(alias: Option<string>, t: CassType, style: Style): seq<string>
    requires |t.fieldNames| == |t.subtypes|
    decreases t, 1
  {
    var word := Marked(alias, t.name, style);
    if t.subtypes == [] then [word] else [word, "("] + TokensOf(t.subtypes, t.fieldNames, style) + [")"]
  }

  function TokensOf(ts: seq<CassType>, names: seq<Option<string>>, style: Style): seq<string>
    requires |names| == |ts|
    decreases ts, 0
  {
    if ts == [] then []
    else
      (if |ts[0].fieldNames| == |ts[0].subtypes| then Tokens(names[0], ts[0], style) else []) +
      TokensOf(ts[1..], names[1..], style)
  }

  /** A name ends where the next character is not part of one. */
  predicate Ends(rest: string) { rest == "" || !IsNameChar(rest[0]) }

  function Extend(toks: seq<string>, r: Option<seq<string>>): Option<seq<string>> {
    match r
    case None => None
    case Some(more) => Some(toks + more)
  }

  lemma ExtendTwice(s: seq<string>, t: seq<string>, r: Option<seq<string>>)
    ensures Extend(s, Extend(t, r)) == Extend(s + t, r)
    ensures forall tok :: PrependToken(tok, r) == Extend([tok], r)
  {
    if r.Some? { assert s + (t + r.value) == (s + t) + r.value; }
  }

  lemma {:induction false} NameLengthOfWord(word: string, rest: string)
    requires forall i :: 0 <= i < |word| ==> IsNameChar(word[i])
    requires Ends(rest)
    ensures NameLength(word + rest) == |word|
  {
    if word == "" {
      assert word + rest == rest;
    } else {
      assert (word + rest)[1..] == word[1..] + rest;
      NameLengthOfWord(word[1..], rest);
    }
  }

  lemma PrintedNameChars(registry: Registry, name: string, full: bool)
    requires LegalName(registry, name)
    ensures PrintedName(name, full) != ""
    ensures forall i :: 0 <= i < |PrintedName(name, full)| ==> IsWordChar(PrintedName(name, full)[i])
  {
    assert forall i :: 0 <= i < |PREFIX| ==> IsWordChar(PREFIX[i]);
  }

  lemma MarkedChars(registry: Registry, alias: Option<string>, name: string, style: Style)
    requires LegalName(registry, name) && LegalAlias(alias) && LegalStyle(style)
    ensures Marked(alias, name, style) != ""
    ensures forall i :: 0 <= i < |Marked(alias, name, style)| ==> IsNameChar(Marked(alias, name, style)[i])
  {
    PrintedNameChars(registry, name, style.full);
  }

  lemma ScanWord(word: string, rest: string)
    requires word != "" && (forall i :: 0 <= i < |word| ==> IsNameChar(word[i])) && Ends(rest)
    ensures Scan(word + rest) == Extend([word], Scan(rest))
  {
    NameLengthOfWord(word, rest);
    var s := word + rest;
    assert s[0] == word[0] && IsNameChar(word[0]);
    assert s[..|word|] == word && s[|word|..] == rest;
    ExtendTwice([], [], Scan(rest));
  }

  lemma ScanParen(c: char, rest: string)
    requires c == '(' || c == ')'
    ensures Scan([c] + rest) == Extend([[c]], Scan(rest))
  {
    var s := [c] + rest;
    assert s[..1] == [c] && s[1..] == rest;
    ExtendTwice([], [], Scan(rest));
  }

  lemma {:induction false} ScanGap(gap: string, rest: string)
    requires forall i :: 0 <= i < |gap| ==> IsBlank(gap[i])
    ensures Scan(gap + rest) == Scan(rest)
    decreases |gap|
  {
    if gap == "" {
      assert gap + rest == rest;
    } else {
      ScanGap(gap[1..], rest);
      assert (gap + rest)[1..] == gap[1..] + rest && (gap + rest)[0] == gap[0];
    }
  }

  lemma ParenEnds()
    ensures !IsNameChar('(') && !IsNameChar(')')
  {
  }

  lemma GapEnds(style: Style, rest: string)
    requires LegalStyle(style)
    ensures Ends(style.gap + rest)
  {
    assert (style.gap + rest)[0] == style.gap[0];
  }

  /** Scanning a spelled type gives its tokens. */
  lemma {:induction false} ScanType(registry: Registry, alias: Option<string>, t: CassType, style: Style, rest: string)
    requires LegalType(registry, t) && LegalAlias(alias) && LegalStyle(style) && Ends(rest)
    ensures Scan(Spell(alias, t, style) + rest) == Extend(Tokens(alias, t, style), Scan(rest))
    decreases t, 1
  {
    hide Scan, Marked, LegalStyle, LegalAlias, LegalAliases, SpellList, TokensOf, LegalName, IsNameChar;
    var word := Marked(alias, t.name, style);
    MarkedChars(registry, alias, t.name, style);
    ParenEnds();
    if t.subtypes == [] {
      ScanWord(word, rest);
    } else {
      var inner, toks := SpellList(t.subtypes, t.fieldNames, style), TokensOf(t.subtypes, t.fieldNames, style);
      assert Spell(alias, t, style) + rest == word + (['('] + (inner + ([')'] + rest)));
      ScanWord(word, ['('] + (inner + ([')'] + rest)));
      ScanParen('(', inner + ([')'] + rest));
      ScanTypes(registry, t.subtypes, t.fieldNames, style, [')'] + rest);
      ScanParen(')', rest);
      ExtendTwice(toks, [")"], Scan(rest));
      ExtendTwice(["("], toks + [")"], Scan(rest));
      ExtendTwice([word], ["("] + (toks + [")"]), Scan(rest));
      assert [word] + (["("] + (toks + [")"])) == Tokens(alias, t, style);
    }
  }

  lemma {:induction false} ScanTypes(registry: Registry, ts: seq<CassType>, names: seq<Option<string>>, style: Style,
    rest: string)
    requires LegalTypes(registry, ts) && |names| == |ts| && LegalAliases(names) && LegalStyle(style) && Ends(rest)
    ensures Scan(SpellList(ts, names, style) + rest) == Extend(TokensOf(ts, names, style), Scan(rest))
    decreases ts, 0
  {
    hide Scan, LegalAlias, LegalAliases, LegalStyle, Spell, Tokens;
    if ts != [] { AliasesSplit(names); }
    if ts == [] {
      assert SpellList(ts, names, style) + rest == rest;
      NothingToExtend(Scan(rest));
    } else if |ts| == 1 {
      ScanType(registry, names[0], ts[0], style, rest);
      assert ts[1..] == [] && TokensOf(ts[1..], names[1..], style) == [];
      assert TokensOf(ts, names, style) == Tokens(names[0], ts[0], style);
    } else {
      var tail := SpellList(ts[1..], names[1..], style);
      assert SpellList(ts, names, style) + rest == Spell(names[0], ts[0], style) + (style.gap + (tail + rest));
      GapEnds(style, tail + rest);
      ScanType(registry, names[0], ts[0], style, style.gap + (tail + rest));
      GapIsBlank(style);
      ScanGap(style.gap, tail + rest);
      ScanTypes(registry, ts[1..], names[1..], style, rest);
      ExtendTwice(Tokens(names[0], ts[0], style), TokensOf(ts[1..], names[1..], style), Scan(rest));
    }
  }

  lemma GapIsBlank(style: Style)
    requires LegalStyle(style)
    ensures forall i :: 0 <= i < |style.gap| ==> IsBlank(style.gap[i])
  {
  }

  lemma NothingToExtend(r: Option<seq<string>>)
    ensures Extend([], r) == r
  {
    if r.Some? { assert [] + r.value == r.value; }
  }

  lemma {:induction false} SplitWord(s: string, word: string)
    requires forall i :: 0 <= i < |s| ==> IsWordChar(s[i])
    ensures Split(s, word) == [word + s]
    decreases |s|
  {
    if s == "" {
      assert word + s == word;
    } else {
      SplitWord(s[1..], word + [s[0]]);
      assert word + [s[0]] + s[1..] == word + s;
    }
  }

  /** A marked name splits at the mark. */
  lemma {:induction false} SplitMarked(alias: string, mark: string, name: string, word: string)
    requires (mark == ":" || mark == "=>") && (forall i :: 0 <= i < |alias| ==> IsWordChar(alias[i]))
    requires forall i :: 0 <= i < |name| ==> IsWordChar(name[i])
    ensures Split(alias + mark + name, word) == [word + alias, name]
    decreases |alias|
  {
    var s := alias + mark + name;
    if alias == "" {
      assert s == mark + name && word + alias == word;
      assert s[|mark|..] == name;
      SplitWord(name, "");
      assert "" + name == name;
    } else {
      assert s[0] == alias[0] && s[1..] == alias[1..] + mark + name;
      SplitMarked(alias[1..], mark, name, word + [s[0]]);
      assert word + [s[0]] + alias[1..] == word + alias;
    }
  }

  lemma PrefixIsDotted(s: string)
    requires PREFIX <= s
    ensures '.' in s
  {
    assert s[3] == PREFIX[3] == '.';
  }

  /** A printed name, short or fully qualified, is looked up as the type it names. */
  lemma LookupPrinted(registry: Registry, name: string, full: bool)
    requires LegalName(registry, name)
    ensures LookupSimple(registry, PrintedName(name, full)) == CassType(name, [], [])
  {
    if '.' !in name {
      if full {
        assert (PREFIX + name)[|PREFIX|..] == name;
      } else if PREFIX <= name {
        PrefixIsDotted(name);
      }
    }
  }

  lemma WordToken(registry: Registry, stack: seq<Level>, tok: string)
    requires stack != [] && tok != "" && IsNameChar(tok[0])
    ensures var parts := Split(tok, "");
            ParseToken(registry, stack, tok) ==
            Some(Push(stack, LookupSimple(registry, parts[|parts| - 1]), if |parts| > 1 then Some(parts[0]) else None))
  {
  }

  lemma ParseName(registry: Registry, stack: seq<Level>, alias: Option<string>, name: string, style: Style)
    requires stack != [] && LegalName(registry, name) && LegalAlias(alias) && LegalStyle(style)
    ensures ParseToken(registry, stack, Marked(alias, name, style)) ==
            Some(Push(stack, CassType(name, [], []), alias))
  {
    hide ParseToken, LookupSimple, Push, Split, LegalName, PrintedName, LegalAliases;
    var word, tok := PrintedName(name, style.full), Marked(alias, name, style);
    PrintedNameChars(registry, name, style.full);
    MarkedChars(registry, alias, name, style);
    WordToken(registry, stack, tok);
    LookupPrinted(registry, name, style.full);
    if alias.None? {
      SplitWord(word, "");
      assert "" + word == word;
    } else {
      SplitMarked(alias.value, style.mark, word, "");
      assert "" + alias.value == alias.value;
    }
  }

  /** The tokens of a type leave the stack as it was, with the type pushed. */
  lemma {:induction false} ParseType(registry: Registry, stack: seq<Level>, alias: Option<string>, t: CassType,
    style: Style, rest: seq<string>)
    requires stack != [] && LegalType(registry, t) && LegalAlias(alias) && LegalStyle(style)
    ensures ParseTokens(registry, stack, Tokens(alias, t, style) + rest) ==
            ParseTokens(registry, Push(stack, t, alias), rest)
    decreases t, 1
  {
    hide ParseToken, Marked, LegalName, LegalStyle, LegalAlias, LegalAliases, TokensOf;
    var word := Marked(alias, t.name, style);
    ParseName(registry, stack, alias, t.name, style);
    var named := Push(stack, CassType(t.name, [], []), alias);
    if t.subtypes == [] {
      assert ([word] + rest)[1..] == rest;
    } else {
      var inner := TokensOf(t.subtypes, t.fieldNames, style);
      var toks := Tokens(alias, t, style) + rest;
      assert toks[0] == word && toks[1..] == ["("] + (inner + ([")"] + rest));
      ParseOpen(registry, named);
      var deeper := named + [Level([], [])];
      assert toks[1..][1..] == inner + ([")"] + rest);
      ParseTypes(registry, deeper, t.subtypes, t.fieldNames, style, [")"] + rest);
      PushAllTop(named, Level([], []), t.subtypes, t.fieldNames);
      var filled := named + [Level(t.subtypes, t.fieldNames)];
      assert PushAll(deeper, t.subtypes, t.fieldNames) == filled by {
        assert [] + t.subtypes == t.subtypes && [] + t.fieldNames == t.fieldNames;
      }
      ParseClose(registry, stack, alias, t);
      assert ([")"] + rest)[1..] == rest;
      assert ParseTokens(registry, filled, [")"] + rest) == ParseTokens(registry, Push(stack, t, alias), rest);
    }
  }

  lemma ParseOpen(registry: Registry, stack: seq<Level>)
    requires stack != []
    ensures ParseToken(registry, stack, "(") == Some(stack + [Level([], [])])
  {
  }

  /** The closing parenthesis turns the name below into the parameterized type. */
  lemma ParseClose(registry: Registry, stack: seq<Level>, alias: Option<string>, t: CassType)
    requires stack != [] && LegalType(registry, t) && t.subtypes != []
    ensures var named := Push(stack, CassType(t.name, [], []), alias);
            ParseToken(registry, named + [Level(t.subtypes, t.fieldNames)], ")") ==
            Some(Push(stack, t, alias))
  {
    var named := Push(stack, CassType(t.name, [], []), alias);
    var whole := named + [Level(t.subtypes, t.fieldNames)];
    assert whole[..|whole| - 1] == named;
    var prev := named[|named| - 1];
    assert prev.types[|prev.types| - 1] == CassType(t.name, [], []);
    assert prev.types[|prev.types| - 1 := t] == stack[|stack| - 1].types + [t];
    assert named[|named| - 1 := prev.(types := prev.types[|prev.types| - 1 := t])] == Push(stack, t, alias);
  }

  function PushAll(stack: seq<Level>, ts: seq<CassType>, names: seq<Option<string>>): (r: seq<Level>)
    requires stack != [] && |names| == |ts|
    ensures r != []
    decreases |ts|
  {
    if ts == [] then stack else PushAll(Push(stack, ts[0], names[0]), ts[1..], names[1..])
  }

  lemma {:induction false} PushAllTop(below: seq<Level>, top: Level, ts: seq<CassType>, names: seq<Option<string>>)
    requires |names| == |ts|
    ensures PushAll(below + [top], ts, names) == below + [Level(top.types + ts, top.names + names)]
    decreases |ts|
  {
    if ts == [] {
      assert top.types + ts == top.types && top.names + names == top.names;
    } else {
      var top' := Level(top.types + [ts[0]], top.names + [names[0]]);
      assert Push(below + [top], ts[0], names[0]) == below + [top'];
      PushAllTop(below, top', ts[1..], names[1..]);
      assert top'.types + ts[1..] == top.types + ts;
      assert top'.names + names[1..] == top.names + names;
    }
  }

  lemma {:induction false} ParseTypes(registry: Registry, stack: seq<Level>, ts: seq<CassType>,
    names: seq<Option<string>>, style: Style, rest: seq<string>)
    requires stack != [] && LegalTypes(registry, ts) && |names| == |ts| && LegalAliases(names) && LegalStyle(style)
    ensures ParseTokens(registry, stack, TokensOf(ts, names, style) + rest) ==
            ParseTokens(registry, PushAll(stack, ts, names), rest)
    decreases ts, 0
  {
    hide ParseTokens, Tokens, LegalStyle, LegalAlias, LegalAliases;
    if ts != [] { AliasesSplit(names); }
    if ts == [] {
      assert TokensOf(ts, names, style) + rest == rest;
    } else {
      var more := TokensOf(ts[1..], names[1..], style) + rest;
      assert TokensOf(ts, names, style) + rest == Tokens(names[0], ts[0], style) + more;
      ParseType(registry, stack, names[0], ts[0], style, more);
      ParseTypes(registry, Push(stack, ts[0], names[0]), ts[1..], names[1..], style, rest);
    }
  }

  /** Parsing a spelled type rebuilds it with the names of its parameters, in whatever style. */
  lemma ParseSpelled(registry: Registry, t: CassType, style: Style)
    requires LegalType(registry, t) && LegalStyle(style)
    ensures Parse(registry, Spell(None, t, style)) == Some(t)
  {
    hide Scan, Spell, Tokens, ParseToken, LegalStyle;
    assert Spell(None, t, style) + "" == Spell(None, t, style);
    ScanType(registry, None, t, style, "");
    ScanNothing();
    var stack := [Level([], [])];
    assert Tokens(None, t, style) + [] == Tokens(None, t, style);
    ParseType(registry, stack, None, t, style, []);
  }

  lemma ScanNothing()
    ensures Scan("") == Some([])
  {
  }

  // ------------------------------------------------------------------- named parameters

  /** The type with the names of its parameters forgotten at every level. */
  function Anonymous(t: CassType): CassType
    decreases t, 1
  {
    CassType(t.name, AnonymousAll(t.subtypes), seq(|t.subtypes|, _ => None))
  }

  function AnonymousAll(ts: seq<CassType>): (r: seq<CassType>)
    ensures |r| == |ts|
    decreases ts, 0
  {
    if ts == [] then [] else [Anonymous(ts[0])] + AnonymousAll(ts[1..])
  }

  /** Like LegalType, whatever the parameters are named. */
  predicate LegalShape(registry: Registry, t: CassType)
    decreases t, 1
  {
    && LegalName(registry, t.name)
    && (t.subtypes != [] ==>
          ArityOf(registry, t.name) == Unknown || ArityOf(registry, t.name) == Exactly(|t.subtypes|))
    && LegalShapes(registry, t.subtypes)
  }

  predicate LegalShapes(registry: Registry, ts: seq<CassType>)
    decreases ts, 0
  {
    ts == [] || (LegalShape(registry, ts[0]) && LegalShapes(registry, ts[1..]))
  }

  /** The printer's style. */
  function Plain(full: bool): Style { Style(full, ":", ", ") }

  lemma {:induction false} AnonymousIsLegal(registry: Registry, t: CassType, full: bool)
    requires LegalShape(registry, t)
    ensures LegalType(registry, Anonymous(t)) && Spell(None, Anonymous(t), Plain(full)) == Print(t, full)
    decreases t, 1
  {
    hide LegalName;
    AnonymousAllLegal(registry, t.subtypes, full);
    assert "" + PrintedName(t.name, full) == PrintedName(t.name, full);
  }

  lemma {:induction false} AnonymousAllLegal(registry: Registry, ts: seq<CassType>, full: bool)
    requires LegalShapes(registry, ts)
    ensures LegalTypes(registry, AnonymousAll(ts))
    ensures SpellList(AnonymousAll(ts), seq(|ts|, _ => None), Plain(full)) == PrintList(ts, full)
    decreases ts, 0
  {
    hide LegalShape, Print, Anonymous, Spell;
    if ts != [] {
      var anonymous := AnonymousAll(ts);
      var nones: seq<Option<string>> := seq(|ts|, _ => None);
      AnonymousIsLegal(registry, ts[0], full);
      AnonymousAllLegal(registry, ts[1..], full);
      assert anonymous[1..] == AnonymousAll(ts[1..]) && nones[1..] == seq(|ts[1..]|, _ => None);
    }
  }

  /** The printed form carries no parameter names: reading it back gives the type without them,
      so the round trip is exact for the types that have none and only for those. */
  lemma ParsePrintedShape(registry: Registry, t: CassType, full: bool)
    requires LegalShape(registry, t)
    ensures Parse(registry, Print(t, full)) == Some(Anonymous(t))
    ensures Parse(registry, Print(t, full)) == Some(t) <==> t == Anonymous(t)
  {
    hide Print, Parse, Anonymous, LegalShape, LegalType, Spell;
    AnonymousIsLegal(registry, t, full);
    ParseSpelled(registry, Anonymous(t), Plain(full));
  }

  // -------------------------------------------------------------------------- known spellings

  const UTF8 := CassType("UTF8Type", [], [])
  const DECIMAL := CassType("DecimalType", [], [])

  /** The printed names that the driver's own tests expect. */
  lemma KnownPrints()
    ensures Print(CassType("LongType", [], []), false) == "LongType"
    ensures Print(CassType("LongType", [], []), true) == "org.apache.cassandra.db.marshal.LongType"
    ensures Print(CassType("SetType", [DECIMAL], [None]), true) == PREFIX + "SetType(" + PREFIX + "DecimalType)"
    ensures Print(CassType("MapType", [UTF8, DECIMAL], [None, None]), false) == "MapType(UTF8Type, DecimalType)"
  {
    hide Print;
    KnownLongPrint();
    KnownFullPrint();
    KnownMapPrint();
  }

  lemma KnownLongPrint()
    ensures Print(CassType("LongType", [], []), false) == "LongType"
    ensures Print(CassType("LongType", [], []), true) == "org.apache.cassandra.db.marshal.LongType"
  {
  }

  lemma KnownMapPrint()
    ensures Print(CassType("MapType", [UTF8, DECIMAL], [None, None]), false) == "MapType(UTF8Type, DecimalType)"
  {
    assert [UTF8, DECIMAL][1..] == [DECIMAL];
    assert PrintList([DECIMAL], false) == "DecimalType";
    assert PrintList([UTF8, DECIMAL], false) == "UTF8Type" + ", " + "DecimalType";
  }

  lemma KnownFullPrint()
    ensures Print(CassType("SetType", [DECIMAL], [None]), true) == PREFIX + "SetType(" + PREFIX + "DecimalType)"
  {
    assert PrintList([DECIMAL], true) == Print(DECIMAL, true) == PREFIX + "DecimalType";
    assert Print(CassType("SetType", [DECIMAL], [None]), true) ==
           PREFIX + "SetType" + "(" + (PREFIX + "DecimalType") + ")";
  }

  const BAR := CassType("BarType", [UTF8], [Some("61646472657373")])
  const FOO := CassType("FooType", [UTF8, BAR, UTF8], [Some("63697479"), None, Some("7a6970")])

  predicate FooRegistered(registry: Registry) {
    && "FooType" in registry && "BarType" in registry && "UTF8Type" in registry
    && ArityOf(registry, "FooType") == Unknown && ArityOf(registry, "BarType") == Unknown
  }

  /** A type with named parameters, and one parameterized itself: the tests' example, in short names. */
  lemma KnownParse(registry: Registry)
    requires FooRegistered(registry)
    ensures Parse(registry, "FooType" + "(" + ("63697479" + ":" + "UTF8Type" + "," +
                            ("BarType" + "(" + ("61646472657373" + ":" + "UTF8Type") + ")" + "," +
                             ("7a6970" + ":" + "UTF8Type"))) + ")") == Some(FOO)
  {
    FooIsLegal(registry);
    var style := Style(false, ":", ",");
    ParseSpelled(registry, FOO, style);
    hide Parse;
    FooSpelled(style);
  }

  lemma FooIsLegal(registry: Registry)
    requires FooRegistered(registry)
    ensures LegalType(registry, FOO)
  {
    FooNames(registry);
    hide LegalName, LegalAlias, ArityOf;
    assert LegalTypes(registry, []);
    assert LegalType(registry, UTF8) && LegalTypes(registry, [UTF8]);
    assert LegalType(registry, BAR);
    assert [UTF8, BAR, UTF8][1..] == [BAR, UTF8] && [BAR, UTF8][1..] == [UTF8];
    assert LegalTypes(registry, [BAR, UTF8]);
  }

  lemma FooNames(registry: Registry)
    requires FooRegistered(registry)
    ensures LegalName(registry, "FooType") && LegalName(registry, "BarType") && LegalName(registry, "UTF8Type")
    ensures LegalAlias(Some("63697479")) && LegalAlias(Some("61646472657373")) && LegalAlias(Some("7a6970"))
    ensures LegalAlias(None)
  {
  }

  lemma FooSpelled(style: Style)
    requires style == Style(false, ":", ",")
    ensures Spell(None, FOO, style) == "FooType" + "(" + ("63697479" + ":" + "UTF8Type" + "," +
              ("BarType" + "(" + ("61646472657373" + ":" + "UTF8Type") + ")" + "," +
               ("7a6970" + ":" + "UTF8Type"))) + ")"
  {
    hide Spell, SpellList;
    SpellWord(None, "FooType", style);
    SpellWord(None, "BarType", style);
    SpellLeaf(Some("63697479"), style);
    SpellLeaf(Some("61646472657373"), style);
    SpellLeaf(Some("7a6970"), style);
    var ts, names := [UTF8, BAR, UTF8], FOO.fieldNames;
    assert ts[1..] == [BAR, UTF8] && names[1..] == [None, Some("7a6970")];
    assert [BAR, UTF8][1..] == [UTF8] && names[1..][1..] == [Some("7a6970")];
    SpellListStep([UTF8], [Some("61646472657373")], style);
    SpellListStep([UTF8], [Some("7a6970")], style);
    SpellListStep([BAR, UTF8], names[1..], style);
    SpellListStep(ts, names, style);
    SpellStep(None, BAR, style);
    SpellStep(None, FOO, style);
  }

  lemma SpellWord(alias: Option<string>, name: string, style: Style)
    requires !style.full
    ensures Marked(alias, name, style) == if alias.Some? then alias.value + style.mark + name else name
  {
  }

  lemma SpellLeaf(alias: Option<string>, style: Style)
    requires !style.full && alias.Some?
    ensures Spell(alias, UTF8, style) == alias.value + style.mark + "UTF8Type"
  {
  }

  lemma SpellStep(alias: Option<string>, t: CassType, style: Style)
    requires |t.fieldNames| == |t.subtypes| && t.subtypes != []
    ensures Spell(alias, t, style) ==
            Marked(alias, t.name, style) + "(" + SpellList(t.subtypes, t.fieldNames, style) + ")"
  {
  }

  lemma SpellListStep(ts: seq<CassType>, names: seq<Option<string>>, style: Style)
    requires |names| == |ts| && ts != [] && |ts[0].fieldNames| == |ts[0].subtypes|
    ensures SpellList(ts, names, style) ==
            if |ts| == 1 then Spell(names[0], ts[0], style)
            else Spell(names[0], ts[0], style) + style.gap + SpellList(ts[1..], names[1..], style)
  {
  }
}
