/**
 * Facts about the reader's text and its leaf parsers (`nil`, booleans,
 * numbers, strings, symbols, keywords, comments and discard markers),
 * none of which reads a nested form, and about the displays of the values
 * the reader reads back.
 */
module ReaderText {
  import opened Wrappers
  import opened Values
  import opened Reader
  import Symbols
  import Keywords
  import Maps

  // ---------------------------------------------------------------- what reads back

  /** A non-empty run of symbol characters. */
  predicate NameChars(n: string)
  {
    n != [] && forall i | 0 <= i < |n| :: IsSymbolChar(n[i])
  }

  /** A name that reads as a symbol: not a keyword, a quote, a number, `nil`, `true` or `false`. */
  predicate SymbolStart(n: string)
  {
    NameChars(n) && n[0] != ':' && n[0] != '\'' && !IsDigit(n[0]) &&
    !(n[0] == '-' && |n| > 1 && IsDigit(n[1])) &&
    !StartsWith(n, "nil") && !StartsWith(n, "true") && !StartsWith(n, "false")
  }

  /**
   * The values whose display reads back as the value: nil, booleans,
   * integers, strings without a double quote, symbols and keywords whose
   * names the reader reads as such, and lists, vectors, sets and maps of those.
   */
  predicate Readable(v: Value)
    ensures Readable(v) ==> Printable(v)
  {
    match v
    case Nil => true
    case Boolean(_) => true
    case Integer(_) => true
    case String(t) => '"' !in t
    case Symbol(s) =>
      if s.Unqualified? then SymbolStart(s.unqualified.name)
      else SymbolStart(s.qualified.namespace) && NameChars(s.qualified.name)
    case Keyword(k) =>
      if k.Unqualified? then NameChars(k.unqualified.name) && k.unqualified.name[0] != ':'
      else NameChars(k.qualified.namespace) && k.qualified.namespace[0] != ':' && NameChars(k.qualified.name)
    case List(xs) => forall i | 0 <= i < |xs| :: Readable(xs[i])
    case Vector(xs) => forall i | 0 <= i < |xs| :: Readable(xs[i])
    case Set(s) => forall x | x in s :: Readable(x)
    case Map(m) => forall k | k in m :: Readable(k) && Readable(m[k])
    case _ => false
  }

  /** Every item is readable. */
  predicate ReadableItems(xs: seq<Value>)
    ensures ReadableItems(xs) ==> forall i | 0 <= i < |xs| :: Printable(xs[i])
  {
    assert forall i | 0 <= i < |xs| :: Readable(xs[i]) ==> Printable(xs[i]);
    forall i | 0 <= i < |xs| :: Readable(xs[i])
  }

  /** What may follow a form: nothing, a separator or a closing bracket. */
  predicate Delimiter(rest: string)
  {
    rest == [] || IsWs(rest[0]) || rest[0] == ')' || rest[0] == ']' || rest[0] == '}'
  }

  /** A closing bracket and what follows it. */
  predicate Closing(tail: string)
  {
    tail != [] && (tail[0] == ')' || tail[0] == ']' || tail[0] == '}')
  }

  /** The characters a printed readable value starts and ends with. */
  predicate EdgeChar(c: char)
  {
    IsSymbolChar(c) || c == '"' || c == '(' || c == ')' || c == '[' || c == ']' ||
    c == '#' || c == '{' || c == '}'
  }

  /** Text that is no noise and opens no bracketed form or quote: only a leaf can read it. */
  predicate LeafStart(s: string)
  {
    FormStart(s) && s[0] != '(' && s[0] != '[' && s[0] != '#' && s[0] != '{' && s[0] != '\''
  }

  /** Text that starts with no separator, comment or discard marker. */
  predicate FormStart(s: string)
  {
    s != [] && !IsWs(s[0]) && s[0] != ';' && !StartsWith(s, "#_")
  }

  /** Each value as the item `Some(value)`, the way the bracketed forms collect them. */
  function Wrap(xs: seq<Value>): (r: seq<Option<Value>>)
    ensures |r| == |xs| && forall i | 0 <= i < |xs| :: r[i] == Some(xs[i])
  {
    if xs == [] then [] else [Some(xs[0])] + Wrap(xs[1..])
  }

  lemma WrapUnfolds(xs: seq<Value>)
    requires xs != []
    ensures Wrap(xs) == [Some(xs[0])] + Wrap(xs[1..]) && [xs[0]] + xs[1..] == xs
  {
  }

  /** Collecting the wrapped items gives the values back. */
  lemma SomesOfWrap(xs: seq<Value>)
    ensures Somes(Wrap(xs)) == xs
  {
    var r := Somes(Wrap(xs));
    assert |r| == |xs| && forall i | 0 <= i < |xs| :: r[i] == xs[i];
  }

  // ---------------------------------------------------------------- text helpers

  lemma {:induction false} PrefixLengthOf(a: string, b: string, p: char -> bool)
    requires forall i | 0 <= i < |a| :: p(a[i])
    requires b == [] || !p(b[0])
    ensures PrefixLength(a + b, p) == |a|
  {
    if a == [] {
      assert a + b == b;
    } else {
      assert (a + b)[1..] == a[1..] + b;
      PrefixLengthOf(a[1..], b, p);
    }
  }

  lemma Ws0Keeps(s: string)
    requires s == [] || !IsWs(s[0])
    ensures Ws0(s) == s
  {
  }

  lemma Ws0AfterSpace(u: string)
    requires u == [] || !IsWs(u[0])
    ensures Ws1(" " + u) == Some(u)
  {
    assert (" " + u)[1..] == u;
    assert PrefixLength(" " + u, IsWs) == 1 + PrefixLength(u, IsWs);
  }

  /** Text of separators only is dropped whole. */
  lemma OnlySeparators(w: string)
    requires forall i | 0 <= i < |w| :: IsWs(w[i])
    ensures Ws0(w) == []
  {
  }

  lemma NotPrefix(s: string, p: string)
    requires s != [] && p != [] && s[0] != p[0]
    ensures !StartsWith(s, p)
  {
    if |p| <= |s| {
      assert s[..|p|][0] == s[0];
    }
  }

  /** A text that starts with a run of symbol characters starts with `p` only if the run does. */
  lemma PrefixWithin(n: string, tail: string, p: string)
    requires NameChars(n) && (tail == [] || !IsSymbolChar(tail[0]))
    requires forall i | 0 <= i < |p| :: IsSymbolChar(p[i])
    ensures StartsWith(n + tail, p) ==> StartsWith(n, p)
  {
    if |p| <= |n| {
      assert (n + tail)[..|p|] == n[..|p|];
    } else if |p| <= |n + tail| {
      assert (n + tail)[..|p|][|n|] == tail[0];
      assert (n + tail)[..|p|][|n|] != p[|n|];
    }
  }

  lemma SimpleSymbolOf(n: string, tail: string)
    requires NameChars(n) && (tail == [] || !IsSymbolChar(tail[0]))
    ensures SimpleSymbol(n + tail) == Some((n, tail))
  {
    PrefixLengthOf(n, tail, IsSymbolChar);
    assert (n + tail)[..|n|] == n && (n + tail)[|n|..] == tail;
  }

  /** `one` followed by `rest`: its first character and what follows it. */
  lemma FirstChar(one: string, rest: string)
    requires |one| == 1
    ensures (one + rest)[0] == one[0] && (one + rest)[1..] == rest && StartsWith(one + rest, one)
  {
    assert (one + rest)[..1] == one;
  }

  // ---------------------------------------------------------------- no noise, no opening

  /** Text that starts with none of the bracketing characters opens no bracketed form. */
  lemma NotOpening(s: string)
    requires s != [] && s[0] != '(' && s[0] != '[' && s[0] != '#' && s[0] != '{'
    ensures !StartsWith(s, "(") && !StartsWith(s, "[") && !StartsWith(s, "#{") && !StartsWith(s, "{")
  {
    NotPrefix(s, "(");
    NotPrefix(s, "[");
    NotPrefix(s, "#{");
    NotPrefix(s, "{");
  }

  /** Text that starts with no separator or `;` starts with no separator and no comment. */
  lemma Quiet(s: string)
    requires s != [] && !IsWs(s[0]) && s[0] != ';'
    ensures Ws1(s) == None && Comment(s) == None && Ws0(s) == s
  {
    Ws0Keeps(s);
  }

  /** Text that starts with no separator and no `#_` starts with no discard marker. */
  lemma NoMarker(s: string)
    requires s != [] && !IsWs(s[0]) && !StartsWith(s, "#_")
    ensures MarkerRun(s) == (0, s)
  {
    Ws0Keeps(s);
    assert Marker(s) == None;
  }

  /** The texts of `nil` and the booleans start with letters, none of the other alternatives. */
  lemma NotWord(s: string)
    requires s != [] && s[0] != 'n' && s[0] != 't' && s[0] != 'f'
    ensures ParseNil(s) == Error && ParseBoolean(s) == Error
  {
    NotPrefix(s, "nil");
    NotPrefix(s, "true");
    NotPrefix(s, "false");
  }

  /** Text that does not start like a number is no number. */
  lemma NotNumber(s: string)
    requires s != [] && !IsDigit(s[0]) && (s[0] == '-' ==> |s| == 1 || !IsDigit(s[1]))
    ensures ParseNumber(s) == Error
  {
    if s[0] != '-' {
      NotPrefix(s, "-");
    }
  }

  lemma NotString(s: string)
    requires s != [] && s[0] != '"'
    ensures ParseString(s) == Error
  {
  }

  lemma NotKeyword(s: string)
    requires s != [] && s[0] != ':'
    ensures ParseKeyword(s) == Error
  {
    NotPrefix(s, ":");
  }

  lemma NotSymbol(s: string)
    requires s != [] && !IsSymbolChar(s[0])
    ensures ParseSymbol(s) == Error
  {
  }

  /** Text with none of the leaves' first characters: every leaf answers `Error`. */
  lemma NoLeaf(s: string)
    requires s != [] && !IsSymbolChar(s[0]) && s[0] != '"'
    ensures ParseNil(s) == Error && ParseBoolean(s) == Error && ParseNumber(s) == Error
    ensures ParseString(s) == Error && ParseKeyword(s) == Error && ParseSymbol(s) == Error
  {
    NotWord(s);
    NotNumber(s);
    NotString(s);
    NotKeyword(s);
    NotSymbol(s);
  }

  // ---------------------------------------------------------------- printed values

  lemma DigitFacts(d: nat)
    requires d < 10
    ensures IsDigit(Digit(d)) && Digit(d) as int - '0' as int == d
  {
    if d == 0 {} else if d == 1 {} else if d == 2 {} else if d == 3 {} else if d == 4 {}
    else if d == 5 {} else if d == 6 {} else if d == 7 {} else if d == 8 {} else {}
  }

  predicate Decimal(s: string)
  {
    forall i | 0 <= i < |s| :: IsDigit(s[i])
  }

  /** The decimal text of a number is digits, and their value is the number. */
  lemma {:induction false} ShowNatDigits(n: nat)
    ensures ShowNat(n) != [] && Decimal(ShowNat(n))
    ensures DigitsValue(ShowNat(n)) == n
  {
    DigitFacts(n % 10);
    var t := ShowNat(n);
    if n < 10 {
      assert t[..|t| - 1] == [];
    } else {
      ShowNatDigits(n / 10);
      assert t[..|t| - 1] == ShowNat(n / 10);
    }
  }

  lemma {:induction false} WithoutUnderscoresKeeps(t: string)
    requires Decimal(t)
    ensures WithoutUnderscores(t) == t
  {
    if t != [] {
      WithoutUnderscoresKeeps(t[1..]);
    }
  }

  /** Text that starts and ends with an edge character, and starts with `#{` when it starts with `#`. */
  predicate Edged(d: string)
  {
    d != [] && EdgeChar(d[0]) && EdgeChar(d[|d| - 1]) && (d[0] == '#' ==> |d| > 1 && d[1] == '{')
  }

  /**
   * Every printed readable value starts and ends with a character that is no
   * separator or `;`, and a `#` in front is the one of `#{`, never of `#_`.
   */
  lemma ShowEdges(v: Value)
    requires Readable(v)
    ensures Show(v) != [] && EdgeChar(Show(v)[0]) && EdgeChar(Show(v)[|Show(v)| - 1])
    ensures Show(v)[0] == '#' ==> |Show(v)| > 1 && Show(v)[1] == '{'
  {
    match v
    case Nil => Between("", "nil", "");
    case Boolean(b) => Between("", if b then "true" else "false", "");
    case Integer(i) => IntegerEdges(i);
    case String(t) => Between("\"", t, "\"");
    case Symbol(sym) => SymbolEdges(sym);
    case Keyword(k) => KeywordEdges(k);
    case List(xs) => Between("(", ShowItems(xs), ")");
    case Vector(xs) => Between("[", ShowItems(xs), "]");
    case Set(s) =>
      SetDisplay(s);
      Between("#{", ShowItems(Enumerate(s)), "}");
    case Map(m) =>
      MapDisplay(m);
      Between("{", ShowPairs(Maps.Entries(m)), "}");
  }

  /** Text between the given edges is edged. */
  lemma Between(open: string, body: string, close: string)
    requires (open == "" && close == "" && (body == "nil" || body == "true" || body == "false")) ||
             (open == "\"" && close == "\"") || (open == "(" && close == ")") ||
             (open == "[" && close == "]") || (open == "#{" && close == "}") || (open == "{" && close == "}")
    ensures Edged(open + body + close)
  {
  }

  lemma IntegerEdges(i: Int64)
    ensures Edged(Show(Integer(i)))
  {
    var m: nat := if i < 0 then -(i as int) else i as int;
    ShowNatDigits(m);
  }

  lemma SymbolEdges(sym: Symbols.Symbol)
    requires Readable(Symbol(sym))
    ensures Edged(Show(Symbol(sym)))
  {
    if sym.Qualified? {
      var q := sym.qualified;
      assert Show(Symbol(sym)) == q.namespace + "/" + q.name;
    }
  }

  lemma KeywordEdges(k: Keywords.Keyword)
    requires Readable(Keyword(k))
    ensures Edged(Show(Keyword(k)))
  {
    if k.Qualified? {
      var q := k.qualified;
      assert Show(Keyword(k)) == ":" + q.namespace + "/" + q.name;
    }
  }

  // ---------------------------------------------------------------- displays of sets and maps

  /** The display of a set: its members in the order `Enumerate` lists them, separated by spaces, between `#{` and `}`. */
  lemma SetDisplay(s: set<Value>)
    requires Printable(Set(s))
    ensures ReadableItems(Enumerate(s)) <== (forall x | x in s :: Readable(x))
    ensures Show(Set(s)) == "#{" + ShowItems(Enumerate(s)) + "}"
  {
    var e := Enumerate(s);
    JoinOfShows(seq(|e|, i requires 0 <= i < |e| => Show(e[i])), e);
  }

  /** The display of a map: its entries, each key and value separated by a space, separated by `, `, between `{` and `}`. */
  lemma MapDisplay(m: map<Value, Value>)
    requires Printable(Map(m))
    ensures PrintablePairs(Maps.Entries(m))
    ensures Show(Map(m)) == "{" + ShowPairs(Maps.Entries(m)) + "}"
  {
    var e := Enumerate(m.Keys);
    var ps := Maps.Entries(m);
    JoinOfPairs(seq(|e|, i requires 0 <= i < |e| => Show(e[i]) + " " + Show(m[e[i]])), ps);
  }

  /** Every key and value of the pairs has a display. */
  predicate PrintablePairs(ps: seq<(Value, Value)>)
  {
    forall i | 0 <= i < |ps| :: Printable(ps[i].0) && Printable(ps[i].1)
  }

  /** A key, a space and its value. */
  ghost function ShowPair(p: (Value, Value)): string
    requires Printable(p.0) && Printable(p.1)
  {
    Show(p.0) + " " + Show(p.1)
  }

  /** The displays of map entries, separated by `, `. */
  ghost function ShowPairs(ps: seq<(Value, Value)>): string
    requires PrintablePairs(ps)
  {
    if ps == [] then "" else ShowPair(ps[0]) + ShowPairsAfter(ps[1..])
  }

  /** The displays of entries that follow an earlier entry: each after `, `. */
  ghost function ShowPairsAfter(ps: seq<(Value, Value)>): string
    requires PrintablePairs(ps)
  {
    if ps == [] then "" else ", " + ShowPair(ps[0]) + ShowPairsAfter(ps[1..])
  }

  /** Later items display as a space and then the items. */
  lemma AfterIsSpaced(ys: seq<Value>)
    requires ys != [] && forall i | 0 <= i < |ys| :: Printable(ys[i])
    ensures ShowAfter(ys) == " " + ShowItems(ys)
  {
    SpaceRegroups(Show(ys[0]), ShowAfter(ys[1..]));
  }

  /** Joining the displays of the items with spaces is their display as items. */
  lemma {:induction false} JoinOfShows(parts: seq<string>, xs: seq<Value>)
    requires forall i | 0 <= i < |xs| :: Printable(xs[i])
    requires |parts| == |xs| && forall i | 0 <= i < |xs| :: parts[i] == Show(xs[i])
    ensures Join(parts, " ") == ShowItems(xs)
  {
    if |xs| > 1 {
      JoinOfShows(parts[1..], xs[1..]);
      AfterIsSpaced(xs[1..]);
    }
  }

  /** Later entries display as `, ` and then the entries. */
  lemma AfterIsCommaSpaced(ps: seq<(Value, Value)>)
    requires ps != [] && PrintablePairs(ps)
    ensures ShowPairsAfter(ps) == ", " + ShowPairs(ps)
  {
  }

  /** Joining the displays of the entries with `, ` is their display as entries. */
  lemma {:induction false} JoinOfPairs(parts: seq<string>, ps: seq<(Value, Value)>)
    requires PrintablePairs(ps)
    requires |parts| == |ps| && forall i | 0 <= i < |ps| :: parts[i] == ShowPair(ps[i])
    ensures Join(parts, ", ") == ShowPairs(ps)
  {
    if |ps| > 1 {
      JoinOfPairs(parts[1..], ps[1..]);
      AfterIsCommaSpaced(ps[1..]);
    }
  }

  /** A printed readable value and what follows it start with the value's first character. */
  lemma ShowStart(v: Value, rest: string)
    requires Readable(v)
    ensures FormStart(Show(v) + rest)
  {
    ShowEdges(v);
    EdgeStart(Show(v), rest);
  }

  /** Text that starts with an edge character, and with `#{` when it starts with `#`, is a form's start. */
  lemma EdgeStart(d: string, rest: string)
    requires d != [] && EdgeChar(d[0]) && (d[0] == '#' ==> |d| > 1 && d[1] == '{')
    ensures FormStart(d + rest)
  {
    var t := d + rest;
    assert t[0] == d[0];
    if t[0] == '#' {
      assert t[1] == d[1];
      assert t[..2] != "#_";
    }
  }

  /** The items after the first one start with a space, so a delimiter stays one. */
  lemma AfterDelimits(ys: seq<Value>, tail: string)
    requires forall i | 0 <= i < |ys| :: Printable(ys[i])
    requires Delimiter(tail)
    ensures Delimiter(ShowAfter(ys) + tail)
  {
    if ys != [] {
      assert (ShowAfter(ys) + tail)[0] == ' ';
    } else {
      assert ShowAfter(ys) + tail == tail;
    }
  }

  lemma AfterDelimiter(ys: seq<Value>)
    requires forall i | 0 <= i < |ys| :: Printable(ys[i])
    ensures Delimiter(ShowAfter(ys))
  {
  }

  /** Printed items and a closing bracket start with no separator. */
  lemma ItemsStart(xs: seq<Value>, tail: string)
    requires ReadableItems(xs) && Closing(tail)
    ensures Ws0(ShowItems(xs) + tail) == ShowItems(xs) + tail && Ws0(tail) == tail
  {
    Ws0Keeps(tail);
    if xs != [] {
      ShowEdges(xs[0]);
      assert (ShowItems(xs) + tail)[0] == Show(xs[0])[0];
    } else {
      assert ShowItems(xs) + tail == tail;
    }
    Ws0Keeps(ShowItems(xs) + tail);
  }

  /** No items: the closing bracket follows at once. */
  lemma NoItems(xs: seq<Value>, tail: string)
    requires xs == [] && Closing(tail)
    ensures ShowItems(xs) + tail == tail && ShowAfter(xs) + tail == tail
    ensures Wrap(xs) == [] && Ws1(tail) == None
  {
    assert ShowItems(xs) == [];
  }

  /** How the text of items splits: the first item's display, then the rest. */
  lemma ItemsText(xs: seq<Value>, tail: string)
    requires xs != [] && ReadableItems(xs) && Closing(tail)
    ensures ShowItems(xs) + tail == Show(xs[0]) + (ShowAfter(xs[1..]) + tail)
    ensures Delimiter(ShowAfter(xs[1..]) + tail)
    ensures Readable(xs[0]) && ReadableItems(xs[1..])
    ensures Wrap(xs) == [Some(xs[0])] + Wrap(xs[1..])
  {
    AfterDelimits(xs[1..], tail);
  }

  /** The display of items: the first item's, then the later ones' after spaces. */
  lemma ItemsSplit(xs: seq<Value>)
    requires xs != [] && ReadableItems(xs)
    ensures ShowItems(xs) == Show(xs[0]) + ShowAfter(xs[1..]) && ShowItems(xs) != []
    ensures Delimiter(ShowAfter(xs[1..]))
    ensures Readable(xs[0]) && ReadableItems(xs[1..]) && [xs[0]] + xs[1..] == xs
  {
    ShowEdges(xs[0]);
  }

  /** The display of later items: a space, the first one's display, then the rest. */
  lemma AfterSplit(ys: seq<Value>)
    requires ys != [] && ReadableItems(ys)
    ensures ShowAfter(ys) == " " + (Show(ys[0]) + ShowAfter(ys[1..])) && ShowAfter(ys) != []
    ensures Delimiter(ShowAfter(ys[1..]))
    ensures Readable(ys[0]) && ReadableItems(ys[1..]) && [ys[0]] + ys[1..] == ys
  {
    ReadableTail(ys);
    AfterDelimiter(ys[1..]);
    SpaceRegroups(Show(ys[0]), ShowAfter(ys[1..]));
  }

  /** The first of readable items is readable, and so are the rest. */
  lemma ReadableTail(ys: seq<Value>)
    requires ys != [] && ReadableItems(ys)
    ensures Readable(ys[0]) && ReadableItems(ys[1..]) && [ys[0]] + ys[1..] == ys
  {
    var later := ys[1..];
    assert forall i | 0 <= i < |later| :: later[i] == ys[i + 1];
  }

  lemma SpaceRegroups(first: string, later: string)
    ensures " " + first + later == " " + (first + later) && " " + first + later != []
  {
  }

  /** No items display as nothing. */
  lemma EmptyDisplay(xs: seq<Value>)
    requires xs == []
    ensures ShowItems(xs) == [] && ShowAfter(xs) == []
  {
  }

  /** How the text of later items splits: a space, the first one's display, then the rest. */
  lemma AfterText(ys: seq<Value>, tail: string)
    requires ys != [] && ReadableItems(ys)
    requires Delimiter(tail)
    ensures Ws1(ShowAfter(ys) + tail) == Some(Show(ys[0]) + (ShowAfter(ys[1..]) + tail))
    ensures Delimiter(ShowAfter(ys[1..]) + tail)
    ensures Readable(ys[0]) && ReadableItems(ys[1..])
    ensures Wrap(ys) == [Some(ys[0])] + Wrap(ys[1..])
  {
    AfterSplit(ys);
    AfterDelimits(ys[1..], tail);
    var a := ShowAfter(ys[1..]) + tail;
    SpaceBefore(ShowAfter(ys), Show(ys[0]), ShowAfter(ys[1..]), tail);
    ShowStart(ys[0], a);
    Ws0AfterSpace(Show(ys[0]) + a);
  }

  lemma SpaceBefore(after: string, first: string, later: string, tail: string)
    requires after == " " + (first + later)
    ensures after + tail == " " + (first + (later + tail))
  {
  }

  /** The display of later items ends with the last item's last character. */
  lemma {:induction false} AfterLastEdge(ys: seq<Value>)
    requires ys != [] && ReadableItems(ys)
    ensures ShowAfter(ys) != [] && EdgeChar(ShowAfter(ys)[|ShowAfter(ys)| - 1])
  {
    ShowEdges(ys[0]);
    var t := ShowAfter(ys);
    if |ys| > 1 {
      AfterLastEdge(ys[1..]);
      assert t[|t| - 1] == ShowAfter(ys[1..])[|ShowAfter(ys[1..])| - 1];
    } else {
      assert t == " " + Show(ys[0]);
    }
  }

  /** The display of items starts with the first item's first character. */
  lemma FirstEdge(xs: seq<Value>)
    requires xs != [] && ReadableItems(xs)
    ensures ShowItems(xs) != [] && EdgeChar(ShowItems(xs)[0])
  {
    ItemsSplit(xs);
    ShowEdges(xs[0]);
    assert ShowItems(xs)[0] == Show(xs[0])[0];
  }

  /** The display of items ends with the last item's last character. */
  lemma LastEdge(xs: seq<Value>)
    requires xs != [] && ReadableItems(xs)
    ensures ShowItems(xs) != [] && EdgeChar(ShowItems(xs)[|ShowItems(xs)| - 1])
  {
    ShowEdges(xs[0]);
    var t := ShowItems(xs);
    if |xs| > 1 {
      AfterLastEdge(xs[1..]);
      assert t[|t| - 1] == ShowAfter(xs[1..])[|ShowAfter(xs[1..])| - 1];
    } else {
      assert t == Show(xs[0]);
    }
  }

  // ---------------------------------------------------------------- leaves that read a display

  lemma NilLeaves(rest: string)
    ensures var s := Show(Nil) + rest;
      LeafStart(s) && Ws0(s) == s && ParseNil(s) == Parsed(rest, Nil)
  {
    var s := "nil" + rest;
    assert s[..3] == "nil" && s[3..] == rest;
    Ws0Keeps(s);
  }

  lemma BooleanLeaves(b: bool, rest: string)
    ensures var s := Show(Boolean(b)) + rest;
      LeafStart(s) && Ws0(s) == s && ParseNil(s) == Error && ParseBoolean(s) == Parsed(rest, Boolean(b))
  {
    var s := (if b then "true" else "false") + rest;
    NotPrefix(s, "nil");
    if b {
      assert s[..4] == "true" && s[4..] == rest;
    } else {
      NotPrefix(s, "true");
      assert s[..5] == "false" && s[5..] == rest;
    }
    Ws0Keeps(s);
  }

  /** What may follow an integer literal: no digit, `_`, or `.` and a digit. */
  predicate NumberEnd(rest: string)
  {
    rest == [] || (!IsDigitOrUnderscore(rest[0]) && !(rest[0] == '.' && |rest| > 1 && IsDigit(rest[1])))
  }

  /** An integer literal: a digit, then digits and `_`. */
  predicate IntegerDigits(d: string)
  {
    d != [] && IsDigit(d[0]) && forall i | 0 <= i < |d| :: IsDigitOrUnderscore(d[i])
  }

  /** The sign, the digits and what follows them, taken apart. */
  lemma LiteralText(sign: string, d: string, rest: string)
    requires sign == "" || sign == "-"
    requires IntegerDigits(d)
    ensures var s := sign + d + rest;
      (StartsWith(s, "-") <==> sign == "-") && s[|sign|] == d[0] && s[|sign| + 1..] == d[1..] + rest &&
      s[|sign| + |d|..] == rest && s[..|sign| + |d|] == sign + d
  {
    var s := sign + d + rest;
    if sign == "" {
      assert s[0] == d[0];
      NotPrefix(s, "-");
    } else {
      assert s[..1] == "-";
    }
    assert s[|sign|..] == d + rest;
  }

  /** `recognize` takes just the literal. */
  lemma NumberLengthOfLiteral(sign: string, d: string, rest: string)
    requires sign == "" || sign == "-"
    requires IntegerDigits(d) && NumberEnd(rest)
    ensures NumberLength(sign + d + rest) == |sign| + |d|
  {
    LiteralText(sign, d, rest);
    PrefixLengthOf(d[1..], rest, IsDigitOrUnderscore);
  }

  /** The integer the sign and the digits of a literal denote. */
  function SignedValue(sign: string, w: string): int
    requires Decimal(w)
  {
    if sign == "-" then -(DigitsValue(w) as int) else DigitsValue(w)
  }

  /** An integer within the range of `i64`. */
  predicate InInt64(value: int)
  {
    -0x8000_0000_0000_0000 <= value < 0x8000_0000_0000_0000
  }

  /** An integer literal is a number's text, and has no `.`. */
  lemma LiteralShape(sign: string, d: string)
    requires sign == "" || sign == "-"
    requires IntegerDigits(d)
    ensures var t := sign + d;
      NumberShape(t) && '.' !in t && (StartsWith(t, "-") <==> sign == "-")
  {
    var t := sign + d;
    LiteralText(sign, d, "");
    assert t + "" == t;
    assert forall i | |sign| <= i < |t| :: t[i] == d[i - |sign|];
    assert forall i | 0 <= i < |t| :: t[i] != '.';
  }

  /** Without its underscores, an integer literal is its sign and then digits. */
  lemma LiteralNumberText(sign: string, d: string)
    requires sign == "" || sign == "-"
    requires IntegerDigits(d)
    ensures var t := sign + d;
      |sign| < |t| && (sign == "-" ==> t[0] == '-') && IsDigit(t[|sign|]) &&
      (forall i | |sign| <= i < |t| :: IsDigitOrUnderscore(t[i])) &&
      Decimal(WithoutUnderscores(d)) && WithoutUnderscores(d) != [] &&
      NumberText(t, |sign|) == sign + WithoutUnderscores(d)
  {
    var t := sign + d;
    assert forall i | |sign| <= i < |t| :: t[i] == d[i - |sign|];
    assert t[|sign|..] == d;
    DigitsOnly(d);
  }

  /** `str::parse::<i64>` of a sign and digits: their value, when it is in range. */
  lemma ParseInt64Of(sign: string, w: string)
    requires sign == "" || sign == "-"
    requires Decimal(w) && w != []
    ensures var s := sign + w;
      s != [] && (s[0] == '-' || IsDigit(s[0])) && (forall i | 1 <= i < |s| :: IsDigit(s[i])) &&
      ParseInt64(s) == if InInt64(SignedValue(sign, w)) then Some(SignedValue(sign, w) as Int64) else None
  {
    var s := sign + w;
    assert s[0] == if sign == "-" then '-' else w[0];
    assert s[|sign|..] == w;
    assert forall i | 1 <= i < |s| :: s[i] == if sign == "-" then w[i - 1] else w[i];
  }

  /** The literal's value without its underscores, or a panic when it is beyond `i64`. */
  lemma NumberValueOfLiteral(sign: string, d: string)
    requires sign == "" || sign == "-"
    requires IntegerDigits(d)
    ensures Decimal(WithoutUnderscores(d)) && NumberShape(sign + d) &&
      NumberValue(sign + d) == var value := SignedValue(sign, WithoutUnderscores(d));
        if InInt64(value) then Done(Integer(value as Int64)) else Panic
  {
    LiteralShape(sign, d);
    LiteralNumberText(sign, d);
    ParseInt64Of(sign, WithoutUnderscores(d));
  }

  /**
   * An integer literal: an optional `-`, a digit and then digits and `_`.
   * The underscores are ignored; the value reads as an `i64`, or the read
   * panics when it is out of range.
   */
  lemma IntegerLiteral(sign: string, d: string, rest: string)
    requires sign == "" || sign == "-"
    requires IntegerDigits(d) && NumberEnd(rest)
    ensures Decimal(WithoutUnderscores(d)) &&
      ParseNumber(sign + d + rest) == var value := SignedValue(sign, WithoutUnderscores(d));
        if InInt64(value) then Parsed(rest, Integer(value as Int64)) else Panicked
  {
    LiteralText(sign, d, rest);
    NumberLengthOfLiteral(sign, d, rest);
    NumberValueOfLiteral(sign, d);
  }

  /** The display of an `i64`: its sign, then the decimal digits of its magnitude. */
  lemma DecimalText(i: Int64) returns (sign: string, d: string)
    ensures Show(Integer(i)) == sign + d && (sign == "" || sign == "-")
    ensures IntegerDigits(d) && Decimal(d) && WithoutUnderscores(d) == d
    ensures SignedValue(sign, d) == i as int && InInt64(i as int)
  {
    var m: nat := if i < 0 then -(i as int) else i as int;
    sign := if i < 0 then "-" else "";
    d := ShowNat(m);
    ShowNatDigits(m);
    WithoutUnderscoresKeeps(d);
  }

  /** A delimiter ends an integer literal. */
  lemma DelimiterEndsNumber(rest: string)
    requires Delimiter(rest)
    ensures NumberEnd(rest)
  {
  }

  /** Text that starts like a number is read by `try_parse_number`, and by no leaf before. */
  lemma NumberLeaves(s: string)
    requires s != [] && (IsDigit(s[0]) || (s[0] == '-' && |s| > 1 && IsDigit(s[1])))
    ensures LeafStart(s) && Ws0(s) == s && ParseNil(s) == Error && ParseBoolean(s) == Error
    ensures ParseNumber(s) != Error
  {
    if s[0] == '-' {
      assert s[..1] == "-";
    }
    NotWord(s);
    Ws0Keeps(s);
  }

  /** An integer literal starts like a number. */
  lemma LiteralStart(sign: string, d: string, rest: string)
    requires sign == "" || sign == "-"
    requires IntegerDigits(d)
    ensures var s := sign + d + rest;
      s != [] && (IsDigit(s[0]) || (s[0] == '-' && |s| > 1 && IsDigit(s[1])))
  {
    LiteralText(sign, d, rest);
  }

  /** The decimal text of an `i64` is read by `try_parse_number` as it, and by no leaf before. */
  lemma IntegerLeaves(i: Int64, rest: string)
    requires Delimiter(rest)
    ensures var s := Show(Integer(i)) + rest;
      LeafStart(s) && Ws0(s) == s && ParseNil(s) == Error && ParseBoolean(s) == Error &&
      ParseNumber(s) == Parsed(rest, Integer(i))
  {
    var sign, d := DecimalText(i);
    DelimiterEndsNumber(rest);
    IntegerLiteral(sign, d, rest);
    LiteralStart(sign, d, rest);
    NumberLeaves(sign + d + rest);
  }

  /** `try_parse_string` reads a quoted text without a double quote in it, and no leaf before does. */
  lemma StringLeaves(t: string, rest: string)
    requires '"' !in t
    ensures var s := Show(String(t)) + rest;
      LeafStart(s) && Ws0(s) == s && ParseNil(s) == Error && ParseBoolean(s) == Error &&
      ParseNumber(s) == Error && ParseString(s) == Parsed(rest, String(t))
  {
    var s := "\"" + t + "\"" + rest;
    var body := s[1..];
    assert body == t + "\"" + rest;
    assert body[|t|] == '"';
    assert forall i | 0 <= i < |t| :: body[i] == t[i];
    assert FindChar(body, '"') == Some(|t|);
    assert body[..|t|] == t && body[|t| + 1..] == rest;
    NotWord(s);
    NotNumber(s);
    Ws0Keeps(s);
  }

  /** A name and what follows it: the name is the unqualified symbol's. */
  lemma UnqualifiedParts(name: string, rest: string)
    requires NameChars(name) && Delimiter(rest)
    ensures SymbolParts(name + rest) == Some((None, name, rest))
  {
    SimpleSymbolOf(name, rest);
  }

  /** A namespace, `/` and a name, and what follows them: a qualified symbol's parts. */
  lemma QualifiedParts(ns: string, name: string, rest: string)
    requires NameChars(ns) && NameChars(name) && Delimiter(rest)
    ensures SymbolParts(ns + "/" + name + rest) == Some((Some(ns), name, rest))
  {
    var after := SlashText(ns, name, rest);
    QualifiedPartsAfter(ns, name, after, rest);
  }

  /** A name that reads as a symbol, and what follows it, starts with neither `nil` nor a boolean. */
  lemma NoWordIn(first: string, after: string)
    requires SymbolStart(first) && (after == [] || !IsSymbolChar(after[0]))
    ensures ParseNil(first + after) == Error && ParseBoolean(first + after) == Error
  {
    PrefixWithin(first, after, "nil");
    PrefixWithin(first, after, "true");
    PrefixWithin(first, after, "false");
  }

  /** A name that reads as a symbol, and what follows it, starts like no number. */
  lemma NoNumberIn(first: string, after: string)
    requires SymbolStart(first) && (after == [] || !IsSymbolChar(after[0]))
    ensures ParseNumber(first + after) == Error
  {
    var s := first + after;
    assert s[0] == first[0];
    assert |s| > 1 ==> s[1] == if |first| > 1 then first[1] else after[0];
    NotNumber(s);
  }

  /** A name, then what follows it, starts like no leaf but a symbol. */
  lemma NoLeafButSymbol(first: string, after: string)
    requires SymbolStart(first) && (after == [] || !IsSymbolChar(after[0]))
    ensures var s := first + after;
      LeafStart(s) && Ws0(s) == s && ParseNil(s) == Error && ParseBoolean(s) == Error &&
      ParseNumber(s) == Error && ParseString(s) == Error && ParseKeyword(s) == Error
  {
    var s := first + after;
    assert s[0] == first[0];
    NoWordIn(first, after);
    NoNumberIn(first, after);
    NotString(s);
    NotKeyword(s);
    Ws0Keeps(s);
  }

  /** An unqualified symbol's name is read by `try_parse_symbol`, and by no leaf before. */
  lemma UnqualifiedLeaves(u: Symbols.UnqualifiedSymbol, rest: string)
    requires SymbolStart(u.name) && Delimiter(rest)
    ensures var s := u.name + rest;
      LeafStart(s) && Ws0(s) == s && ParseNil(s) == Error && ParseBoolean(s) == Error &&
      ParseNumber(s) == Error && ParseString(s) == Error && ParseKeyword(s) == Error &&
      ParseSymbol(s) == Parsed(rest, Symbol(Symbols.Unqualified(u)))
  {
    UnqualifiedParts(u.name, rest);
    NoLeafButSymbol(u.name, rest);
  }

  /** A namespace, `/`, a name and what follows them, split after the namespace. */
  lemma SlashText(ns: string, name: string, rest: string) returns (after: string)
    ensures ns + "/" + name + rest == ns + after
    ensures after != [] && after[0] == '/' && !IsSymbolChar(after[0]) && after[1..] == name + rest
  {
    after := "/" + name + rest;
    assert after[1..] == name + rest;
  }

  lemma QualifiedPartsAfter(ns: string, name: string, after: string, rest: string)
    requires NameChars(ns) && NameChars(name) && Delimiter(rest)
    requires after != [] && after[0] == '/' && after[1..] == name + rest
    ensures SymbolParts(ns + after) == Some((Some(ns), name, rest))
  {
    SimpleSymbolOf(ns, after);
    SimpleSymbolOf(name, rest);
  }

  /** A qualified symbol's namespace, `/` and name are read by `try_parse_symbol`, and by no leaf before. */
  lemma QualifiedLeaves(q: Symbols.QualifiedSymbol, rest: string)
    requires SymbolStart(q.namespace) && NameChars(q.name) && Delimiter(rest)
    ensures var s := q.namespace + "/" + q.name + rest;
      LeafStart(s) && Ws0(s) == s && ParseNil(s) == Error && ParseBoolean(s) == Error &&
      ParseNumber(s) == Error && ParseString(s) == Error && ParseKeyword(s) == Error &&
      ParseSymbol(s) == Parsed(rest, Symbol(Symbols.Qualified(q)))
  {
    var after := SlashText(q.namespace, q.name, rest);
    QualifiedPartsAfter(q.namespace, q.name, after, rest);
    NoLeafButSymbol(q.namespace, after);
  }

  /** `try_parse_symbol` reads a symbol's display, and no leaf before it does. */
  lemma SymbolLeaves(sym: Symbols.Symbol, rest: string)
    requires Readable(Symbol(sym)) && Delimiter(rest)
    ensures var s := Show(Symbol(sym)) + rest;
      LeafStart(s) && Ws0(s) == s && ParseNil(s) == Error && ParseBoolean(s) == Error &&
      ParseNumber(s) == Error && ParseString(s) == Error && ParseKeyword(s) == Error &&
      ParseSymbol(s) == Parsed(rest, Symbol(sym))
  {
    match sym {
      case Unqualified(u) =>
        assert Show(Symbol(sym)) == u.name;
        UnqualifiedLeaves(u, rest);
      case Qualified(q) =>
        assert Show(Symbol(sym)) == q.namespace + "/" + q.name;
        QualifiedLeaves(q, rest);
    }
  }

  /** A keyword's display without its leading `:`. */
  function KeywordName(k: Keywords.Keyword): (r: string)
    ensures Keywords.Show(k) == ":" + r
  {
    match k
    case Unqualified(u) => u.name
    case Qualified(q) => q.namespace + "/" + q.name
  }

  /** `try_parse_keyword` drops `:` or `::`, and only that, from the text. */
  lemma ColonsDropped(colons: string, body: string)
    requires colons == ":" || colons == "::"
    requires body != [] && body[0] != ':'
    ensures var s := colons + body;
      s[0] == ':' && StartsWith(s, ":") &&
      (if StartsWith(s, "::") then s[2..] else s[1..]) == body
  {
    var s := colons + body;
    assert s[..1] == ":";
    if colons == ":" {
      assert s[1] == body[0];
      assert s[..2][1] == s[1];
    } else {
      assert s[..2] == "::";
    }
    assert s[|colons|..] == body;
  }

  /** A keyword's name and what follows it: the keyword's parts. */
  lemma KeywordParts(k: Keywords.Keyword, rest: string)
    requires Readable(Keyword(k)) && Delimiter(rest)
    ensures KeywordName(k) + rest != [] && (KeywordName(k) + rest)[0] != ':'
    ensures SymbolParts(KeywordName(k) + rest) ==
      if k.Unqualified? then Some((None, k.unqualified.name, rest))
      else Some((Some(k.qualified.namespace), k.qualified.name, rest))
  {
    match k {
      case Unqualified(u) => UnqualifiedParts(u.name, rest);
      case Qualified(q) => QualifiedParts(q.namespace, q.name, rest);
    }
  }

  /** Text that starts with `:` is read by no leaf before `try_parse_keyword`. */
  lemma NoLeafBeforeKeyword(s: string)
    requires s != [] && s[0] == ':'
    ensures LeafStart(s) && Ws0(s) == s && ParseNil(s) == Error && ParseBoolean(s) == Error &&
      ParseNumber(s) == Error && ParseString(s) == Error
  {
    NotWord(s);
    NotNumber(s);
    NotString(s);
    Ws0Keeps(s);
  }

  lemma KeywordOf(s: string, body: string, k: Keywords.Keyword, rest: string)
    requires StartsWith(s, ":") && (if StartsWith(s, "::") then s[2..] else s[1..]) == body
    requires SymbolParts(body) ==
      if k.Unqualified? then Some((None, k.unqualified.name, rest))
      else Some((Some(k.qualified.namespace), k.qualified.name, rest))
    ensures ParseKeyword(s) == Parsed(rest, Keyword(k))
  {
  }

  /** `try_parse_keyword` reads a keyword's name after `:` or `::`, and no leaf before it does. */
  lemma KeywordLeaves(colons: string, k: Keywords.Keyword, rest: string)
    requires colons == ":" || colons == "::"
    requires Readable(Keyword(k)) && Delimiter(rest)
    ensures var s := colons + KeywordName(k) + rest;
      LeafStart(s) && Ws0(s) == s && ParseNil(s) == Error && ParseBoolean(s) == Error &&
      ParseNumber(s) == Error && ParseString(s) == Error && ParseKeyword(s) == Parsed(rest, Keyword(k))
  {
    var body := KeywordName(k) + rest;
    var s := colons + KeywordName(k) + rest;
    assert s == colons + body;
    KeywordParts(k, rest);
    ColonsDropped(colons, body);
    KeywordOf(s, body, k, rest);
    NoLeafBeforeKeyword(s);
  }

  /** A keyword's display after another `:` is its name after `::`. */
  lemma DoubledColon(k: Keywords.Keyword, rest: string)
    ensures ":" + Keywords.Show(k) + rest == "::" + KeywordName(k) + rest
  {
  }

  // ---------------------------------------------------------------- quotes, comments and markers

  /** `'` and then a text. */
  lemma QuoteText(s: string)
    ensures var q := "'" + s;
      FormStart(q) && q[0] == '\'' && q[1..] == s && Ws0(q) == q &&
      !StartsWith(q, "(") && !StartsWith(q, "[") && !StartsWith(q, "#{") && !StartsWith(q, "{")
  {
    var q := "'" + s;
    FirstChar("'", s);
    Ws0Keeps(q);
    NotOpening(q);
  }

  /** A lone `'`. */
  lemma LoneQuote(q: string)
    requires |q| == 1 && q[0] == '\''
    ensures FormStart(q) && q[1..] == [] && Ws0(q) == q &&
      !StartsWith(q, "(") && !StartsWith(q, "[") && !StartsWith(q, "#{") && !StartsWith(q, "{")
  {
    assert q == "'" + [];
    QuoteText([]);
  }

  /** Text that starts with `#_` opens no bracketed form, starts no leaf and no quote. */
  lemma MarkerStart(s: string)
    requires |s| >= 2 && s[0] == '#' && s[1] == '_'
    ensures Ws0(s) == s && s[0] != '\'' && !IsWs(s[0]) && !IsSymbolChar(s[0]) && s[0] != '"'
    ensures !StartsWith(s, "(") && !StartsWith(s, "[") && !StartsWith(s, "#{") && !StartsWith(s, "{")
  {
    Ws0Keeps(s);
    NotPrefix(s, "(");
    NotPrefix(s, "[");
    NotPrefix(s, "{");
    assert !StartsWith(s, "#{") by {
      assert s[..2][1] == '_';
    }
  }

  /** A closing bracket opens no bracketed form, starts no leaf and no quote. */
  lemma ClosingStart(s: string)
    requires Closing(s)
    ensures Ws0(s) == s && s[0] != '\'' && !IsWs(s[0]) && !IsSymbolChar(s[0]) && s[0] != '"'
    ensures !StartsWith(s, "(") && !StartsWith(s, "[") && !StartsWith(s, "#{") && !StartsWith(s, "{")
  {
    Ws0Keeps(s);
    NotOpening(s);
  }

  /** The text of a lone marker: `#_` and then `w`. */
  lemma MarkerText(w: string)
    ensures var s := "#_" + w;
      |s| >= 2 && s[0] == '#' && s[1] == '_' && StartsWith(s, "#_") && s[2..] == w && Ws0(s) == s
  {
    assert ("#_" + w)[..2] == "#_";
    Ws0Keeps("#_" + w);
  }

  lemma MarkerOf(s: string, w: string)
    requires Ws0(s) == s && StartsWith(s, "#_") && s[2..] == w
    ensures Marker(s) == Some(Ws0(w))
  {
  }

  lemma OneMarker(s: string, t: string)
    requires Marker(s) == Some(t) && MarkerRun(t) == (0, t)
    ensures MarkerRun(s) == (1, t)
  {
  }

  /** A discard marker followed by nothing but separators. */
  lemma LoneMarker(w: string)
    requires forall i | 0 <= i < |w| :: IsWs(w[i])
    ensures MarkerRun("#_" + w) == (1, [])
  {
    MarkerText(w);
    MarkerOf("#_" + w, w);
    OnlySeparators(w);
    OneMarker("#_" + w, []);
  }

  /** A comment dropped by the inner loop of `try_parse_discard`, up to a text that starts with none. */
  lemma SkipOneComment(t: string, u: string)
    requires Comment(t) == Some(u) && Comment(u) == None
    ensures SkipComments(t) == u
  {
  }

  // ---------------------------------------------------------------- texts of the bracketed forms

  /** The display of a list, then a delimiter: `(`, the items, and `)` with what follows. */
  lemma ListText(xs: seq<Value>, rest: string) returns (body: string, tail: string)
    requires ReadableItems(xs) && Delimiter(rest)
    ensures tail == ")" + rest && Closing(tail) && tail[1..] == rest
    ensures body == ShowItems(xs) + tail
    ensures Show(List(xs)) + rest == "(" + body
    ensures var s := "(" + body; StartsWith(s, "(") && s[1..] == body && Ws0(s) == s
  {
    tail := ")" + rest;
    body := ShowItems(xs) + tail;
    FirstChar(")", rest);
    FirstChar("(", body);
    Ws0Keeps("(" + body);
  }

  /** The display of a vector, then a delimiter: `[`, the items, and `]` with what follows. */
  lemma VectorText(xs: seq<Value>, rest: string) returns (body: string, tail: string)
    requires ReadableItems(xs) && Delimiter(rest)
    ensures tail == "]" + rest && Closing(tail) && tail[1..] == rest
    ensures body == ShowItems(xs) + tail
    ensures Show(Vector(xs)) + rest == "[" + body
    ensures var s := "[" + body; StartsWith(s, "[") && !StartsWith(s, "(") && s[1..] == body && Ws0(s) == s
  {
    tail := "]" + rest;
    body := ShowItems(xs) + tail;
    FirstChar("]", rest);
    FirstChar("[", body);
    NotPrefix("[" + body, "(");
    Ws0Keeps("[" + body);
  }

  /** The display of a set, then a delimiter: `#{`, the members, and `}` with what follows. */
  lemma SetText(s: set<Value>, rest: string) returns (body: string, tail: string)
    requires Readable(Set(s)) && Delimiter(rest)
    ensures ReadableItems(Enumerate(s))
    ensures tail == "}" + rest && Closing(tail) && tail[1..] == rest
    ensures body == ShowItems(Enumerate(s)) + tail
    ensures Show(Set(s)) + rest == "#{" + body
    ensures var t := "#{" + body; StartsWith(t, "#{") && !StartsWith(t, "(") && !StartsWith(t, "[") && t[2..] == body && Ws0(t) == t
  {
    SetDisplay(s);
    var items := ShowItems(Enumerate(s));
    tail := "}" + rest;
    body := items + tail;
    BracedText("#{", items, rest);
  }

  /** The display of a map, then a delimiter: `{`, the entries, and `}` with what follows. */
  lemma MapText(m: map<Value, Value>, rest: string) returns (body: string, tail: string)
    requires Readable(Map(m)) && Delimiter(rest)
    ensures ReadablePairs(Maps.Entries(m)) && EntriesOf(Maps.Entries(m), m)
    ensures tail == "}" + rest && Closing(tail) && tail[1..] == rest
    ensures body == ShowPairs(Maps.Entries(m)) + tail
    ensures Show(Map(m)) + rest == "{" + body
    ensures var t := "{" + body;
      StartsWith(t, "{") && !StartsWith(t, "(") && !StartsWith(t, "[") && !StartsWith(t, "#{") && t[1..] == body
  {
    MapDisplay(m);
    EntriesAreReadable(m);
    var entries := ShowPairs(Maps.Entries(m));
    tail := "}" + rest;
    body := entries + tail;
    BracedText("{", entries, rest);
  }

  /** `#{` or `{`, a body and `}`, then what follows: the opening, the body and the closing text. */
  lemma BracedText(open: string, body: string, rest: string)
    requires open == "#{" || open == "{"
    ensures var tail := "}" + rest; Closing(tail) && tail[1..] == rest
    ensures open + body + "}" + rest == open + (body + ("}" + rest))
    ensures var t := open + (body + ("}" + rest));
      StartsWith(t, open) && !StartsWith(t, "(") && !StartsWith(t, "[") && t[|open|..] == body + ("}" + rest) &&
      (open == "#{" ==> Ws0(t) == t) && (open == "{" ==> !StartsWith(t, "#{"))
  {
    var tail := "}" + rest;
    FirstChar("}", rest);
    var t := open + (body + tail);
    assert t[..|open|] == open && t[|open|..] == body + tail;
    NotPrefix(t, "(");
    NotPrefix(t, "[");
    if open == "{" {
      NotPrefix(t, "#{");
    } else {
      Ws0Keeps(t);
    }
  }

  /** The entries of a readable map are readable, and each is a key of the map with its value. */
  lemma EntriesAreReadable(m: map<Value, Value>)
    requires Readable(Map(m))
    ensures ReadablePairs(Maps.Entries(m)) && EntriesOf(Maps.Entries(m), m)
  {
    var ps := Maps.Entries(m);
    assert forall k | k in m :: Readable(k) && Readable(m[k]);
    forall i | 0 <= i < |ps|
      ensures ps[i].0 in m && ps[i].1 == m[ps[i].0] && Readable(ps[i].0) && Readable(ps[i].1)
    {
      EntryReadable(m, i);
    }
  }

  /** The `i`-th entry is a key of `m` with its value, and both read back. */
  lemma EntryReadable(m: map<Value, Value>, i: int)
    requires forall k | k in m :: Readable(k) && Readable(m[k])
    requires 0 <= i < |m|
    ensures Maps.Entries(m)[i].0 in m && Maps.Entries(m)[i].1 == m[Maps.Entries(m)[i].0]
    ensures Readable(Maps.Entries(m)[i].0) && Readable(Maps.Entries(m)[i].1)
  {
    Maps.EntryIsLast(m, i);
  }

  /** Every key and value of the pairs reads back. */
  predicate ReadablePairs(ps: seq<(Value, Value)>)
    ensures ReadablePairs(ps) ==> PrintablePairs(ps)
  {
    forall i | 0 <= i < |ps| :: Readable(ps[i].0) && Readable(ps[i].1)
  }

  /** Each pair is a key of `m` with its value. */
  predicate EntriesOf(ps: seq<(Value, Value)>, m: map<Value, Value>)
  {
    forall i | 0 <= i < |ps| :: ps[i].0 in m && ps[i].1 == m[ps[i].0]
  }

  /** Each pair as the entry `(Some(key), Some(value))`, the way `try_parse_map` collects them. */
  function WrapPairs(ps: seq<(Value, Value)>): (r: seq<(Option<Value>, Option<Value>)>)
    ensures |r| == |ps| && forall i | 0 <= i < |ps| :: r[i] == (Some(ps[i].0), Some(ps[i].1))
  {
    if ps == [] then [] else [(Some(ps[0].0), Some(ps[0].1))] + WrapPairs(ps[1..])
  }

  /** Collecting the wrapped entries gives the pairs back. */
  lemma SomePairsOfWrap(ps: seq<(Value, Value)>)
    ensures SomePairs(WrapPairs(ps)) == ps
  {
    var r := SomePairs(WrapPairs(ps));
    assert |r| == |ps| && forall i | 0 <= i < |ps| :: r[i] == ps[i];
  }

  /** Printed entries and a closing bracket start with no separator. */
  lemma PairsStart(ps: seq<(Value, Value)>, tail: string)
    requires ReadablePairs(ps) && Closing(tail)
    ensures Ws0(ShowPairs(ps) + tail) == ShowPairs(ps) + tail && Ws0(tail) == tail
  {
    Ws0Keeps(tail);
    if ps != [] {
      ReadablePairsRest(ps);
      PairsText(ps, tail);
      ShowStart(ps[0].0, " " + (Show(ps[0].1) + (ShowPairsAfter(ps[1..]) + tail)));
    } else {
      assert ShowPairs(ps) + tail == tail;
    }
    Ws0Keeps(ShowPairs(ps) + tail);
  }

  /** No entries: the closing bracket follows at once. */
  lemma NoPairs(ps: seq<(Value, Value)>, tail: string)
    requires ps == [] && Closing(tail)
    ensures ShowPairs(ps) + tail == tail && ShowPairsAfter(ps) + tail == tail
    ensures WrapPairs(ps) == [] && Ws1(tail) == None
  {
    assert ShowPairs(ps) == [] && ShowPairsAfter(ps) == [];
  }

  /** The entries after the first one start with `,`, so a delimiter stays one. */
  lemma PairsAfterDelimit(ps: seq<(Value, Value)>, tail: string)
    requires PrintablePairs(ps) && Delimiter(tail)
    ensures Delimiter(ShowPairsAfter(ps) + tail)
  {
    if ps != [] {
      assert (ShowPairsAfter(ps) + tail)[0] == ',';
    } else {
      assert ShowPairsAfter(ps) + tail == tail;
    }
  }

  /** The first of readable entries is readable, and so are the rest. */
  lemma ReadablePairsRest(ps: seq<(Value, Value)>)
    requires ps != [] && ReadablePairs(ps)
    ensures Readable(ps[0].0) && Readable(ps[0].1) && ReadablePairs(ps[1..])
    ensures WrapPairs(ps) == [(Some(ps[0].0), Some(ps[0].1))] + WrapPairs(ps[1..])
  {
    var later := ps[1..];
    assert forall i | 0 <= i < |later| :: later[i] == ps[i + 1];
  }

  /** The first entry is a key of `m` with its value, and so are the rest. */
  lemma EntriesOfRest(ps: seq<(Value, Value)>, m: map<Value, Value>)
    requires ps != [] && EntriesOf(ps, m)
    ensures ps[0].0 in m && ps[0].1 == m[ps[0].0] && EntriesOf(ps[1..], m)
  {
    var later := ps[1..];
    assert forall i | 0 <= i < |later| :: later[i] == ps[i + 1];
  }

  /** How the text of entries splits: the first key, a space, its value, then the later entries. */
  lemma PairsText(ps: seq<(Value, Value)>, tail: string)
    requires ps != [] && PrintablePairs(ps) && PrintablePairs(ps[1..]) && Closing(tail)
    ensures ShowPairs(ps) + tail == Show(ps[0].0) + (" " + (Show(ps[0].1) + (ShowPairsAfter(ps[1..]) + tail)))
    ensures Delimiter(ShowPairsAfter(ps[1..]) + tail)
  {
    assert ShowPairs(ps) == ShowPair(ps[0]) + ShowPairsAfter(ps[1..]);
    Regroup("", Show(ps[0].0), Show(ps[0].1), ShowPairsAfter(ps[1..]), tail);
    assert Delimiter(tail);
    PairsAfterDelimit(ps[1..], tail);
  }

  /** How the text of later entries splits: `, `, the first key, a space, its value, then the rest. */
  lemma PairsAfterText(ps: seq<(Value, Value)>, tail: string)
    requires ps != [] && ReadablePairs(ps) && Delimiter(tail)
    ensures Ws1(ShowPairsAfter(ps) + tail) == Some(Show(ps[0].0) + (" " + (Show(ps[0].1) + (ShowPairsAfter(ps[1..]) + tail))))
    ensures Delimiter(ShowPairsAfter(ps[1..]) + tail)
  {
    ReadablePairsRest(ps);
    var after := " " + (Show(ps[0].1) + (ShowPairsAfter(ps[1..]) + tail));
    Regroup(", ", Show(ps[0].0), Show(ps[0].1), ShowPairsAfter(ps[1..]), tail);
    PairsAfterDelimit(ps[1..], tail);
    ShowStart(ps[0].0, after);
    SeparatorsBefore(", ", Show(ps[0].0) + after);
  }

  /** The text of an entry after `sep`, regrouped so that each part is followed by the rest. */
  lemma Regroup(sep: string, k: string, v: string, later: string, tail: string)
    ensures sep + (k + " " + v) + later + tail == sep + (k + (" " + (v + (later + tail))))
    ensures sep == "" ==> (k + " " + v) + later + tail == k + (" " + (v + (later + tail)))
  {
  }

  /** A space before a printed value: the separator is dropped. */
  lemma SpaceThenValue(v: Value, after: string)
    requires Readable(v)
    ensures Delimiter(" " + (Show(v) + after))
    ensures Ws1(" " + (Show(v) + after)) == Some(Show(v) + after)
  {
    ShowStart(v, after);
    Ws0AfterSpace(Show(v) + after);
  }

  // ---------------------------------------------------------------- texts of integer literals

  /** `1_000` and what follows it: an integer literal whose digits without `_` are `1000`. */
  lemma OneThousandText(rest: string)
    ensures IntegerDigits("1_000") && WithoutUnderscores("1_000") == "1000" && Decimal("1000")
    ensures SignedValue("", "1000") == 1000
    ensures "" + "1_000" + rest == "1_000" + rest && "1_000" + rest != [] && ("1_000" + rest)[0] == '1'
  {
    assert WithoutUnderscores("") == "";
    assert WithoutUnderscores("0") == "0";
    assert WithoutUnderscores("00") == "00";
    assert WithoutUnderscores("000") == "000";
    assert WithoutUnderscores("_000") == "000";
    assert ShowNat(1) == "1";
    assert ShowNat(10) == "10";
    assert ShowNat(100) == "100";
    assert ShowNat(1000) == "1000";
    ShowNatDigits(1000);
  }

  /** `1.` and what follows it, when no digit does: the literal `1`, and then `.` is left. */
  lemma TrailingDotText(rest: string)
    requires rest == [] || !IsDigit(rest[0])
    ensures IntegerDigits("1") && WithoutUnderscores("1") == "1" && Decimal("1")
    ensures SignedValue("", "1") == 1 && NumberEnd("." + rest)
    ensures "" + "1" + ("." + rest) == "1." + rest && "1." + rest != [] && ("1." + rest)[0] == '1'
  {
    assert WithoutUnderscores("") == "";
    assert "1"[..0] == "";
    assert ("." + rest)[0] == '.';
    assert |rest| > 0 ==> ("." + rest)[1] == rest[0];
  }

  /** Digits whose value is beyond `i64`, and what follows them. */
  lemma BigText(d: string, rest: string)
    requires d != [] && Decimal(d) && DigitsValue(d) >= 0x8000_0000_0000_0000
    ensures IntegerDigits(d) && WithoutUnderscores(d) == d && !InInt64(SignedValue("", d))
    ensures "" + d + rest == d + rest && d + rest != [] && IsDigit((d + rest)[0])
  {
    WithoutUnderscoresKeeps(d);
    assert (d + rest)[0] == d[0];
  }

  // ---------------------------------------------------------------- texts with comments and discards

  /** Only separators: commas, spaces, tabs, carriage returns and line feeds. */
  predicate Separators(w: string)
  {
    forall i | 0 <= i < |w| :: IsWs(w[i])
  }

  /** Separators in front of text that starts with none are dropped, and only they. */
  lemma SeparatorsBefore(w: string, u: string)
    requires Separators(w) && (u == [] || !IsWs(u[0]))
    ensures Ws0(w + u) == u && (w != [] ==> Ws1(w + u) == Some(u))
  {
    PrefixLengthOf(w, u, IsWs);
    assert (w + u)[|w|..] == u;
  }

  /** A line end, separators and text that starts with none: the text is what the separators leave. */
  lemma LineEndBefore(w: string, u: string) returns (c: string)
    requires Separators(w) && FormStart(u)
    ensures c == "\n" + w + u && c != [] && c[0] == '\n' && Ws0(c) == u
  {
    c := "\n" + w + u;
    assert c == "\n" + (w + u);
    SeparatorsBefore("\n" + w, u);
  }

  /** A comment line, separators, a printed value and what follows it, split after the comment. */
  lemma CommentLineText(text: string, w: string, v: Value, rest: string) returns (t: string, c: string, u: string)
    requires Separators(w) && Readable(v)
    ensures u == Show(v) + rest && FormStart(u)
    ensures c != [] && c[0] == '\n' && Ws0(c) == u
    ensures t == ";" + text + c && ";" + text + "\n" + w + Show(v) + rest == t
    ensures t != [] && t[0] == ';' && !IsWs(t[0])
  {
    u := Show(v) + rest;
    ShowStart(v, rest);
    c := LineEndBefore(w, u);
    t := ";" + text + c;
  }

  /**
   * `#_`, separators, a comment line, separators, a printed value,
   * separators, a printed value and what follows it, split where the
   * reader's steps meet.
   */
  lemma DiscardCommentText(w0: string, text: string, w1: string, x: Value, w2: string, y: Value, rest: string)
    returns (t: string, c: string, u: string, v: string, z: string)
    requires Separators(w0) && Separators(w1) && Separators(w2) && w2 != []
    requires Readable(x) && Readable(y)
    ensures z == Show(y) + rest && FormStart(z)
    ensures v == w2 + z && Delimiter(v) && Ws1(v) == Some(z)
    ensures u == Show(x) + v && FormStart(u)
    ensures c != [] && c[0] == '\n' && Ws0(c) == u
    ensures t == ";" + text + c && t != [] && t[0] == ';' && !IsWs(t[0]) && t[0] != '#'
    ensures Ws0(w0 + t) == t
    ensures "#_" + w0 + ";" + text + "\n" + w1 + Show(x) + w2 + Show(y) + rest == "#_" + (w0 + t)
  {
    ShowStart(y, rest);
    ShowStart(x, w2 + (Show(y) + rest));
    t, c, u, v, z := DiscardCommentSplit(w0, text, w1, Show(x), w2, Show(y), rest);
  }

  /** `DiscardCommentText` over the two displays as plain text. */
  lemma DiscardCommentSplit(w0: string, text: string, w1: string, a: string, w2: string, b: string, rest: string)
    returns (t: string, c: string, u: string, v: string, z: string)
    requires Separators(w0) && Separators(w1) && Separators(w2) && w2 != []
    requires FormStart(b + rest) && FormStart(a + (w2 + (b + rest)))
    ensures z == b + rest && FormStart(z)
    ensures v == w2 + z && Delimiter(v) && Ws1(v) == Some(z)
    ensures u == a + v && FormStart(u)
    ensures c != [] && c[0] == '\n' && Ws0(c) == u
    ensures t == ";" + text + c && t != [] && t[0] == ';' && !IsWs(t[0]) && t[0] != '#'
    ensures Ws0(w0 + t) == t
    ensures "#_" + w0 + ";" + text + "\n" + w1 + a + w2 + b + rest == "#_" + (w0 + t)
  {
    z := b + rest;
    SeparatorsBefore(w2, z);
    v := w2 + z;
    u := a + v;
    c := LineEndBefore(w1, u);
    t := ";" + text + c;
    SeparatorsBefore(w0, t);
    assert v[0] == w2[0];
    DiscardCommentShape(w0, text, w1, a, w2, b, rest);
  }

  lemma DiscardCommentShape(w0: string, text: string, w1: string, a: string, w2: string, b: string, rest: string)
    ensures "#_" + w0 + ";" + text + "\n" + w1 + a + w2 + b + rest ==
      "#_" + (w0 + (";" + text + ("\n" + w1 + (a + (w2 + (b + rest))))))
  {
  }
}
