/**
 * What the reader reads: the displays of readable values read back as the
 * values (alone, inside lists, vectors, sets and maps, and one after the
 * other in `read_many`), and the reader's quirks — numbers, quotes, keywords,
 * words without a boundary, comments and discards.
 *
 * The lemmas in the first part each take one step of a parser of the
 * recursive group; the lemmas after them put those steps together.
 */
module ReaderFacts {
  import opened Wrappers
  import opened Values
  import opened Reader
  import opened ReaderText
  import Read
  import Sets
  import Maps
  import Symbols
  import Keywords

  /** The result of `try_parse` for text with no noise in front: the form's. */
  function Lift(r: PResult<Value>): PResult<Option<Value>>
  {
    match r
    case Parsed(rest, v) => Parsed(rest, Some(v))
    case Error => Error
    case Failure(e) => Failure(e)
    case Panicked => Panicked
  }

  /** `(quote v)`, the list a quoted form reads as. */
  function Quoted(v: Value): Value
  {
    List([Symbol(Symbols.Unqualified(Symbols.UnqualifiedSymbol("quote"))), v])
  }

  // ---------------------------------------------------------------- one step of the noise loop

  lemma QuietNoise(s: string)
    requires Ws1(s) == None && Comment(s) == None && !Discard(s).Parsed? && !Discard(s).Panicked?
    ensures SkipNoise(s) == Done(s)
  {
  }

  lemma NoDiscard(s: string)
    requires MarkerRun(s).0 == 0
    ensures Discard(s) == Error
  {
  }

  lemma ParseAfterNoise(s: string, t: string)
    requires s != [] && SkipNoise(s) == Done(t)
    ensures Parse(s) == Lift(ParseForm(t))
  {
  }

  lemma SkipSeparators(s: string, t: string)
    requires Ws1(s) == Some(t)
    ensures SkipNoise(s) == SkipNoise(t)
  {
  }

  lemma CommentThen(s: string, u: string)
    requires Ws1(s) == None && Comment(s) == Some(u)
    ensures SkipNoise(s) == SkipNoise(u)
  {
  }

  lemma NoiseAfterDiscard(s: string, v: string)
    requires Ws1(s) == None && Comment(s) == None && Discard(s) == Parsed(v, ())
    ensures SkipNoise(s) == SkipNoise(v)
  {
  }

  // ---------------------------------------------------------------- one step of a discard

  lemma DiscardOne(s: string, t: string, u: string, v: string, x: Value)
    requires MarkerRun(s) == (1, t) && SkipComments(t) == u && Parse(u) == Parsed(v, Some(x))
    ensures Discard(s) == Parsed(v, ())
  {
    assert DiscardForms(0, v) == Parsed(v, ());
  }

  /** A discard whose markers end the input has no form to discard. */
  lemma NothingToDiscard(s: string)
    requires MarkerRun(s) == (1, [])
    ensures Discard(s) == Failure(MissingDiscardForm)
  {
    DiscardOfRun(s, 1, []);
    NoFormAfterMarkers();
  }

  lemma DiscardOfRun(s: string, count: nat, t: string)
    requires MarkerRun(s) == (count, t) && count > 0
    ensures Discard(s) == DiscardForms(count, t)
  {
  }

  lemma NoFormAfterMarkers()
    ensures DiscardForms(1, []) == Failure(MissingDiscardForm)
  {
    assert SkipComments([]) == [];
    assert Parse([]) == Parsed([], None);
  }

  // ---------------------------------------------------------------- which alternative reads

  lemma NoBrackets(s: string)
    requires !StartsWith(s, "(") && !StartsWith(s, "[") && !StartsWith(s, "#{") && !StartsWith(s, "{")
    ensures ParseList(s) == Error && ParseVector(s) == Error && ParseSet(s) == Error && ParseMap(s) == Error
  {
  }

  lemma NoQuote(s: string)
    requires s == [] || s[0] != '\''
    ensures ParseQuote(s) == Error
  {
  }

  /** None of the bracketed forms nor the quote reads. */
  predicate Unbracketed(s: string)
  {
    ParseList(s) == Error && ParseVector(s) == Error && ParseSet(s) == Error &&
    ParseMap(s) == Error && ParseQuote(s) == Error
  }

  lemma FormIsList(s: string)
    requires Ws0(s) == s && ParseList(s) != Error
    ensures ParseForm(s) == ParseList(s)
  {
  }

  lemma FormIsVector(s: string)
    requires Ws0(s) == s && ParseList(s) == Error && ParseVector(s) != Error
    ensures ParseForm(s) == ParseVector(s)
  {
  }

  lemma FormIsSet(s: string)
    requires Ws0(s) == s && ParseList(s) == Error && ParseVector(s) == Error && ParseSet(s) != Error
    ensures ParseForm(s) == ParseSet(s)
  {
  }

  lemma FormIsMap(s: string)
    requires Ws0(s) == s && ParseList(s) == Error && ParseVector(s) == Error && ParseSet(s) == Error
    requires ParseMap(s) != Error
    ensures ParseForm(s) == ParseMap(s)
  {
  }

  lemma FormIsQuote(s: string)
    requires Ws0(s) == s
    requires ParseList(s) == Error && ParseVector(s) == Error && ParseSet(s) == Error && ParseMap(s) == Error
    requires ParseQuote(s) != Error
    ensures ParseForm(s) == ParseQuote(s)
  {
  }

  lemma FormIsNil(s: string)
    requires Ws0(s) == s && Unbracketed(s) && ParseNil(s) != Error
    ensures ParseForm(s) == ParseNil(s)
  {
  }

  lemma FormIsBoolean(s: string)
    requires Ws0(s) == s && Unbracketed(s) && ParseNil(s) == Error && ParseBoolean(s) != Error
    ensures ParseForm(s) == ParseBoolean(s)
  {
  }

  lemma FormIsNumber(s: string)
    requires Ws0(s) == s && Unbracketed(s) && ParseNil(s) == Error && ParseBoolean(s) == Error
    requires ParseNumber(s) != Error
    ensures ParseForm(s) == ParseNumber(s)
  {
  }

  lemma FormIsString(s: string)
    requires Ws0(s) == s && Unbracketed(s) && ParseNil(s) == Error && ParseBoolean(s) == Error
    requires ParseNumber(s) == Error && ParseString(s) != Error
    ensures ParseForm(s) == ParseString(s)
  {
  }

  lemma FormIsKeyword(s: string)
    requires Ws0(s) == s && Unbracketed(s) && ParseNil(s) == Error && ParseBoolean(s) == Error
    requires ParseNumber(s) == Error && ParseString(s) == Error && ParseKeyword(s) != Error
    ensures ParseForm(s) == ParseKeyword(s)
  {
  }

  lemma FormIsSymbol(s: string)
    requires Ws0(s) == s && Unbracketed(s) && ParseNil(s) == Error && ParseBoolean(s) == Error
    requires ParseNumber(s) == Error && ParseString(s) == Error && ParseKeyword(s) == Error
    ensures ParseForm(s) == ParseSymbol(s)
  {
  }

  // ---------------------------------------------------------------- one step of the bracketed forms

  lemma ItemsNone(s: string)
    requires Parse(s) == Error
    ensures Items(s) == Parsed(s, [])
  {
  }

  lemma ItemsCons(s: string, rest: string, x: Value, tail: string, ws: seq<Option<Value>>)
    requires Parse(s) == Parsed(rest, Some(x)) && ItemsAfter(rest) == Parsed(tail, ws)
    ensures Items(s) == Parsed(tail, [Some(x)] + ws)
  {
  }

  lemma ItemsAfterEnd(s: string)
    requires Ws1(s) == None
    ensures ItemsAfter(s) == Parsed(s, [])
  {
  }

  lemma ItemsAfterCons(s: string, t: string, rest: string, x: Value, tail: string, ws: seq<Option<Value>>)
    requires Ws1(s) == Some(t) && Parse(t) == Parsed(rest, Some(x)) && ItemsAfter(rest) == Parsed(tail, ws)
    ensures ItemsAfter(s) == Parsed(tail, [Some(x)] + ws)
  {
  }

  lemma BracketedOf(s: string, open: string, close: char, body: string, tail: string, ys: seq<Option<Value>>, rest: string)
    requires open != [] && StartsWith(s, open) && s[|open|..] == body && Ws0(body) == body
    requires Items(body) == Parsed(tail, ys) && Ws0(tail) == tail && tail != [] && tail[0] == close && tail[1..] == rest
    ensures Bracketed(s, open, close) == Parsed(rest, ys)
  {
  }

  lemma ListOf(s: string, rest: string, ys: seq<Option<Value>>)
    requires Bracketed(s, "(", ')') == Parsed(rest, ys)
    ensures ParseList(s) == Parsed(rest, List(Somes(ys)))
  {
  }

  lemma VectorOf(s: string, rest: string, ys: seq<Option<Value>>)
    requires Bracketed(s, "[", ']') == Parsed(rest, ys)
    ensures ParseVector(s) == Parsed(rest, Vector(Somes(ys)))
  {
  }

  lemma NotList(s: string)
    requires !StartsWith(s, "(")
    ensures ParseList(s) == Error
  {
  }

  lemma NotVector(s: string)
    requires !StartsWith(s, "[")
    ensures ParseVector(s) == Error
  {
  }

  lemma NotSet(s: string)
    requires !StartsWith(s, "#{")
    ensures ParseSet(s) == Error
  {
  }

  lemma SetOf(s: string, rest: string, ys: seq<Option<Value>>)
    requires Bracketed(s, "#{", '}') == Parsed(rest, ys)
    ensures ParseSet(s) == Parsed(rest, Set(Sets.FromSeq(Somes(ys))))
  {
  }

  lemma PairNone(s: string)
    requires Parse(s) == Error
    ensures Pair(s) == Error
  {
  }

  lemma PairOf(s: string, rest: string, k: Value, t: string, rest2: string, v: Value)
    requires Parse(s) == Parsed(rest, Some(k)) && Ws1(rest) == Some(t) && Parse(t) == Parsed(rest2, Some(v))
    ensures Pair(s) == Parsed(rest2, (Some(k), Some(v)))
  {
  }

  lemma MapEntriesNone(s: string)
    requires Pair(s) == Error
    ensures MapEntries(s) == Parsed(s, [])
  {
  }

  lemma MapEntriesCons(s: string, rest: string, p: (Option<Value>, Option<Value>), tail: string,
                       ps: seq<(Option<Value>, Option<Value>)>)
    requires Pair(s) == Parsed(rest, p) && MapEntriesAfter(rest) == Parsed(tail, ps)
    ensures MapEntries(s) == Parsed(tail, [p] + ps)
  {
  }

  lemma MapEntriesAfterEnd(s: string)
    requires Ws1(s) == None
    ensures MapEntriesAfter(s) == Parsed(s, [])
  {
  }

  lemma MapEntriesAfterCons(s: string, t: string, rest: string, p: (Option<Value>, Option<Value>), tail: string,
                            ps: seq<(Option<Value>, Option<Value>)>)
    requires Ws1(s) == Some(t) && Pair(t) == Parsed(rest, p) && MapEntriesAfter(rest) == Parsed(tail, ps)
    ensures MapEntriesAfter(s) == Parsed(tail, [p] + ps)
  {
  }

  lemma MapOf(s: string, body: string, tail: string, ps: seq<(Option<Value>, Option<Value>)>, rest: string)
    requires StartsWith(s, "{") && |s| >= 1 && s[1..] == body && Ws0(body) == body && MapEntries(body) == Parsed(tail, ps)
    requires Ws0(tail) == tail && |tail| >= 1 && tail[0] == '}' && tail[1..] == rest
    ensures ParseMap(s) == Parsed(rest, Map(Maps.FromPairs(SomePairs(ps))))
  {
  }

  lemma QuoteOf(q: string, s: string, rest: string, v: Value)
    requires q != [] && q[0] == '\'' && q[1..] == s && Parse(s) == Parsed(rest, Some(v))
    ensures ParseQuote(q) == Parsed(rest, Quoted(v))
  {
  }

  lemma QuoteAtEnd(q: string)
    requires q != [] && q[0] == '\'' && q[1..] == []
    ensures ParseQuote(q) == Panicked
  {
    assert Parse([]) == Parsed([], None);
  }

  // ---------------------------------------------------------------- texts no form reads

  /** Text that starts with a character no separator, comment or discard starts with is no noise. */
  lemma NoNoise(s: string)
    requires FormStart(s)
    ensures SkipNoise(s) == Done(s)
  {
    Quiet(s);
    NoMarker(s);
    NoDiscard(s);
    QuietNoise(s);
  }

  /** Text that opens no bracketed form and no quote: only a leaf can read it. */
  lemma NotBracketed(s: string)
    requires LeafStart(s)
    ensures Unbracketed(s)
  {
    NotOpening(s);
    NoBrackets(s);
    NoQuote(s);
  }

  /** A text with none of the alternatives' first characters is no form. */
  lemma NoForm(s: string)
    requires s != [] && Ws0(s) == s && s[0] != '\'' && !IsSymbolChar(s[0]) && s[0] != '"'
    requires !StartsWith(s, "(") && !StartsWith(s, "[") && !StartsWith(s, "#{") && !StartsWith(s, "{")
    ensures ParseForm(s) == Error
  {
    NoBrackets(s);
    NoQuote(s);
    NoLeaf(s);
    FormIsSymbol(s);
  }

  /** A closing bracket is no form: it ends the items of a list, vector, set or map. */
  lemma ClosingReadsNothing(tail: string)
    requires Closing(tail)
    ensures Parse(tail) == Error
  {
    ClosingStart(tail);
    NoForm(tail);
    NoNoise(tail);
    ParseAfterNoise(tail, tail);
  }

  /** Text starting with `#_` is no form. */
  lemma MarkerIsNoForm(s: string)
    requires |s| >= 2 && s[0] == '#' && s[1] == '_'
    ensures ParseForm(s) == Error
  {
    MarkerStart(s);
    NoForm(s);
  }

  // ---------------------------------------------------------------- numbers

  /** A form that starts like a number is read as a number. */
  lemma NumberForm(s: string)
    requires s != [] && (IsDigit(s[0]) || (s[0] == '-' && |s| > 1 && IsDigit(s[1])))
    ensures Parse(s) == Lift(ParseNumber(s))
  {
    NumberLeaves(s);
    NoNoise(s);
    NotBracketed(s);
    FormIsNumber(s);
    ParseAfterNoise(s, s);
  }

  /**
   * A witness of one quirk: underscores inside an integer are ignored, so
   * `1_000` reads as 1000. It is one instance of `ReaderText.IntegerLiteral`.
   */
  lemma UnderscoresAreIgnored(rest: string)
    requires NumberEnd(rest)
    ensures Parse("1_000" + rest) == Parsed(rest, Some(Integer(1000)))
  {
    OneThousandText(rest);
    IntegerLiteral("", "1_000", rest);
    NumberForm("1_000" + rest);
  }

  /**
   * A witness of one quirk: a `.` not followed by a digit ends the integer,
   * so `1.` reads as 1 and leaves the `.` for the next read.
   */
  lemma TrailingDotIsLeft(rest: string)
    requires rest == [] || !IsDigit(rest[0])
    ensures Parse("1." + rest) == Parsed("." + rest, Some(Integer(1)))
  {
    TrailingDotText(rest);
    IntegerLiteral("", "1", "." + rest);
    NumberForm("1." + rest);
  }

  /**
   * A witness of one quirk: an integer literal beyond `i64` makes the read
   * panic instead of failing. It is the panic case of `ReaderText.IntegerLiteral`.
   */
  lemma OverflowPanics(d: string, rest: string)
    requires d != [] && Decimal(d) && DigitsValue(d) >= 0x8000_0000_0000_0000
    requires NumberEnd(rest)
    ensures Parse(d + rest) == Panicked
  {
    BigText(d, rest);
    IntegerLiteral("", d, rest);
    NumberForm(d + rest);
  }

  // ---------------------------------------------------------------- the round trip

  /** The display of a readable value, followed by a delimiter, reads back as the value. */
  lemma ReadsBack(v: Value, rest: string)
    requires Readable(v) && Delimiter(rest)
    ensures Parse(Show(v) + rest) == Parsed(rest, Some(v))
    decreases v, 6
  {
    ShowStart(v, rest);
    NoNoise(Show(v) + rest);
    FormReadsBack(v, rest);
    ParseAfterNoise(Show(v) + rest, Show(v) + rest);
  }

  lemma FormReadsBack(v: Value, rest: string)
    requires Readable(v) && Delimiter(rest)
    ensures ParseForm(Show(v) + rest) == Parsed(rest, v)
    decreases v, 5
  {
    match v
    case Nil => NilFormReadsBack(rest);
    case Boolean(b) => BooleanFormReadsBack(b, rest);
    case Integer(i) => IntegerFormReadsBack(i, rest);
    case String(t) => StringFormReadsBack(t, rest);
    case Symbol(sym) => SymbolFormReadsBack(sym, rest);
    case Keyword(k) => KeywordFormReadsBack(k, rest);
    case List(xs) => ListReadsBack(xs, rest);
    case Vector(xs) => VectorReadsBack(xs, rest);
    case Set(s) => SetReadsBack(s, rest);
    case Map(m) => MapReadsBack(m, rest);
  }

  lemma NilFormReadsBack(rest: string)
    ensures ParseForm(Show(Nil) + rest) == Parsed(rest, Nil)
  {
    NilLeaves(rest);
    NotBracketed(Show(Nil) + rest);
    FormIsNil(Show(Nil) + rest);
  }

  lemma BooleanFormReadsBack(b: bool, rest: string)
    ensures ParseForm(Show(Boolean(b)) + rest) == Parsed(rest, Boolean(b))
  {
    BooleanLeaves(b, rest);
    NotBracketed(Show(Boolean(b)) + rest);
    FormIsBoolean(Show(Boolean(b)) + rest);
  }

  lemma IntegerFormReadsBack(i: Int64, rest: string)
    requires Delimiter(rest)
    ensures ParseForm(Show(Integer(i)) + rest) == Parsed(rest, Integer(i))
  {
    IntegerLeaves(i, rest);
    NotBracketed(Show(Integer(i)) + rest);
    FormIsNumber(Show(Integer(i)) + rest);
  }

  lemma StringFormReadsBack(t: string, rest: string)
    requires '"' !in t
    ensures ParseForm(Show(String(t)) + rest) == Parsed(rest, String(t))
  {
    StringLeaves(t, rest);
    NotBracketed(Show(String(t)) + rest);
    FormIsString(Show(String(t)) + rest);
  }

  lemma SymbolFormReadsBack(sym: Symbols.Symbol, rest: string)
    requires Readable(Symbol(sym)) && Delimiter(rest)
    ensures ParseForm(Show(Symbol(sym)) + rest) == Parsed(rest, Symbol(sym))
  {
    SymbolLeaves(sym, rest);
    NotBracketed(Show(Symbol(sym)) + rest);
    FormIsSymbol(Show(Symbol(sym)) + rest);
  }

  lemma KeywordFormReadsBack(k: Keywords.Keyword, rest: string)
    requires Readable(Keyword(k)) && Delimiter(rest)
    ensures ParseForm(Show(Keyword(k)) + rest) == Parsed(rest, Keyword(k))
  {
    var s := ":" + KeywordName(k) + rest;
    KeywordLeaves(":", k, rest);
    NotBracketed(s);
    FormIsKeyword(s);
  }

  lemma ListReadsBack(xs: seq<Value>, rest: string)
    requires ReadableItems(xs) && Delimiter(rest)
    ensures ParseForm(Show(List(xs)) + rest) == Parsed(rest, List(xs))
    decreases List(xs), 4
  {
    var body, tail := ListText(xs, rest);
    SequenceReadsBack(xs, tail, List(xs));
    BracketedOf("(" + body, "(", ')', body, tail, Wrap(xs), rest);
    ListOf("(" + body, rest, Wrap(xs));
    SomesOfWrap(xs);
    FormIsList("(" + body);
  }

  lemma VectorReadsBack(xs: seq<Value>, rest: string)
    requires ReadableItems(xs) && Delimiter(rest)
    ensures ParseForm(Show(Vector(xs)) + rest) == Parsed(rest, Vector(xs))
    decreases Vector(xs), 4
  {
    var body, tail := VectorText(xs, rest);
    SequenceReadsBack(xs, tail, Vector(xs));
    BracketedOf("[" + body, "[", ']', body, tail, Wrap(xs), rest);
    VectorOf("[" + body, rest, Wrap(xs));
    SomesOfWrap(xs);
    NotList("[" + body);
    FormIsVector("[" + body);
  }

  /** The display of a set of readable values, followed by a delimiter, reads back as the set. */
  lemma SetReadsBack(s: set<Value>, rest: string)
    requires Readable(Set(s)) && Delimiter(rest)
    ensures ParseForm(Show(Set(s)) + rest) == Parsed(rest, Set(s))
    decreases Set(s), 4
  {
    var body, tail := SetText(s, rest);
    var xs := Enumerate(s);
    var t := "#{" + body;
    SequenceReadsBack(xs, tail, Set(s));
    BracketedOf(t, "#{", '}', body, tail, Wrap(xs), rest);
    SetOf(t, rest, Wrap(xs));
    SomesOfWrap(xs);
    Sets.EnumerateRebuilds(s);
    NotList(t);
    NotVector(t);
    FormIsSet(t);
  }

  /**
   * The display of a map of readable keys and values, followed by a
   * delimiter, reads back as the map: its entries are read in order and
   * collected again.
   */
  lemma MapReadsBack(m: map<Value, Value>, rest: string)
    requires Readable(Map(m)) && Delimiter(rest)
    ensures ParseForm(Show(Map(m)) + rest) == Parsed(rest, Map(m))
    decreases Map(m), 4
  {
    var body, tail := MapText(m, rest);
    var ps := Maps.Entries(m);
    PairsStart(ps, tail);
    PairsReadBack(ps, tail, m);
    BracedEntries("{" + body, body, tail, WrapPairs(ps), rest);
    SomePairsOfWrap(ps);
    Maps.EntriesRebuild(m);
  }

  /** `{`, entries that read, and `}`: only the map alternative reads it, as the map of the entries. */
  lemma BracedEntries(t: string, body: string, tail: string, ps: seq<(Option<Value>, Option<Value>)>, rest: string)
    requires StartsWith(t, "{") && !StartsWith(t, "(") && !StartsWith(t, "[") && !StartsWith(t, "#{") && |t| >= 1 && t[1..] == body
    requires Ws0(body) == body && MapEntries(body) == Parsed(tail, ps)
    requires Ws0(tail) == tail && |tail| >= 1 && tail[0] == '}' && tail[1..] == rest
    ensures ParseForm(t) == Parsed(rest, Map(Maps.FromPairs(SomePairs(ps))))
  {
    MapOf(t, body, tail, ps, rest);
    NotList(t);
    NotVector(t);
    NotSet(t);
    Ws0Keeps(t);
    FormIsMap(t);
  }

  /** Entries of `m`, then the closing bracket: the entries read back in order. */
  lemma PairsReadBack(ps: seq<(Value, Value)>, tail: string, m: map<Value, Value>)
    requires ReadablePairs(ps) && EntriesOf(ps, m) && Closing(tail)
    ensures MapEntries(ShowPairs(ps) + tail) == Parsed(tail, WrapPairs(ps))
    decreases Map(m), 2, ps
  {
    if ps == [] {
      NoPairs(ps, tail);
      ClosingReadsNothing(tail);
      PairNone(tail);
      MapEntriesNone(tail);
    } else {
      ReadablePairsRest(ps);
      EntriesOfRest(ps, m);
      var after := ShowPairsAfter(ps[1..]) + tail;
      PairsText(ps, tail);
      EntryReadsBack(ps[0].0, ps[0].1, after, m);
      PairsAfterReadBack(ps[1..], tail, m);
      MapEntriesCons(ShowPairs(ps) + tail, after, (Some(ps[0].0), Some(ps[0].1)), tail, WrapPairs(ps[1..]));
    }
  }

  lemma PairsAfterReadBack(ps: seq<(Value, Value)>, tail: string, m: map<Value, Value>)
    requires ReadablePairs(ps) && EntriesOf(ps, m) && Closing(tail)
    ensures MapEntriesAfter(ShowPairsAfter(ps) + tail) == Parsed(tail, WrapPairs(ps))
    decreases Map(m), 2, ps
  {
    if ps == [] {
      NoPairs(ps, tail);
      MapEntriesAfterEnd(tail);
    } else {
      ReadablePairsRest(ps);
      EntriesOfRest(ps, m);
      var after := ShowPairsAfter(ps[1..]) + tail;
      PairsAfterText(ps, tail);
      EntryReadsBack(ps[0].0, ps[0].1, after, m);
      PairsAfterReadBack(ps[1..], tail, m);
      MapEntriesAfterCons(ShowPairsAfter(ps) + tail, Show(ps[0].0) + (" " + (Show(ps[0].1) + after)),
                          after, (Some(ps[0].0), Some(ps[0].1)), tail, WrapPairs(ps[1..]));
    }
  }

  /** One entry of `m`: its key, a space and its value read back as the pair. */
  lemma EntryReadsBack(k: Value, v: Value, after: string, m: map<Value, Value>)
    requires k in m && v == m[k] && Readable(k) && Readable(v) && Delimiter(after)
    ensures Pair(Show(k) + (" " + (Show(v) + after))) == Parsed(after, (Some(k), Some(v)))
    decreases Map(m), 1
  {
    var spaced := " " + (Show(v) + after);
    SpaceThenValue(v, after);
    ReadsBack(k, spaced);
    ReadsBack(v, after);
    PairOf(Show(k) + spaced, spaced, k, Show(v) + after, after, v);
  }

  /** The items are members of `outer`, a list, vector or set: each is smaller than it. */
  predicate Within(xs: seq<Value>, outer: Value)
  {
    match outer
    case List(ys) => forall i | 0 <= i < |xs| :: xs[i] in ys
    case Vector(ys) => forall i | 0 <= i < |xs| :: xs[i] in ys
    case Set(s) => forall i | 0 <= i < |xs| :: xs[i] in s
    case _ => false
  }

  lemma WithinRest(xs: seq<Value>, outer: Value)
    requires xs != [] && Within(xs, outer)
    ensures Within(xs[1..], outer)
  {
    var later := xs[1..];
    assert forall i | 0 <= i < |later| :: later[i] == xs[i + 1];
  }

  /** Inside brackets: the items, then the closing bracket. */
  lemma SequenceReadsBack(xs: seq<Value>, tail: string, outer: Value)
    requires ReadableItems(xs) && Closing(tail) && Within(xs, outer)
    ensures Ws0(ShowItems(xs) + tail) == ShowItems(xs) + tail && Ws0(tail) == tail
    ensures Items(ShowItems(xs) + tail) == Parsed(tail, Wrap(xs))
    decreases outer, 3, xs
  {
    ItemsStart(xs, tail);
    ItemsReadBack(xs, tail, outer);
  }

  lemma ItemsReadBack(xs: seq<Value>, tail: string, outer: Value)
    requires ReadableItems(xs) && Closing(tail) && Within(xs, outer)
    ensures Items(ShowItems(xs) + tail) == Parsed(tail, Wrap(xs))
    decreases outer, 2, xs
  {
    if xs == [] {
      NoItems(xs, tail);
      ClosingReadsNothing(tail);
      ItemsNone(tail);
    } else {
      ItemsText(xs, tail);
      ReadsBack(xs[0], ShowAfter(xs[1..]) + tail);
      WithinRest(xs, outer);
      ItemsAfterReadBack(xs[1..], tail, outer);
      ItemsCons(ShowItems(xs) + tail, ShowAfter(xs[1..]) + tail, xs[0], tail, Wrap(xs[1..]));
    }
  }

  lemma ItemsAfterReadBack(ys: seq<Value>, tail: string, outer: Value)
    requires ReadableItems(ys) && Closing(tail) && Within(ys, outer)
    ensures ItemsAfter(ShowAfter(ys) + tail) == Parsed(tail, Wrap(ys))
    decreases outer, 2, ys
  {
    if ys == [] {
      NoItems(ys, tail);
      ItemsAfterEnd(tail);
    } else {
      AfterText(ys, tail);
      ReadsBack(ys[0], ShowAfter(ys[1..]) + tail);
      WithinRest(ys, outer);
      ItemsAfterReadBack(ys[1..], tail, outer);
      ItemsAfterCons(ShowAfter(ys) + tail, Show(ys[0]) + (ShowAfter(ys[1..]) + tail),
                     ShowAfter(ys[1..]) + tail, ys[0], tail, Wrap(ys[1..]));
    }
  }

  // ---------------------------------------------------------------- read_many of printed values

  /** A space and a printed value, then a delimiter: the value reads back. */
  lemma SpaceThenReads(v: Value, rest: string)
    requires Readable(v) && Delimiter(rest)
    ensures Parse(" " + (Show(v) + rest)) == Parsed(rest, Some(v))
  {
    var u := Show(v) + rest;
    ShowStart(v, rest);
    Ws0AfterSpace(u);
    SkipSeparators(" " + u, u);
    NoNoise(u);
    FormReadsBack(v, rest);
    ParseAfterNoise(" " + u, u);
  }

  /** Printed readable values, separated by spaces, are what `read_many` reads from that text. */
  lemma ReadManyReadsBack(xs: seq<Value>)
    requires ReadableItems(xs)
    ensures Read.ReadManySpec(ShowItems(xs)) == Done(xs)
  {
    if xs == [] {
      EmptyDisplay(xs);
    } else {
      ItemsSplit(xs);
      ReadsBack(xs[0], ShowAfter(xs[1..]));
      Read.ReadManyUnfolds(ShowItems(xs), ShowAfter(xs[1..]), xs[0]);
      ReadManyAfter(xs[1..]);
    }
  }

  lemma {:induction false} ReadManyAfter(ys: seq<Value>)
    requires ReadableItems(ys)
    ensures Read.ReadManySpec(ShowAfter(ys)) == Done(ys)
  {
    if ys == [] {
      EmptyDisplay(ys);
    } else {
      AfterSplit(ys);
      SpaceThenReads(ys[0], ShowAfter(ys[1..]));
      Read.ReadManyUnfolds(ShowAfter(ys), ShowAfter(ys[1..]), ys[0]);
      ReadManyAfter(ys[1..]);
    }
  }

  /** Printed readable values start and end with no white space: `trim` keeps their text. */
  lemma PrintedIsTrimmed(xs: seq<Value>)
    requires ReadableItems(xs)
    ensures Read.Trim(ShowItems(xs)) == ShowItems(xs)
  {
    if xs == [] {
      EmptyDisplay(xs);
    } else {
      FirstEdge(xs);
      LastEdge(xs);
      EdgeIsNoWhiteSpace(ShowItems(xs)[0]);
      EdgeIsNoWhiteSpace(ShowItems(xs)[|ShowItems(xs)| - 1]);
    }
    Read.TrimKeepsTrimmedText(ShowItems(xs));
  }

  lemma EdgeIsNoWhiteSpace(c: char)
    requires EdgeChar(c)
    ensures !Read.IsUnicodeWhiteSpace(c)
  {
  }

  /** `read_many` of printed readable values gives back every value, in order. */
  lemma ReadManyOfPrinted(xs: seq<Value>)
    requires ReadableItems(xs)
    ensures Read.ReadManySpec(Read.Trim(ShowItems(xs))) == Done(xs)
  {
    PrintedIsTrimmed(xs);
    ReadManyReadsBack(xs);
  }

  // ---------------------------------------------------------------- quote, keywords, words

  /** `'form` reads as `(quote form)`. */
  lemma QuoteReads(s: string, rest: string, v: Value)
    requires Parse(s) == Parsed(rest, Some(v))
    ensures Parse("'" + s) == Parsed(rest, Some(Quoted(v)))
  {
    var q := "'" + s;
    QuoteText(s);
    NoNoise(q);
    QuoteOf(q, s, rest, v);
    NoBrackets(q);
    FormIsQuote(q);
    ParseAfterNoise(q, q);
  }

  /** A quote with nothing after it panics. */
  lemma QuoteAtEndPanics(q: string)
    requires |q| == 1 && q[0] == '\''
    ensures Parse(q) == Panicked
  {
    LoneQuote(q);
    NoNoise(q);
    QuoteAtEnd(q);
    NoBrackets(q);
    FormIsQuote(q);
    ParseAfterNoise(q, q);
  }

  /** `::` in front of a keyword's name is read like `:`: both are dropped. */
  lemma DoubleColonIsDropped(k: Keywords.Keyword, rest: string)
    requires Readable(Keyword(k)) && Delimiter(rest)
    ensures Parse(":" + Keywords.Show(k) + rest) == Parse(Keywords.Show(k) + rest) == Parsed(rest, Some(Keyword(k)))
  {
    DoubledColon(k, rest);
    DoubleColonReads(k, rest);
    ReadsBack(Keyword(k), rest);
  }

  lemma DoubleColonReads(k: Keywords.Keyword, rest: string)
    requires Readable(Keyword(k)) && Delimiter(rest)
    ensures Parse("::" + KeywordName(k) + rest) == Parsed(rest, Some(Keyword(k)))
  {
    var s := "::" + KeywordName(k) + rest;
    KeywordLeaves("::", k, rest);
    NotBracketed(s);
    FormIsKeyword(s);
    NoNoise(s);
    ParseAfterNoise(s, s);
  }

  /** `nil` needs no boundary: whatever follows it is left for the next read. */
  lemma NilNeedsNoBoundary(rest: string)
    ensures Parse("nil" + rest) == Parsed(rest, Some(Nil))
  {
    NilLeaves(rest);
    NilFormReadsBack(rest);
    NoNoise(Show(Nil) + rest);
    ParseAfterNoise(Show(Nil) + rest, Show(Nil) + rest);
  }

  /** `true` and `false` need no boundary either. */
  lemma BooleanNeedsNoBoundary(b: bool, rest: string)
    ensures Parse((if b then "true" else "false") + rest) == Parsed(rest, Some(Boolean(b)))
  {
    BooleanLeaves(b, rest);
    BooleanFormReadsBack(b, rest);
    NoNoise(Show(Boolean(b)) + rest);
    ParseAfterNoise(Show(Boolean(b)) + rest, Show(Boolean(b)) + rest);
  }

  // ---------------------------------------------------------------- discards and comments

  /**
   * `#_` with no form after it: the discard fails with `MissingDiscardForm`,
   * the `while let` stops there, and the read then fails as no form reads.
   */
  lemma DiscardNeedsAForm(w: string)
    requires Separators(w)
    ensures Discard("#_" + w) == Failure(MissingDiscardForm)
    ensures Parse("#_" + w) == Error
  {
    var s := "#_" + w;
    MarkerText(w);
    LoneMarker(w);
    NothingToDiscard(s);
    Quiet(s);
    QuietNoise(s);
    MarkerIsNoForm(s);
    ParseAfterNoise(s, s);
  }

  /** A comment runs to the end of its line; the form on the next line is read. */
  lemma CommentIsSkipped(text: string, w: string, v: Value, rest: string)
    requires SingleLine(text) && Separators(w) && Readable(v) && Delimiter(rest)
    ensures Parse(";" + text + "\n" + w + Show(v) + rest) == Parsed(rest, Some(v))
  {
    var t, c, u := CommentLineText(text, w, v, rest);
    CommentStopsAtLineEnd(text, c);
    CommentThen(t, u);
    NoNoise(u);
    FormReadsBack(v, rest);
    ParseAfterNoise(t, u);
  }

  /**
   * `#_`, a comment, and two forms: the comment is skipped, the first form is
   * discarded and the second one is read. Whatever the comment's text holds,
   * `#_` included, is part of the comment.
   */
  lemma DiscardAndComment(w0: string, text: string, w1: string, x: Value, w2: string, y: Value, rest: string)
    requires SingleLine(text) && Separators(w0) && Separators(w1) && Separators(w2) && w2 != []
    requires Readable(x) && Readable(y) && Delimiter(rest)
    ensures Parse("#_" + w0 + ";" + text + "\n" + w1 + Show(x) + w2 + Show(y) + rest) == Parsed(rest, Some(y))
  {
    var t, c, u, v, z := DiscardCommentText(w0, text, w1, x, w2, y, rest);
    var s := "#_" + (w0 + t);
    CommentedDiscard(w0, t, text, c, u, v, x);
    Quiet(s);
    NoiseAfterDiscard(s, v);
    SkipSeparators(v, z);
    NoNoise(z);
    FormReadsBack(y, rest);
    ParseAfterNoise(s, z);
  }

  /** `#_` and a comment before a form: the comment is skipped and the form discarded. */
  lemma CommentedDiscard(w0: string, t: string, text: string, c: string, u: string, v: string, x: Value)
    requires SingleLine(text) && t == ";" + text + c && t != [] && t[0] == ';' && Ws0(w0 + t) == t
    requires c != [] && c[0] == '\n' && Ws0(c) == u && FormStart(u)
    requires Readable(x) && u == Show(x) + v && Delimiter(v)
    ensures Discard("#_" + (w0 + t)) == Parsed(v, ())
  {
    var s := "#_" + (w0 + t);
    MarkerText(w0 + t);
    MarkerOf(s, w0 + t);
    NoMarker(t);
    OneMarker(s, t);
    CommentStopsAtLineEnd(text, c);
    Quiet(u);
    SkipOneComment(t, u);
    ReadsBack(x, v);
    DiscardOne(s, t, u, v, x);
  }
}
