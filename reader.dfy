/**
 * The reader: text to values, built from nom-style parsers over a string.
 *
 * A parser answers `Parsed(rest, output)`, `Error` (nom's recoverable
 * `Err::Error`: an alternative may be tried instead), `Failure(e)` (nom's
 * `Err::Failure`: no alternative is tried) or `Panicked`. The functions are
 * the specification; `TryParse`, `TryParseDiscard` and `ReadMany` are the
 * loops of the reader, each proved to compute its function.
 */
module Reader {
  import opened Wrappers
  import opened Values
  import Symbols
  import Keywords
  import Sets
  import Maps

  /** `ParseError`: what a failure carries. */
  datatype ParseError = MissingDiscardForm | Other

  datatype PResult<T> =
    | Parsed(rest: string, output: T)
    | Error
    | Failure(error: ParseError)
    | Panicked

  // ---------------------------------------------------------------- characters

  /** The separators of `ws0`/`ws1`: comma, space, tab, carriage return, line feed. */
  predicate IsWs(c: char)
  {
    c == ',' || c == ' ' || c == '\t' || c == '\r' || c == '\n'
  }

  predicate IsDigit(c: char)
  {
    '0' <= c <= '9'
  }

  predicate IsDigitOrUnderscore(c: char)
  {
    IsDigit(c) || c == '_'
  }

  predicate IsLetter(c: char)
  {
    'a' <= c <= 'z' || 'A' <= c <= 'Z'
  }

  /** The characters of a simple symbol: letters, digits and `.~!@$%^&*_-+=|<>?:'`. */
  predicate IsSymbolChar(c: char)
  {
    IsLetter(c) || IsDigit(c) ||
    c == '.' || c == '~' || c == '!' || c == '@' || c == '$' || c == '%' || c == '^' ||
    c == '&' || c == '*' || c == '_' || c == '-' || c == '+' || c == '=' || c == '|' ||
    c == '<' || c == '>' || c == '?' || c == ':' || c == '\''
  }

  /** The length of the longest prefix of `s` whose characters all satisfy `p`. */
  function PrefixLength(s: string, p: char -> bool): (n: nat)
    ensures n <= |s|
    ensures forall i | 0 <= i < n :: p(s[i])
    ensures n < |s| ==> !p(s[n])
  {
    if s == [] || !p(s[0]) then 0 else 1 + PrefixLength(s[1..], p)
  }

  predicate StartsWith(s: string, prefix: string)
  {
    |prefix| <= |s| && s[..|prefix|] == prefix
  }

  /** `take_until` of one character: the index of its first occurrence. */
  function FindChar(s: string, c: char): (r: Option<nat>)
    ensures r.Some? ==> r.value < |s| && s[r.value] == c && forall i | 0 <= i < r.value :: s[i] != c
    ensures r.None? ==> forall i | 0 <= i < |s| :: s[i] != c
  {
    if s == [] then None
    else if s[0] == c then Some(0)
    else match FindChar(s[1..], c)
      case None => None
      case Some(i) => Some(i + 1)
  }

  // ---------------------------------------------------------------- whitespace

  /** `ws0`: drops every leading separator. */
  function Ws0(s: string): (r: string)
    ensures |r| <= |s| && r == s[|s| - |r|..]
    ensures r == [] || !IsWs(r[0])
    ensures forall i | 0 <= i < |s| - |r| :: IsWs(s[i])
  {
    s[PrefixLength(s, IsWs)..]
  }

  /** `ws1`: like `ws0`, but at least one separator is needed. */
  function Ws1(s: string): (r: Option<string>)
    ensures r.Some? <==> s != [] && IsWs(s[0])
    ensures r.Some? ==> r.value == Ws0(s) && |r.value| < |s|
  {
    if s != [] && IsWs(s[0]) then Some(Ws0(s)) else None
  }

  // ---------------------------------------------------------------- comments

  /** No carriage return or line feed in `s`. */
  predicate SingleLine(s: string)
  {
    forall i | 0 <= i < |s| :: s[i] != '\r' && s[i] != '\n'
  }

  /** The index of the first carriage return or line feed in `s`, or `|s|` when there is none. */
  function LineEnd(s: string): (n: nat)
    ensures n <= |s| && SingleLine(s[..n])
    ensures n < |s| ==> s[n] == '\r' || s[n] == '\n'
  {
    if s == [] || s[0] == '\r' || s[0] == '\n' then 0
    else
      var n := 1 + LineEnd(s[1..]);
      assert s[..n] == [s[0]] + s[1..][..n - 1];
      n
  }

  /**
   * `try_parse_comment` as written: separators, `;`, then text up to the
   * first `\r` ANYWHERE in the rest, else up to the first `\n`, else the
   * rest only if it is empty; then separators.
   */
  function CommentAsWritten(s: string): (r: Option<string>)
    ensures r.Some? ==> |r.value| < |s|
  {
    var t := Ws0(s);
    if t == [] || t[0] != ';' then None
    else
      var body := t[1..];
      match FindChar(body, '\r')
      case Some(i) => Some(Ws0(body[i..]))
      case None =>
        match FindChar(body, '\n')
        case Some(i) => Some(Ws0(body[i..]))
        case None => if body == [] then Some(Ws0(body)) else None
  }

  /**
   * A comment as intended: separators, `;`, then text up to the first line
   * end, or to the end of the input when there is none; then separators.
   */
  function Comment(s: string): (r: Option<string>)
    ensures r.Some? <==> Ws0(s) != [] && Ws0(s)[0] == ';'
    ensures r.Some? ==> |r.value| < |s|
  {
    var t := Ws0(s);
    if t == [] || t[0] != ';' then None
    else
      var body := t[1..];
      Some(Ws0(body[LineEnd(body)..]))
  }

  /** A comment runs exactly to the first line end: the next line is read again. */
  lemma {:induction false} CommentStopsAtLineEnd(text: string, rest: string)
    requires SingleLine(text)
    requires rest == [] || rest[0] == '\r' || rest[0] == '\n'
    ensures Comment(";" + text + rest) == Some(Ws0(rest))
  {
    var body := (";" + text + rest)[1..];
    assert body == text + rest;
    LineEndOf(text, rest);
  }

  lemma {:induction false} LineEndOf(text: string, rest: string)
    requires SingleLine(text)
    requires rest == [] || rest[0] == '\r' || rest[0] == '\n'
    ensures LineEnd(text + rest) == |text|
  {
    if text != [] {
      assert (text + rest)[1..] == text[1..] + rest;
      LineEndOf(text[1..], rest);
    }
  }

  /** As written, a `\r` on a later line ends the comment: the comment swallows the line `b`. */
  lemma CommentSwallowsLaterLines()
    ensures CommentAsWritten(";a\nb\r") == Some("")
    ensures Comment(";a\nb\r") == Some("b\r")
  {
    assert FindChar("a\nb\r", '\r') == Some(3);
    assert LineEnd("a\nb\r") == 1;
    assert Ws0("\r") == "";
    assert Ws0("\nb\r") == "b\r";
  }

  /** As written, a comment that ends the input without a line end is refused. */
  lemma CommentAtEndOfInputRefused()
    ensures CommentAsWritten(";c") == None
    ensures Comment(";c") == Some("")
  {
    assert FindChar("c", '\r') == None;
    assert FindChar("c", '\n') == None;
    assert LineEnd("c") == 1;
  }

  /** The `while let` over comments in `try_parse_discard`: comments dropped until none is left. */
  function SkipComments(s: string): (r: string)
    ensures |r| <= |s|
    ensures Comment(r).None?
  {
    match Comment(s)
    case None => s
    case Some(t) => SkipComments(t)
  }

  // ---------------------------------------------------------------- discard markers

  /** `delimited(ws0, tag("#_"), ws0)`. */
  function Marker(s: string): (r: Option<string>)
    ensures r.Some? ==> |r.value| < |s|
  {
    var t := Ws0(s);
    if StartsWith(t, "#_") then Some(Ws0(t[2..])) else None
  }

  /** `many0` of markers: how many there are in a row, and what follows them. */
  function MarkerRun(s: string): (r: (nat, string))
    ensures |r.1| <= |s|
    ensures r.0 > 0 ==> |r.1| < |s|
    ensures Marker(r.1).None?
  {
    match Marker(s)
    case None => (0, s)
    case Some(t) =>
      var (n, u) := MarkerRun(t);
      (n + 1, u)
  }

  // ---------------------------------------------------------------- leaves

  /** `try_parse_nil`: the text `nil`, with no boundary needed after it. */
  function ParseNil(s: string): (r: PResult<Value>)
    ensures r.Parsed? <==> StartsWith(s, "nil")
    ensures r.Parsed? ==> r == Parsed(s[3..], Nil)
    ensures !r.Failure? && !r.Panicked?
  {
    if StartsWith(s, "nil") then Parsed(s[3..], Nil) else Error
  }

  /** `try_parse_boolean`: the text `true` or `false`, with no boundary needed after it. */
  function ParseBoolean(s: string): (r: PResult<Value>)
    ensures r.Parsed? <==> StartsWith(s, "true") || StartsWith(s, "false")
    ensures StartsWith(s, "true") ==> r == Parsed(s[4..], Boolean(true))
    ensures StartsWith(s, "false") ==> r == Parsed(s[5..], Boolean(false))
    ensures !r.Failure? && !r.Panicked?
  {
    if StartsWith(s, "true") then
      assert s[0] == s[..4][0];
      Parsed(s[4..], Boolean(true))
    else if StartsWith(s, "false") then Parsed(s[5..], Boolean(false))
    else Error
  }

  /** The characters of `s` other than `_`. */
  function WithoutUnderscores(s: string): (r: string)
    ensures |r| <= |s|
    ensures forall i | 0 <= i < |r| :: r[i] != '_'
    ensures forall c | c != '_' :: (c in r <==> c in s)
  {
    if s == [] then []
    else if s[0] == '_' then WithoutUnderscores(s[1..])
    else [s[0]] + WithoutUnderscores(s[1..])
  }

  /** The value of a string of decimal digits. */
  function DigitsValue(s: string): (n: nat)
    requires forall i | 0 <= i < |s| :: IsDigit(s[i])
  {
    if s == [] then 0
    else
      assert IsDigit(s[|s| - 1]);
      DigitsValue(s[..|s| - 1]) * 10 + (s[|s| - 1] as int - '0' as int)
  }

  /** `str::parse::<i64>` of an optional `-` and digits: the value, or nothing when it leaves the range. */
  function ParseInt64(s: string): (r: Option<Int64>)
    requires s != [] && (s[0] == '-' || IsDigit(s[0]))
    requires forall i | 1 <= i < |s| :: IsDigit(s[i])
    ensures s[0] != '-' ==> (r.Some? <==> DigitsValue(s) < 0x8000_0000_0000_0000)
    ensures s[0] != '-' && r.Some? ==> r.value as int == DigitsValue(s)
  {
    var negative := s[0] == '-';
    var digits := if negative then s[1..] else s;
    var magnitude: int := DigitsValue(digits);
    var value: int := if negative then -magnitude else magnitude;
    if -0x8000_0000_0000_0000 <= value < 0x8000_0000_0000_0000 then Some(value as Int64) else None
  }

  /**
   * The texts `try_parse_number` recognizes: an optional `-`, a digit, and
   * then digits, `_` and `.`.
   */
  predicate NumberShape(t: string)
  {
    var start := if StartsWith(t, "-") then 1 else 0;
    start < |t| && IsDigit(t[start]) && forall i | start <= i < |t| :: IsDigitOrUnderscore(t[i]) || t[i] == '.'
  }

  /**
   * How much `recognize` takes for a number: an optional `-`, a digit,
   * digits and `_`, and optionally `.`, a digit, digits and `_`; 0 when
   * the text does not start like a number.
   */
  function NumberLength(s: string): (n: nat)
    ensures n <= |s|
    ensures n == 0 <==> !((StartsWith(s, "-") && |s| > 1 && IsDigit(s[1])) || (s != [] && IsDigit(s[0])))
    ensures n > 0 ==> NumberShape(s[..n])
  {
    var start := if StartsWith(s, "-") then 1 else 0;
    if start >= |s| || !IsDigit(s[start]) then 0
    else
      var whole := start + 1 + PrefixLength(s[start + 1..], IsDigitOrUnderscore);
      assert forall i | start + 1 <= i < whole :: s[i] == s[start + 1..][i - start - 1];
      var n :=
        if whole + 1 < |s| && s[whole] == '.' && IsDigit(s[whole + 1])
        then whole + 2 + PrefixLength(s[whole + 2..], IsDigitOrUnderscore)
        else whole;
      assert forall i | whole + 2 <= i < n :: s[i] == s[whole + 2..][i - whole - 2];
      assert forall i | start <= i < n :: IsDigitOrUnderscore(s[i]) || s[i] == '.';
      assert StartsWith(s[..n], "-") == StartsWith(s, "-") by {
        if |s| > 0 { assert s[..n][0] == s[0]; }
      }
      n
  }

  /**
   * The value of recognized number text: without the underscores, text
   * with a `.` is a float, other text an `i64`; an integer out of range
   * panics (the `expect` on the parse).
   */
  function NumberValue(t: string): (r: Outcome<Value>)
    requires NumberShape(t)
    ensures r.Done? && '.' in t ==> r.value == Float(WithoutUnderscores(t))
    ensures r.Done? && '.' !in t ==> r.value.Integer?
    ensures r.Panic? ==> '.' !in t
  {
    if '.' in t then Done(Float(WithoutUnderscores(t)))
    else
      var start := if StartsWith(t, "-") then 1 else 0;
      assert forall i | start <= i < |t| :: IsDigitOrUnderscore(t[i]);
      assert start == 1 ==> t[0] == '-';
      match ParseInt64(NumberText(t, start))
      case Some(i) => Done(Integer(i))
      case None => Panic
  }

  /** `try_parse_number`: the recognized text and its value. */
  function ParseNumber(s: string): (r: PResult<Value>)
    ensures r.Parsed? ==> |r.rest| < |s|
    ensures !r.Failure?
    ensures !r.Error? <==> (StartsWith(s, "-") && |s| > 1 && IsDigit(s[1])) || (s != [] && IsDigit(s[0]))
  {
    var n := NumberLength(s);
    if n == 0 then Error
    else
      match NumberValue(s[..n])
      case Done(v) => Parsed(s[n..], v)
      case Panic => Panicked
  }

  /** The text of an integer literal without its underscores: the sign and then only digits. */
  function NumberText(t: string, start: nat): (r: string)
    requires start <= 1 && start < |t| && (start == 1 ==> t[0] == '-') && IsDigit(t[start])
    requires forall i | start <= i < |t| :: IsDigitOrUnderscore(t[i])
    ensures r != [] && (r[0] == '-' || IsDigit(r[0]))
    ensures forall i | 1 <= i < |r| :: IsDigit(r[i])
    ensures start == 0 ==> IsDigit(r[0])
  {
    var digits := WithoutUnderscores(t[start..]);
    assert forall c | c != '_' && c in digits :: c in t[start..];
    assert t[start] in digits;
    DigitsOnly(t[start..]);
    if start == 1 then "-" + digits else digits
  }

  lemma {:induction false} DigitsOnly(t: string)
    requires forall i | 0 <= i < |t| :: IsDigitOrUnderscore(t[i])
    requires t != [] && IsDigit(t[0])
    ensures WithoutUnderscores(t) != [] && WithoutUnderscores(t)[0] == t[0]
    ensures forall i | 0 <= i < |WithoutUnderscores(t)| :: IsDigit(WithoutUnderscores(t)[i])
  {
    AllDigits(t[1..]);
  }

  lemma {:induction false} AllDigits(t: string)
    requires forall i | 0 <= i < |t| :: IsDigitOrUnderscore(t[i])
    ensures forall i | 0 <= i < |WithoutUnderscores(t)| :: IsDigit(WithoutUnderscores(t)[i])
  {
    if t != [] {
      AllDigits(t[1..]);
    }
  }

  /** `try_parse_string`: a double quote, text up to the next double quote, and that quote; no escapes. */
  function ParseString(s: string): (r: PResult<Value>)
    ensures r.Parsed? ==> |r.rest| < |s| && r.output.String? && '"' !in r.output.text
    ensures !r.Failure? && !r.Panicked?
  {
    if s == [] || s[0] != '"' then Error
    else
      var body := s[1..];
      match FindChar(body, '"')
      case None => Error
      case Some(i) => Parsed(body[i + 1..], String(body[..i]))
  }

  /** `try_parse_simple_symbol` (`is_a`): the longest non-empty run of symbol characters. */
  function SimpleSymbol(s: string): (r: Option<(string, string)>)
    ensures r.Some? ==> r.value.0 != [] && s == r.value.0 + r.value.1
    ensures r.Some? ==> forall i | 0 <= i < |r.value.0| :: IsSymbolChar(r.value.0[i])
    ensures r.Some? ==> r.value.1 == [] || !IsSymbolChar(r.value.1[0])
    ensures r.None? <==> s == [] || !IsSymbolChar(s[0])
  {
    var n := PrefixLength(s, IsSymbolChar);
    if n == 0 then None
    else
      assert s == s[..n] + s[n..];
      Some((s[..n], s[n..]))
  }

  /** A simple symbol and optionally `/` and a second simple symbol: its namespace and its name. */
  function SymbolParts(s: string): (r: Option<(Option<string>, string, string)>)
    ensures r.Some? ==> |r.value.2| < |s|
    ensures r.None? <==> SimpleSymbol(s).None?
  {
    match SimpleSymbol(s)
    case None => None
    case Some((first, rest)) =>
      if rest != [] && rest[0] == '/' && SimpleSymbol(rest[1..]).Some? then
        var (second, rest2) := SimpleSymbol(rest[1..]).value;
        Some((Some(first), second, rest2))
      else Some((None, first, rest))
  }

  /** `try_parse_symbol`. */
  function ParseSymbol(s: string): (r: PResult<Value>)
    ensures r.Parsed? <==> SimpleSymbol(s).Some?
    ensures r.Parsed? ==> |r.rest| < |s| && r.output.Symbol?
    ensures !r.Failure? && !r.Panicked?
  {
    match SymbolParts(s)
    case None => Error
    case Some((None, name, rest)) => Parsed(rest, Symbol(Symbols.Unqualified(Symbols.UnqualifiedSymbol(name))))
    case Some((Some(ns), name, rest)) => Parsed(rest, Symbol(Symbols.Qualified(Symbols.QualifiedSymbol(ns, name))))
  }

  /** `try_parse_keyword`: `::` or `:` (both dropped), then what a symbol reads. */
  function ParseKeyword(s: string): (r: PResult<Value>)
    ensures r.Parsed? ==> |r.rest| < |s| && r.output.Keyword?
    ensures !r.Failure? && !r.Panicked?
  {
    var t := if StartsWith(s, "::") then s[2..] else if StartsWith(s, ":") then s[1..] else s;
    if !StartsWith(s, ":") then Error
    else
      match SymbolParts(t)
      case None => Error
      case Some((None, name, rest)) => Parsed(rest, Keyword(Keywords.Unqualified(Keywords.UnqualifiedKeyword(name))))
      case Some((Some(ns), name, rest)) => Parsed(rest, Keyword(Keywords.Qualified(Keywords.QualifiedKeyword(ns, name))))
  }

  /** The values of the items that read as a value (`filter_map(identity)`). */
  function Somes(xs: seq<Option<Value>>): (r: seq<Value>)
    ensures |r| <= |xs|
    ensures (forall i | 0 <= i < |xs| :: xs[i].Some?) ==> |r| == |xs| && forall i | 0 <= i < |xs| :: r[i] == xs[i].value
  {
    if xs == [] then []
    else if xs[0].Some? then [xs[0].value] + Somes(xs[1..])
    else Somes(xs[1..])
  }

  /** The entries whose key and value both read as values. */
  function SomePairs(xs: seq<(Option<Value>, Option<Value>)>): (r: seq<(Value, Value)>)
    ensures |r| <= |xs|
    ensures (forall i | 0 <= i < |xs| :: xs[i].0.Some? && xs[i].1.Some?) ==>
      |r| == |xs| && forall i | 0 <= i < |xs| :: r[i] == (xs[i].0.value, xs[i].1.value)
  {
    if xs == [] then []
    else if xs[0].0.Some? && xs[0].1.Some? then [(xs[0].0.value, xs[0].1.value)] + SomePairs(xs[1..])
    else SomePairs(xs[1..])
  }

  // ---------------------------------------------------------------- forms

  /**
   * `try_parse`: the empty input reads as nothing; otherwise separators,
   * comments and discards are dropped, and then a form is read after
   * optional separators.
   */
  function Parse(s: string): (r: PResult<Option<Value>>)
    ensures r.Parsed? ==> |r.rest| <= |s|
    ensures r.Parsed? && r.output.Some? ==> |r.rest| < |s|
    ensures r.Parsed? && r.output.None? <==> s == []
    ensures !r.Failure?
    decreases |s|, 6
  {
    if s == [] then Parsed([], None)
    else
      match SkipNoise(s)
      case Panic => Panicked
      case Done(t) =>
        match ParseForm(t)
        case Parsed(rest, v) => Parsed(rest, Some(v))
        case Error => Error
        case Failure(e) => Failure(e)
        case Panicked => Panicked
  }

  /**
   * The `while let` loop of `try_parse`: as long as one of separators, a
   * comment or a discard reads, it is dropped. A discard that fails, even
   * with `Failure`, just ends the loop; one that panics panics.
   */
  function SkipNoise(s: string): (r: Outcome<string>)
    ensures r.Done? ==> |r.value| <= |s|
    decreases |s|, 5
  {
    match Ws1(s)
    case Some(t) => SkipNoise(t)
    case None =>
      match Comment(s)
      case Some(t) => SkipNoise(t)
      case None =>
        match Discard(s)
        case Parsed(t, _) => SkipNoise(t)
        case Panicked => Panic
        case _ => Done(s)
  }

  /**
   * `try_parse_discard`: one or more `#_` markers, then for each marker the
   * comments are dropped and a form is read and thrown away. Running out of
   * input where a form should be is a `Failure(MissingDiscardForm)`.
   */
  function Discard(s: string): (r: PResult<()>)
    ensures r.Parsed? ==> |r.rest| < |s|
    decreases |s|, 4
  {
    var (count, t) := MarkerRun(s);
    if count == 0 then Error else DiscardForms(count, t)
  }

  /** The `for` loop of `try_parse_discard`: `count` forms are read and thrown away. */
  function DiscardForms(count: nat, s: string): (r: PResult<()>)
    ensures r.Parsed? ==> |r.rest| <= |s|
    ensures r.Parsed? && count > 0 ==> |r.rest| < |s|
    decreases |s|, 7, count
  {
    if count == 0 then Parsed(s, ())
    else
      var t := SkipComments(s);
      match Parse(t)
      case Parsed(rest, Some(_)) => DiscardForms(count - 1, rest)
      case Parsed(_, None) => Failure(MissingDiscardForm)
      case Error => Error
      case Failure(e) => Failure(e)
      case Panicked => Panicked
  }

  /**
   * The alternatives of `try_parse` after optional separators, in order:
   * list, vector, set, map, quote, nil, boolean, number, string, keyword,
   * symbol. The first that does not answer `Error` decides.
   */
  function ParseForm(s: string): (r: PResult<Value>)
    ensures r.Parsed? ==> |r.rest| < |s|
    ensures !r.Failure?
    decreases |s|, 3
  {
    var t := Ws0(s);
    var list := ParseList(t);
    if !list.Error? then list else
    var vector := ParseVector(t);
    if !vector.Error? then vector else
    var set_ := ParseSet(t);
    if !set_.Error? then set_ else
    var map_ := ParseMap(t);
    if !map_.Error? then map_ else
    var quote := ParseQuote(t);
    if !quote.Error? then quote else
    var nil := ParseNil(t);
    if !nil.Error? then nil else
    var boolean := ParseBoolean(t);
    if !boolean.Error? then boolean else
    var number := ParseNumber(t);
    if !number.Error? then number else
    var string_ := ParseString(t);
    if !string_.Error? then string_ else
    var keyword := ParseKeyword(t);
    if !keyword.Error? then keyword else
    ParseSymbol(t)
  }

  /** `try_parse_quote`: `'` and a form, read as `(quote form)`; a `'` ending the input panics. */
  function ParseQuote(s: string): (r: PResult<Value>)
    ensures r.Parsed? ==> |r.rest| < |s|
    ensures !r.Failure?
    decreases |s|, 2
  {
    if s == [] || s[0] != '\'' then Error
    else
      match Parse(s[1..])
      case Parsed(rest, Some(v)) => Parsed(rest, List([Symbol(Symbols.Unqualified(Symbols.UnqualifiedSymbol("quote"))), v]))
      case Parsed(_, None) => Panicked
      case Error => Error
      case Failure(e) => Failure(e)
      case Panicked => Panicked
  }

  /** The opening text, separators, items separated by separators, separators and the closing character. */
  function Bracketed(s: string, open: string, close: char): (r: PResult<seq<Option<Value>>>)
    requires open != []
    ensures r.Parsed? ==> |r.rest| < |s|
    ensures !r.Failure?
    decreases |s|, 1
  {
    if !StartsWith(s, open) then Error
    else
      match Items(Ws0(s[|open|..]))
      case Parsed(rest, xs) =>
        var t := Ws0(rest);
        if t != [] && t[0] == close then Parsed(t[1..], xs) else Error
      case Error => Error
      case Failure(e) => Failure(e)
      case Panicked => Panicked
  }

  /** `try_parse_list`. */
  function ParseList(s: string): (r: PResult<Value>)
    ensures r.Parsed? ==> |r.rest| < |s| && r.output.List?
    ensures !r.Failure?
    decreases |s|, 2
  {
    match Bracketed(s, "(", ')')
    case Parsed(rest, xs) => Parsed(rest, List(Somes(xs)))
    case Error => Error
    case Failure(e) => Failure(e)
    case Panicked => Panicked
  }

  /** `try_parse_vector`. */
  function ParseVector(s: string): (r: PResult<Value>)
    ensures r.Parsed? ==> |r.rest| < |s| && r.output.Vector?
    ensures !r.Failure?
    decreases |s|, 2
  {
    match Bracketed(s, "[", ']')
    case Parsed(rest, xs) => Parsed(rest, Vector(Somes(xs)))
    case Error => Error
    case Failure(e) => Failure(e)
    case Panicked => Panicked
  }

  /** `try_parse_set`: duplicates collapse. */
  function ParseSet(s: string): (r: PResult<Value>)
    ensures r.Parsed? ==> |r.rest| < |s| && r.output.Set?
    ensures !r.Failure?
    decreases |s|, 2
  {
    match Bracketed(s, "#{", '}')
    case Parsed(rest, xs) => Parsed(rest, Set(Sets.FromSeq(Somes(xs))))
    case Error => Error
    case Failure(e) => Failure(e)
    case Panicked => Panicked
  }

  /** `separated_list0(ws1, try_parse)`: an item that does not read ends the list before its separator. */
  function Items(s: string): (r: PResult<seq<Option<Value>>>)
    ensures r.Parsed? ==> |r.rest| <= |s|
    ensures !r.Failure?
    decreases |s|, 8
  {
    match Parse(s)
    case Error => Parsed(s, [])
    case Failure(e) => Failure(e)
    case Panicked => Panicked
    case Parsed(rest, x) =>
      match ItemsAfter(rest)
      case Parsed(rest2, xs) => Parsed(rest2, [x] + xs)
      case Error => Error
      case Failure(e) => Failure(e)
      case Panicked => Panicked
  }

  /** The rest of `separated_list0`: separators and then an item, as often as both read. */
  function ItemsAfter(s: string): (r: PResult<seq<Option<Value>>>)
    ensures r.Parsed? ==> |r.rest| <= |s|
    ensures !r.Failure?
    decreases |s|, 0
  {
    match Ws1(s)
    case None => Parsed(s, [])
    case Some(t) =>
      match Parse(t)
      case Error => Parsed(s, [])
      case Failure(e) => Failure(e)
      case Panicked => Panicked
      case Parsed(rest, x) =>
        match ItemsAfter(rest)
        case Parsed(rest2, xs) => Parsed(rest2, [x] + xs)
        case Error => Error
        case Failure(e) => Failure(e)
        case Panicked => Panicked
  }

  /** `separated_pair(try_parse, ws1, try_parse)`. */
  function Pair(s: string): (r: PResult<(Option<Value>, Option<Value>)>)
    ensures r.Parsed? ==> |r.rest| < |s|
    ensures !r.Failure?
    decreases |s|, 7
  {
    match Parse(s)
    case Parsed(rest, k) =>
      (match Ws1(rest)
       case None => Error
       case Some(t) =>
         match Parse(t)
         case Parsed(rest2, v) => Parsed(rest2, (k, v))
         case Error => Error
         case Failure(e) => Failure(e)
         case Panicked => Panicked)
    case Error => Error
    case Failure(e) => Failure(e)
    case Panicked => Panicked
  }

  /** `separated_list0(ws1, separated_pair(..))`. */
  function MapEntries(s: string): (r: PResult<seq<(Option<Value>, Option<Value>)>>)
    ensures r.Parsed? ==> |r.rest| <= |s|
    ensures !r.Failure?
    decreases |s|, 9
  {
    match Pair(s)
    case Error => Parsed(s, [])
    case Failure(e) => Failure(e)
    case Panicked => Panicked
    case Parsed(rest, p) =>
      match MapEntriesAfter(rest)
      case Parsed(rest2, ps) => Parsed(rest2, [p] + ps)
      case Error => Error
      case Failure(e) => Failure(e)
      case Panicked => Panicked
  }

  function MapEntriesAfter(s: string): (r: PResult<seq<(Option<Value>, Option<Value>)>>)
    ensures r.Parsed? ==> |r.rest| <= |s|
    ensures !r.Failure?
    decreases |s|, 0
  {
    match Ws1(s)
    case None => Parsed(s, [])
    case Some(t) =>
      match Pair(t)
      case Error => Parsed(s, [])
      case Failure(e) => Failure(e)
      case Panicked => Panicked
      case Parsed(rest, p) =>
        match MapEntriesAfter(rest)
        case Parsed(rest2, ps) => Parsed(rest2, [p] + ps)
        case Error => Error
        case Failure(e) => Failure(e)
        case Panicked => Panicked
  }

  /** `try_parse_map`: entries whose key or value is missing are dropped; a repeated key keeps its last value. */
  function ParseMap(s: string): (r: PResult<Value>)
    ensures r.Parsed? ==> |r.rest| < |s| && r.output.Map?
    ensures !r.Failure?
    decreases |s|, 2
  {
    if !StartsWith(s, "{") then Error
    else
      match MapEntries(Ws0(s[1..]))
      case Parsed(rest, ps) =>
        var t := Ws0(rest);
        if t != [] && t[0] == '}' then Parsed(t[1..], Map(Maps.FromPairs(SomePairs(ps)))) else Error
      case Error => Error
      case Failure(e) => Failure(e)
      case Panicked => Panicked
  }
}
