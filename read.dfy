/**
 * `read_one` and `read_many`, and the loops of the reader: `TryParse` and
 * `TryParseDiscard` run the `while let` and `for` loops of `try_parse` and
 * `try_parse_discard` step by step and are proved to compute `Reader.Parse`
 * and `Reader.Discard`; `ReadMany` runs the loop of `read_many` and is
 * proved to compute `ReadManySpec`.
 */
module Read {
  import opened Wrappers
  import opened Values
  import opened Reader

  // ---------------------------------------------------------------- str::trim

  /** Unicode `White_Space`, the characters `str::trim` removes. */
  predicate IsUnicodeWhiteSpace(c: char)
  {
    c == ' ' || ('\t' <= c <= '\r') || c == '\U{85}' || c == '\U{A0}' || c == '\U{1680}' ||
    ('\U{2000}' <= c <= '\U{200A}') || c == '\U{2028}' || c == '\U{2029}' || c == '\U{202F}' ||
    c == '\U{205F}' || c == '\U{3000}'
  }

  function TrimStart(s: string): (r: string)
    ensures |r| <= |s| && r == s[|s| - |r|..]
    ensures r == [] || !IsUnicodeWhiteSpace(r[0])
    ensures forall i | 0 <= i < |s| - |r| :: IsUnicodeWhiteSpace(s[i])
  {
    if s != [] && IsUnicodeWhiteSpace(s[0]) then TrimStart(s[1..]) else s
  }

  function TrimEnd(s: string): (r: string)
    ensures |r| <= |s| && r == s[..|r|]
    ensures r == [] || !IsUnicodeWhiteSpace(r[|r| - 1])
    ensures forall i | |r| <= i < |s| :: IsUnicodeWhiteSpace(s[i])
  {
    if s != [] && IsUnicodeWhiteSpace(s[|s| - 1]) then TrimEnd(s[..|s| - 1]) else s
  }

  /** The `n` characters of `s` from index `i`. */
  function Slice(s: string, i: nat, n: nat): string
    requires i + n <= |s|
  {
    s[i..i + n]
  }

  /**
   * `str::trim`: the text without its leading and trailing white space. Only
   * white space is removed: everything before and after the slice kept is
   * white space, and the slice neither starts nor ends with any.
   */
  function Trim(s: string): (r: string)
    ensures |r| <= |s|
    ensures exists i | 0 <= i <= |s| - |r| ::
      (Slice(s, i, |r|) == r &&
       (forall j | 0 <= j < i :: IsUnicodeWhiteSpace(s[j])) &&
       (forall j | i + |r| <= j < |s| :: IsUnicodeWhiteSpace(s[j])))
    ensures r == [] || (!IsUnicodeWhiteSpace(r[0]) && !IsUnicodeWhiteSpace(r[|r| - 1]))
  {
    var t := TrimStart(s);
    var r := TrimEnd(t);
    SliceOfSuffix(s, t, r);
    assert forall j | |s| - |t| + |r| <= j < |s| :: s[j] == t[j - (|s| - |t|)];
    r
  }

  /** A prefix of a suffix of `s` is a slice of `s`. */
  lemma SliceOfSuffix(s: string, t: string, r: string)
    requires |t| <= |s| && t == s[|s| - |t|..] && |r| <= |t| && r == t[..|r|]
    ensures 0 <= |s| - |t| <= |s| - |r| && Slice(s, |s| - |t|, |r|) == r
  {
    var i := |s| - |t|;
    assert r == s[i..][..|r|] == s[i..i + |r|];
  }

  /** Text with white space at neither end is left as it is. */
  lemma TrimKeepsTrimmedText(s: string)
    requires s == [] || (!IsUnicodeWhiteSpace(s[0]) && !IsUnicodeWhiteSpace(s[|s| - 1]))
    ensures Trim(s) == s
  {
  }

  // ---------------------------------------------------------------- read_one and read_many

  /** `read_one`: the first form, or nothing for empty input; a read that fails is an error. */
  function ReadOne(s: string): (r: Outcome<Result<Option<Value>, ParseError>>)
    ensures r == Done(Ok(None)) <==> s == []
    ensures r != Done(Err(MissingDiscardForm))
    ensures r.Done? && r.value.Ok? && r.value.value.Some? ==>
      exists rest :: Parse(s) == Parsed(rest, r.value.value)
  {
    match Parse(s)
    case Parsed(_, v) => Done(Ok(v))
    case Error => Done(Err(Other))
    case Failure(e) => Done(Err(e))
    case Panicked => Panic
  }

  /**
   * What `read_many` returns for (already trimmed) text: the forms read one
   * after the other, up to the end of the text or the first read that
   * fails; a read that panics panics.
   */
  function ReadManySpec(s: string): (r: Outcome<seq<Value>>)
    ensures s == [] ==> r == Done([])
    ensures r.Done? ==> |r.value| <= |s|
    decreases |s|
  {
    if s == [] then Done([])
    else
      match Parse(s)
      case Parsed(rest, Some(v)) =>
        (match ReadManySpec(rest)
         case Done(vs) => Done([v] + vs)
         case Panic => Panic)
      case Parsed(_, None) => Done([])
      case Panicked => Panic
      case Error => Done([])
      case Failure(_) => Done([])
  }

  /** `vs` in front of the values of `o`, or a panic. */
  function Prepend(vs: seq<Value>, o: Outcome<seq<Value>>): (r: Outcome<seq<Value>>)
    ensures r.Done? <==> o.Done?
    ensures r.Done? ==> |r.value| == |vs| + |o.value|
    ensures r.Done? ==> r.value[..|vs|] == vs && r.value[|vs|..] == o.value
  {
    match o
    case Done(ws) => Done(vs + ws)
    case Panic => Panic
  }

  lemma PrependTwice(vs: seq<Value>, ws: seq<Value>, o: Outcome<seq<Value>>)
    ensures Prepend(vs, Prepend(ws, o)) == Prepend(vs + ws, o)
  {
    if o.Done? {
      assert vs + (ws + o.value) == (vs + ws) + o.value;
    }
  }

  /** The first form `read_many` returns is the one `read_one` returns. */
  lemma ReadOneStartsReadMany(s: string)
    requires ReadManySpec(s).Done? && ReadManySpec(s).value != []
    ensures ReadOne(s) == Done(Ok(Some(ReadManySpec(s).value[0])))
  {
  }

  /** `read_many` reads, in order, the same forms `read_one` reads one after the other. */
  lemma {:induction false} ReadManyUnfolds(s: string, rest: string, v: Value)
    requires s != [] && Parse(s) == Parsed(rest, Some(v))
    ensures ReadManySpec(s) == Prepend([v], ReadManySpec(rest))
  {
  }

  /** What the discards end with when a form does not read: `None` is a missing form, any other outcome stays. */
  function DiscardStop(p: PResult<Option<Value>>): PResult<()>
  {
    match p
    case Parsed(_, _) => Failure(MissingDiscardForm)
    case Error => Error
    case Failure(e) => Failure(e)
    case Panicked => Panicked
  }

  /** One turn of the discard loop: a form that reads leaves `next == count - 1` discards after it. */
  lemma DiscardGoesOn(count: nat, s: string, p: PResult<Option<Value>>, next: nat, rest: string)
    requires count > 0 && p == Parse(SkipComments(s))
    requires p.Parsed? && p.output.Some? && next == count - 1 && rest == p.rest
    ensures |rest| < |s| && DiscardForms(count, s) == DiscardForms(next, rest)
  {
    var t := SkipComments(s);
    var v := p.output.value;
    assert Parse(t) == Parsed(rest, Some(v));
    assert |rest| < |t| <= |s|;
  }

  /** One turn of the discard loop: any other outcome ends the discards with `DiscardStop`. */
  lemma DiscardEnds(count: nat, s: string, p: PResult<Option<Value>>)
    requires count > 0 && p == Parse(SkipComments(s))
    requires !(p.Parsed? && p.output.Some?)
    ensures DiscardForms(count, s) == DiscardStop(p)
  {
  }

  /** The markers in front, then as many forms to discard. */
  lemma DiscardOfMarkers(s: string)
    ensures MarkerRun(s).0 == 0 ==> Discard(s) == Error
    ensures MarkerRun(s).0 > 0 ==> Discard(s) == DiscardForms(MarkerRun(s).0, MarkerRun(s).1)
  {
  }

  // ---------------------------------------------------------------- the loops

  /** `try_parse`, with the `while let` over separators, comments and discards as a loop. */
  method TryParse(s: string) returns (r: PResult<Option<Value>>)
    ensures r == Parse(s)
    decreases |s|, 1
  {
    if s == [] {
      return Parsed([], None);
    }
    var input := s;
    while true
      invariant |input| <= |s|
      invariant SkipNoise(input) == SkipNoise(s)
      decreases |input|
    {
      var ws := Ws1(input);
      if ws.Some? {
        input := ws.value;
        continue;
      }
      var comment := Comment(input);
      if comment.Some? {
        input := comment.value;
        continue;
      }
      var discard := TryParseDiscard(input);
      if discard.Parsed? {
        input := discard.rest;
      } else if discard.Panicked? {
        return Panicked;
      } else {
        break;
      }
    }
    match ParseForm(input)
    case Parsed(rest, v) => r := Parsed(rest, Some(v));
    case Error => r := Error;
    case Failure(e) => r := Failure(e);
    case Panicked => r := Panicked;
  }

  /** The `while let` over comments in `try_parse_discard`: every leading comment is skipped. */
  method SkipCommentLoop(s: string) returns (t: string)
    ensures t == SkipComments(s)
  {
    t := s;
    while Comment(t).Some?
      invariant SkipComments(t) == SkipComments(s)
      decreases |t|
    {
      t := Comment(t).value;
    }
  }

  /** `try_parse_discard`, with its `for` loop over the markers and the `while let` over comments. */
  method TryParseDiscard(s: string) returns (r: PResult<()>)
    ensures r == Discard(s)
    decreases |s|, 0
  {
    var (count, t) := MarkerRun(s);
    DiscardOfMarkers(s);
    if count == 0 {
      return Error;
    }
    var input: string := t;
    var left: nat := count;
    while left > 0
      invariant |input| <= |t|
      invariant DiscardForms(left, input) == Discard(s)
      decreases left
    {
      var stop, next, rest := DiscardTurn(left, input);
      if stop.Some? {
        return stop.value;
      }
      left, input := next, rest;
    }
    return Parsed(input, ());
  }

  /**
   * One turn of the `for` loop of `try_parse_discard`: the comments are
   * skipped and a form is read. A form that reads leaves one discard fewer
   * after it; any other outcome is where the discards end.
   */
  method DiscardTurn(count: nat, s: string) returns (stop: Option<PResult<()>>, next: nat, rest: string)
    requires count > 0
    ensures next == count - 1
    ensures stop.Some? ==> stop.value == DiscardForms(count, s)
    ensures stop.None? ==> |rest| < |s| && DiscardForms(count, s) == DiscardForms(next, rest)
    decreases |s|, 2
  {
    var input := SkipCommentLoop(s);
    var form := TryParse(input);
    next := count - 1;
    if form.Parsed? && form.output.Some? {
      rest := form.rest;
      DiscardGoesOn(count, s, form, next, rest);
      stop := None;
    } else {
      DiscardEnds(count, s, form);
      stop, rest := Some(DiscardStop(form)), s;
    }
  }

  /** `read_many`: trims the text, then reads forms until it is used up or a read fails. */
  method ReadMany(text: string) returns (r: Outcome<seq<Value>>)
    ensures r == ReadManySpec(Trim(text))
  {
    var input := Trim(text);
    var values: seq<Value> := [];
    while input != []
      invariant Prepend(values, ReadManySpec(input)) == ReadManySpec(Trim(text))
      decreases |input|
    {
      var form := TryParse(input);
      match form {
        case Parsed(rest, Some(v)) =>
          ReadManyUnfolds(input, rest, v);
          PrependTwice(values, [v], ReadManySpec(rest));
          input := rest;
          values := values + [v];
        case Parsed(_, None) =>
          break;
        case Panicked =>
          return Panic;
        case Error =>
          break;
        case Failure(_) =>
          break;
      }
    }
    assert ReadManySpec(input) == Done([]);
    assert values + [] == values;
    return Done(values);
  }
}
