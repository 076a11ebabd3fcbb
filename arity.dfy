/**
 * `check_arity`: decides whether a call with a given number of arguments is
 * supported by a set of arities. An arity is an integer `n` (exactly `n`
 * arguments) or a one-element vector `[n]` (at least `n`, variadic).
 */
module Arity {
  import opened Wrappers
  import opened Values

  /** `v` is `[n]` for an integer `n`. */
  predicate IsValidVariadicArity(v: Value)
  {
    v.Vector? && |v.items| == 1 && v.items[0].Integer?
  }

  predicate IsValidArity(v: Value)
  {
    v.Integer? || IsValidVariadicArity(v)
  }

  /** Every arity is valid, and no two of them are variadic. */
  predicate WellFormedArities(arities: set<Value>)
  {
    (forall a | a in arities :: IsValidArity(a)) &&
    (forall a, b | a in arities && b in arities && IsValidVariadicArity(a) && IsValidVariadicArity(b) :: a == b)
  }

  /** `args.len() as i64`: a length beyond `i64::MAX` wraps around. */
  function ArgCount(n: nat): (c: Int64)
    ensures n < 0x8000_0000_0000_0000 ==> c as int == n
  {
    var w := n % 0x1_0000_0000_0000_0000;
    (if w < 0x8000_0000_0000_0000 then w else w - 0x1_0000_0000_0000_0000) as Int64
  }

  /**
   * `check_arity` as written: the variadic test asks whether the `[n]`
   * vector itself is an integer at most the count. A vector never is an
   * integer, so only the exact arities are ever supported.
   */
  function CheckArityAsWritten(arities: set<Value>, count: nat): (r: Outcome<Result<(), ()>>)
    ensures r.Panic? <==> !WellFormedArities(arities)
    ensures r.Done? ==> (r.value.Ok? <==> Integer(ArgCount(count)) in arities)
  {
    var c := ArgCount(count);
    if !WellFormedArities(arities) then Panic
    else
      var variadicSupport := exists a | a in arities && IsValidVariadicArity(a) :: IsIntegerAnd(a, m => c >= m);
      if Integer(c) in arities || variadicSupport then Done(Ok(())) else Done(Err(()))
  }

  /** `check_arity` as intended: the count is one of the integers, or at least the `n` of the variadic `[n]`. */
  function CheckArity(arities: set<Value>, count: nat): (r: Outcome<Result<(), ()>>)
    ensures r.Panic? <==> !WellFormedArities(arities)
    ensures (forall a | a in arities :: !IsValidVariadicArity(a)) ==> r == CheckArityAsWritten(arities, count)
    ensures forall n: Int64 | Vector([Integer(n)]) in arities ::
      r.Done? ==> (r.value.Ok? <==> Integer(ArgCount(count)) in arities || ArgCount(count) >= n)
  {
    var c := ArgCount(count);
    if !WellFormedArities(arities) then Panic
    else
      var variadicSupport := exists a | a in arities && IsValidVariadicArity(a) :: c >= a.items[0].integer;
      if Integer(c) in arities || variadicSupport then Done(Ok(())) else Done(Err(()))
  }

  /** The variadic `[0]` of `vector`: as written every call is refused, as intended every call is accepted. */
  lemma VariadicIsRefusedAsWritten(count: nat)
    ensures CheckArityAsWritten({Vector([Integer(0)])}, count) == Done(Err(()))
    ensures count < 0x8000_0000_0000_0000 ==> CheckArity({Vector([Integer(0)])}, count) == Done(Ok(()))
  {
    var arities := {Vector([Integer(0)])};
    assert WellFormedArities(arities);
    assert Vector([Integer(0)]) in arities;
  }

  /**
   * The arities `#{0 1 [2]}` of `conj`: as intended they accept every count;
   * as written they accept only zero and one argument.
   */
  lemma ConjAritiesAsWrittenAndIntended(count: nat)
    requires count < 0x8000_0000_0000_0000
    ensures CheckArity({Integer(0), Integer(1), Vector([Integer(2)])}, count) == Done(Ok(()))
    ensures CheckArityAsWritten({Integer(0), Integer(1), Vector([Integer(2)])}, count) == if count <= 1 then Done(Ok(())) else Done(Err(()))
  {
    var arities := {Integer(0), Integer(1), Vector([Integer(2)])};
    assert WellFormedArities(arities);
    assert Vector([Integer(2)]) in arities;
    if count <= 1 {
      assert Integer(ArgCount(count)) in arities;
    }
  }
}
