/**
 * The runtime value: a tagged union of scalars, names, collections and the
 * three reference kinds (a `Var` cell, a callable and an opaque handle).
 *
 * Collections are mathematical: a list or vector is a `seq`, a set a `set`,
 * a map a `map`. `Rc` identity is Dafny reference identity: a `Var` and a
 * `Callable` are classes, and a handle is any `object` (in this core it is
 * always a namespace).
 */
module Values {
  import opened Wrappers
  import Symbols
  import Keywords

  /** Rust's `i64`. */
  newtype Int64 = x: int | -0x8000_0000_0000_0000 <= x < 0x8000_0000_0000_0000

  /** The library functions of the core namespace, one per `defn!`. */
  datatype Builtin =
    | ConjFn | CreateNsFn | DeclareFn | EvalFn | FindNsFn | FirstFn | InNsFn | KeysFn
    | KeywordFn | LastFn | ListFn | MapFn | NameFn | NamespaceFn | NsMapFn | NsPublicsFn
    | PrnFn | RestFn | SecondFn | SlurpFn | SymbolFn | ValsFn | VecFn | VectorFn
    | RemoveNsFn | ReferFn | ApplyFn

  /** An `Rc<dyn AFn>`: a shared callable whose identity is its reference. */
  class Callable {
    const builtin: Builtin

    constructor (builtin: Builtin)
      ensures this.builtin == builtin
    {
      this.builtin := builtin;
    }
  }

  datatype Value =
    | Nil
    | Boolean(boolean: bool)
    | Integer(integer: Int64)
      /** An `f64`, kept as the decimal literal it was read from (no arithmetic is modelled). */
    | Float(literal: string)
    | String(text: string)
    | Symbol(symbol: Symbols.Symbol)
    | Keyword(keyword: Keywords.Keyword)
    | List(items: seq<Value>)
    | Vector(items: seq<Value>)
    | Set(members: set<Value>)
    | Map(entries: map<Value, Value>)
    | Var(cell: Var)
    | AFn(afn: Callable)
    | Handle(handle: object)

  /**
   * A mutable place that may hold a value. `bind` and `unbind` go through a
   * shared reference, so every holder of the same `Var` sees the change.
   */
  class Var {
    var place: Option<Value>

    /** `Var::new_unbound`. */
    constructor Unbound()
      ensures place == None
    {
      place := None;
    }

    /** `Var::new_bound`. */
    constructor Bound(v: Value)
      ensures place == Some(v)
    {
      place := Some(v);
    }

    predicate IsBound()
      reads this
    {
      place.Some?
    }

    predicate IsUnbound()
      reads this
    {
      place.None?
    }

    function Deref(): Option<Value>
      reads this
    {
      place
    }

    /** Overwrites the place, whatever it held before. */
    method Bind(v: Value)
      modifies this
      ensures Deref() == Some(v) && IsBound()
    {
      place := Some(v);
    }

    method Unbind()
      modifies this
      ensures Deref() == None && IsUnbound()
    {
      place := None;
    }
  }

  /** In every state a var is exactly one of bound and unbound, and it is unbound exactly when it derefs to nothing. */
  lemma VarStates(x: Var)
    ensures x.IsBound() == !x.IsUnbound()
    ensures x.IsUnbound() <==> x.Deref() == None
  {
  }

  // ---------------------------------------------------------------- variant tags

  /** The position of the variant in the enum (`mem::discriminant`). */
  function Tag(v: Value): nat
  {
    match v
    case Nil => 0
    case Boolean(_) => 1
    case Integer(_) => 2
    case Float(_) => 3
    case String(_) => 4
    case Symbol(_) => 5
    case Keyword(_) => 6
    case List(_) => 7
    case Vector(_) => 8
    case Set(_) => 9
    case Map(_) => 10
    case Var(_) => 11
    case AFn(_) => 12
    case Handle(_) => 13
  }

  // ---------------------------------------------------------------- predicates

  predicate IsNil(v: Value) { v.Nil? }
  predicate IsSome(v: Value) { !IsNil(v) }
  predicate IsBoolean(v: Value) { v.Boolean? }
  /** Decided with `PartialEq`, against `Boolean(true)`. */
  predicate IsBooleanTrue(v: Value) { ValueEq(v, Boolean(true)) }
  predicate IsBooleanFalse(v: Value) { ValueEq(v, Boolean(false)) }
  predicate IsBooleanAnd(v: Value, f: bool -> bool) { v.Boolean? && f(v.boolean) }
  predicate IsInteger(v: Value) { v.Integer? }
  predicate IsIntegerAnd(v: Value, f: Int64 -> bool) { v.Integer? && f(v.integer) }
  predicate IsFloat(v: Value) { v.Float? }
  predicate IsFloatAnd(v: Value, f: string -> bool) { v.Float? && f(v.literal) }
  predicate IsNumber(v: Value) { IsInteger(v) || IsFloat(v) }
  predicate IsString(v: Value) { v.String? }
  predicate IsSymbol(v: Value) { v.Symbol? }
  predicate IsSymbolUnqualified(v: Value) { v.Symbol? && v.symbol.Unqualified? }
  predicate IsSymbolQualified(v: Value) { v.Symbol? && v.symbol.Qualified? }
  predicate IsSymbolAnd(v: Value, f: Symbols.Symbol -> bool) { v.Symbol? && f(v.symbol) }
  predicate IsSymbolUnqualifiedAnd(v: Value, f: Symbols.UnqualifiedSymbol -> bool)
  {
    IsSymbolUnqualified(v) && f(v.symbol.unqualified)
  }
  predicate IsSymbolQualifiedAnd(v: Value, f: Symbols.QualifiedSymbol -> bool)
  {
    IsSymbolQualified(v) && f(v.symbol.qualified)
  }
  predicate IsKeyword(v: Value) { v.Keyword? }
  predicate IsKeywordUnqualified(v: Value) { v.Keyword? && v.keyword.Unqualified? }
  predicate IsKeywordQualified(v: Value) { v.Keyword? && v.keyword.Qualified? }
  predicate IsKeywordAnd(v: Value, f: Keywords.Keyword -> bool) { v.Keyword? && f(v.keyword) }
  predicate IsKeywordUnqualifiedAnd(v: Value, f: Keywords.UnqualifiedKeyword -> bool)
  {
    IsKeywordUnqualified(v) && f(v.keyword.unqualified)
  }
  predicate IsKeywordQualifiedAnd(v: Value, f: Keywords.QualifiedKeyword -> bool)
  {
    IsKeywordQualified(v) && f(v.keyword.qualified)
  }
  predicate IsList(v: Value) { v.List? }
  predicate IsListAnd(v: Value, f: seq<Value> -> bool) { v.List? && f(v.items) }
  predicate IsListNonemptyAnd(v: Value, f: seq<Value> -> bool) { v.List? && v.items != [] && f(v.items) }
  predicate IsVector(v: Value) { v.Vector? }
  predicate IsVectorAnd(v: Value, f: seq<Value> -> bool) { v.Vector? && f(v.items) }
  predicate IsVectorNonemptyAnd(v: Value, f: seq<Value> -> bool) { v.Vector? && v.items != [] && f(v.items) }
  predicate IsSet(v: Value) { v.Set? }
  predicate IsSetAnd(v: Value, f: set<Value> -> bool) { v.Set? && f(v.members) }
  predicate IsSetNonemptyAnd(v: Value, f: set<Value> -> bool) { v.Set? && v.members != {} && f(v.members) }
  predicate IsMap(v: Value) { v.Map? }
  predicate IsMapAnd(v: Value, f: map<Value, Value> -> bool) { v.Map? && f(v.entries) }
  predicate IsMapNonemptyAnd(v: Value, f: map<Value, Value> -> bool) { v.Map? && v.entries != map[] && f(v.entries) }
  predicate IsVar(v: Value) { v.Var? }
  predicate IsVarAnd(v: Value, f: Var -> bool) { v.Var? && f(v.cell) }

  /** `is_some` negates `is_nil`, `is_number` is integer-or-float, and the boolean tests agree with equality. */
  lemma PredicateRelations(v: Value)
    ensures IsSome(v) == !IsNil(v)
    ensures IsNumber(v) == (IsInteger(v) || IsFloat(v))
    ensures IsBooleanTrue(v) <==> v == Boolean(true)
    ensures IsBooleanFalse(v) <==> v == Boolean(false)
    ensures IsSymbolQualified(v) || IsSymbolUnqualified(v) <==> IsSymbol(v)
    ensures IsKeywordQualified(v) || IsKeywordUnqualified(v) <==> IsKeyword(v)
  {
  }

  /**
   * An `is_X_and(f)` test is false on every other variant, whatever `f` is,
   * and is `f(payload)` on its own variant; the non-empty forms are the plain
   * forms with emptiness checked first.
   */
  lemma AndFormsDecide(v: Value, fs: seq<Value> -> bool, fm: map<Value, Value> -> bool, fset: set<Value> -> bool)
    ensures !v.List? ==> !IsListAnd(v, fs) && !IsListNonemptyAnd(v, fs)
    ensures v.List? ==> IsListAnd(v, fs) == fs(v.items)
    ensures IsListNonemptyAnd(v, fs) == IsListAnd(v, xs => xs != [] && fs(xs))
    ensures !v.Vector? ==> !IsVectorAnd(v, fs) && !IsVectorNonemptyAnd(v, fs)
    ensures v.Vector? ==> IsVectorAnd(v, fs) == fs(v.items)
    ensures IsVectorNonemptyAnd(v, fs) == IsVectorAnd(v, xs => xs != [] && fs(xs))
    ensures !v.Set? ==> !IsSetAnd(v, fset) && !IsSetNonemptyAnd(v, fset)
    ensures v.Set? ==> IsSetAnd(v, fset) == fset(v.members)
    ensures IsSetNonemptyAnd(v, fset) == IsSetAnd(v, s => s != {} && fset(s))
    ensures !v.Map? ==> !IsMapAnd(v, fm) && !IsMapNonemptyAnd(v, fm)
    ensures v.Map? ==> IsMapAnd(v, fm) == fm(v.entries)
    ensures IsMapNonemptyAnd(v, fm) == IsMapAnd(v, m => m != map[] && fm(m))
  {
  }

  // ---------------------------------------------------------------- accessors

  function TryAsInteger(v: Value): (r: Result<Int64, Value>)
    ensures r.Ok? <==> v.Integer?
    ensures r.Ok? ==> v == Integer(r.value)
    ensures r.Err? ==> r.error == v
  {
    if v.Integer? then Ok(v.integer) else Err(v)
  }

  /** `as_integer`: unwraps `try_as_integer`, so it panics on any other variant. */
  function AsInteger(v: Value): (r: Outcome<Int64>)
    ensures r.Done? <==> v.Integer?
    ensures r.Done? ==> v == Integer(r.value)
  {
    match TryAsInteger(v)
    case Ok(i) => Done(i)
    case Err(_) => Panic
  }

  function TryAsSymbol(v: Value): (r: Result<Symbols.Symbol, Value>)
    ensures r.Ok? <==> v.Symbol?
    ensures r.Ok? ==> v == Symbol(r.value)
    ensures r.Err? ==> r.error == v
  {
    if v.Symbol? then Ok(v.symbol) else Err(v)
  }

  function AsSymbolPanicing(v: Value): (r: Outcome<Symbols.Symbol>)
    ensures r.Done? <==> v.Symbol?
    ensures r.Done? ==> v == Symbol(r.value)
  {
    if v.Symbol? then Done(v.symbol) else Panic
  }

  function TryAsSymbolUnqualified(v: Value): (r: Result<Symbols.UnqualifiedSymbol, Value>)
    ensures r.Ok? <==> IsSymbolUnqualified(v)
    ensures r.Ok? ==> v == Symbol(Symbols.Unqualified(r.value))
    ensures r.Err? ==> r.error == v
  {
    if IsSymbolUnqualified(v) then Ok(v.symbol.unqualified) else Err(v)
  }

  function AsSymbolUnqualifiedPanicing(v: Value): (r: Outcome<Symbols.UnqualifiedSymbol>)
    ensures r.Done? <==> IsSymbolUnqualified(v)
    ensures r.Done? ==> v == Symbol(Symbols.Unqualified(r.value))
  {
    if IsSymbolUnqualified(v) then Done(v.symbol.unqualified) else Panic
  }

  function TryAsSymbolQualified(v: Value): (r: Result<Symbols.QualifiedSymbol, Value>)
    ensures r.Ok? <==> IsSymbolQualified(v)
    ensures r.Ok? ==> v == Symbol(Symbols.Qualified(r.value))
    ensures r.Err? ==> r.error == v
  {
    if IsSymbolQualified(v) then Ok(v.symbol.qualified) else Err(v)
  }

  function AsSymbolQualifiedPanicing(v: Value): (r: Outcome<Symbols.QualifiedSymbol>)
    ensures r.Done? <==> IsSymbolQualified(v)
    ensures r.Done? ==> v == Symbol(Symbols.Qualified(r.value))
  {
    if IsSymbolQualified(v) then Done(v.symbol.qualified) else Panic
  }

  function TryAsAFn(v: Value): (r: Result<Callable, Value>)
    ensures r.Ok? <==> v.AFn?
    ensures r.Ok? ==> v == AFn(r.value)
    ensures r.Err? ==> r.error == v
  {
    if v.AFn? then Ok(v.afn) else Err(v)
  }

  function AsAFnPanicing(v: Value): (r: Outcome<Callable>)
    ensures r.Done? <==> v.AFn?
    ensures r.Done? ==> v == AFn(r.value)
  {
    if v.AFn? then Done(v.afn) else Panic
  }

  /** `try_as_list`, and `try_into_list`, which returns a copy of the same list. */
  function TryAsList(v: Value): (r: Result<seq<Value>, Value>)
    ensures r.Ok? <==> v.List?
    ensures r.Ok? ==> v == List(r.value)
    ensures r.Err? ==> r.error == v
  {
    if v.List? then Ok(v.items) else Err(v)
  }

  /** `as_list_panicing`, and `into_list_panicing`, which returns a copy of the same list. */
  function AsListPanicing(v: Value): (r: Outcome<seq<Value>>)
    ensures r.Done? <==> v.List?
    ensures r.Done? ==> v == List(r.value)
  {
    if v.List? then Done(v.items) else Panic
  }

  /** `try_as_vector`, and `try_into_vector`, which returns a copy of the same vector. */
  function TryAsVector(v: Value): (r: Result<seq<Value>, Value>)
    ensures r.Ok? <==> v.Vector?
    ensures r.Ok? ==> v == Vector(r.value)
    ensures r.Err? ==> r.error == v
  {
    if v.Vector? then Ok(v.items) else Err(v)
  }

  /** `as_vector_panicing`, and `into_vector_panicing`, which returns a copy of the same vector. */
  function AsVectorPanicing(v: Value): (r: Outcome<seq<Value>>)
    ensures r.Done? <==> v.Vector?
    ensures r.Done? ==> v == Vector(r.value)
  {
    if v.Vector? then Done(v.items) else Panic
  }

  function TryAsSet(v: Value): (r: Result<set<Value>, Value>)
    ensures r.Ok? <==> v.Set?
    ensures r.Ok? ==> v == Set(r.value)
    ensures r.Err? ==> r.error == v
  {
    if v.Set? then Ok(v.members) else Err(v)
  }

  function AsSetPanicing(v: Value): (r: Outcome<set<Value>>)
    ensures r.Done? <==> v.Set?
    ensures r.Done? ==> v == Set(r.value)
  {
    if v.Set? then Done(v.members) else Panic
  }

  /** `try_as_map`, and `try_into_map`, which returns a copy of the same map. */
  function TryAsMap(v: Value): (r: Result<map<Value, Value>, Value>)
    ensures r.Ok? <==> v.Map?
    ensures r.Ok? ==> v == Map(r.value)
    ensures r.Err? ==> r.error == v
  {
    if v.Map? then Ok(v.entries) else Err(v)
  }

  /** `as_map_panicing`, and `into_map_panicing`, which returns a copy of the same map. */
  function AsMapPanicing(v: Value): (r: Outcome<map<Value, Value>>)
    ensures r.Done? <==> v.Map?
    ensures r.Done? ==> v == Map(r.value)
  {
    if v.Map? then Done(v.entries) else Panic
  }

  // ---------------------------------------------------------------- From

  /** `From<()>`: the unit value is nil. */
  function FromUnit(): (v: Value)
    ensures IsNil(v) && !IsSome(v)
  {
    Nil
  }

  function FromBool(b: bool): (v: Value)
    ensures IsBooleanTrue(v) == b && IsBooleanFalse(v) == !b
  {
    Boolean(b)
  }

  function FromInt64(i: Int64): (v: Value)
    ensures TryAsInteger(v) == Ok(i)
  {
    Integer(i)
  }

  function FromString(s: string): (v: Value)
    ensures IsString(v) && v.text == s
  {
    String(s)
  }

  function FromSymbol(s: Symbols.Symbol): (v: Value)
    ensures TryAsSymbol(v) == Ok(s)
  {
    Symbol(s)
  }

  function FromKeyword(k: Keywords.Keyword): (v: Value)
    ensures IsKeywordAnd(v, x => x == k)
  {
    Keyword(k)
  }

  // ---------------------------------------------------------------- equality

  /**
   * `PartialEq`: structural on scalars and collections, pointer identity on
   * vars and callables, and never true for a handle, not even against itself.
   * Two maps are equal when they have the same keys and equal values under
   * each; two sets when they have the same members. Keys and members match
   * by identity here.
   */
  predicate ValueEq(a: Value, b: Value)
    ensures ValueEq(a, b) ==> Tag(a) == Tag(b) && !a.Handle?
  {
    match (a, b)
    case (Nil, Nil) => true
    case (Boolean(x), Boolean(y)) => x == y
    case (Integer(x), Integer(y)) => x == y
    case (Float(x), Float(y)) => x == y
    case (String(x), String(y)) => x == y
    case (Symbol(x), Symbol(y)) => x == y
    case (Keyword(x), Keyword(y)) => x == y
    case (List(x), List(y)) => ItemsEq(x, y)
    case (Vector(x), Vector(y)) => ItemsEq(x, y)
    case (Set(x), Set(y)) => x == y
    case (Map(x), Map(y)) => x.Keys == y.Keys && forall k | k in x :: ValueEq(x[k], y[k])
    case (Var(x), Var(y)) => x == y
    case (AFn(x), AFn(y)) => x == y
    case _ => false
  }

  /** Element-wise equality of two lists or vectors. */
  predicate ItemsEq(xs: seq<Value>, ys: seq<Value>)
    ensures ItemsEq(xs, ys) <==> |xs| == |ys| && forall i | 0 <= i < |xs| :: ValueEq(xs[i], ys[i])
  {
    |xs| == |ys| && (xs == [] || (ValueEq(xs[0], ys[0]) && ItemsEq(xs[1..], ys[1..])))
  }

  /**
   * The handle test, looking through lists, vectors and the values of maps.
   * Set members and map keys are matched by lookup, not by equality, so a
   * handle there does not make a value unequal to itself.
   */
  predicate HasHandle(v: Value)
  {
    match v
    case Handle(_) => true
    case List(xs) => exists i | 0 <= i < |xs| :: HasHandle(xs[i])
    case Vector(xs) => exists i | 0 <= i < |xs| :: HasHandle(xs[i])
    case Map(m) => exists k | k in m :: HasHandle(m[k])
    case _ => false
  }

  /** A handle is unequal to itself. */
  lemma HandleIsNeverEqual(h: object)
    ensures !ValueEq(Handle(h), Handle(h))
  {
  }

  /** Values of different variants are unequal. */
  lemma EqualValuesShareAVariant(a: Value, b: Value)
    requires ValueEq(a, b)
    ensures Tag(a) == Tag(b)
  {
  }

  /** Equality only ever holds between identical values. */
  lemma {:induction false} ValueEqIsIdentity(a: Value, b: Value)
    requires ValueEq(a, b)
    ensures a == b
  {
    match (a, b)
    case (List(x), List(y)) => ItemsEqIsIdentity(x, y);
    case (Vector(x), Vector(y)) => ItemsEqIsIdentity(x, y);
    case (Map(x), Map(y)) =>
      forall k | k in x
        ensures x[k] == y[k]
      {
        ValueEqIsIdentity(x[k], y[k]);
      }
    case _ =>
  }

  lemma {:induction false} ItemsEqIsIdentity(xs: seq<Value>, ys: seq<Value>)
    requires ItemsEq(xs, ys)
    ensures xs == ys
  {
    if xs != [] {
      ValueEqIsIdentity(xs[0], ys[0]);
      ItemsEqIsIdentity(xs[1..], ys[1..]);
      assert xs == [xs[0]] + xs[1..];
      assert ys == [ys[0]] + ys[1..];
    }
  }

  /** Without a handle in it, a value is equal to itself: the handle is the only thing that breaks reflexivity. */
  lemma {:induction false} ValueEqReflexive(a: Value)
    requires !HasHandle(a)
    ensures ValueEq(a, a)
  {
    match a
    case List(xs) => ItemsEqReflexive(xs);
    case Vector(xs) => ItemsEqReflexive(xs);
    case Map(m) =>
      forall k | k in m
        ensures ValueEq(m[k], m[k])
      {
        ValueEqReflexive(m[k]);
      }
    case _ =>
  }

  lemma {:induction false} ItemsEqReflexive(xs: seq<Value>)
    requires forall i | 0 <= i < |xs| :: !HasHandle(xs[i])
    ensures ItemsEq(xs, xs)
  {
    if xs != [] {
      ValueEqReflexive(xs[0]);
      ItemsEqReflexive(xs[1..]);
    }
  }

  /** Equality is symmetric. */
  lemma {:induction false} ValueEqSymmetric(a: Value, b: Value)
    ensures ValueEq(a, b) == ValueEq(b, a)
  {
    match (a, b)
    case (List(x), List(y)) => ItemsEqSymmetric(x, y);
    case (Vector(x), Vector(y)) => ItemsEqSymmetric(x, y);
    case (Map(x), Map(y)) =>
      if x.Keys == y.Keys {
        forall k | k in x
          ensures ValueEq(x[k], y[k]) == ValueEq(y[k], x[k])
        {
          ValueEqSymmetric(x[k], y[k]);
        }
      }
    case _ =>
  }

  lemma {:induction false} ItemsEqSymmetric(xs: seq<Value>, ys: seq<Value>)
    ensures ItemsEq(xs, ys) == ItemsEq(ys, xs)
  {
    if xs != [] && ys != [] {
      ValueEqSymmetric(xs[0], ys[0]);
      ItemsEqSymmetric(xs[1..], ys[1..]);
    }
  }

  // ---------------------------------------------------------------- ordering

  /**
   * `Ord`. Same variants compare by payload (lists and vectors
   * lexicographically); two values of different variants answer `Less` in
   * both directions; two callables or two handles answer `Equal`. `None`
   * marks the pairs whose order this model does not compute: two floats,
   * sets, maps or vars, or lists holding such a pair.
   */
  function Compare(a: Value, b: Value): (r: Option<Ordering>)
    ensures Tag(a) != Tag(b) ==> r == Some(Less)
    ensures r.Some? && r.value != Less ==> Tag(a) == Tag(b)
    ensures r == Some(Equal) && a.Handle? ==> b.Handle? && !ValueEq(a, b)
  {
    match (a, b)
    case (Nil, Nil) => Some(Equal)
    case (Boolean(x), Boolean(y)) => Some(if x == y then Equal else if !x then Less else Greater)
    case (Integer(x), Integer(y)) => Some(if x < y then Less else if x > y then Greater else Equal)
    case (Float(_), Float(_)) => None
    case (String(x), String(y)) => Some(CompareStrings(x, y))
    case (Symbol(x), Symbol(y)) => Some(Symbols.Compare(x, y))
    case (Keyword(x), Keyword(y)) => Some(Keywords.Compare(x, y))
    case (List(x), List(y)) => CompareItems(x, y)
    case (Vector(x), Vector(y)) => CompareItems(x, y)
    case (Set(_), Set(_)) => None
    case (Map(_), Map(_)) => None
    case (Var(_), Var(_)) => None
    case _ => Some(if Tag(a) == Tag(b) then Equal else Less)
  }

  /** Lexicographic comparison: the first unequal pair decides, and a proper prefix is less. */
  function CompareItems(xs: seq<Value>, ys: seq<Value>): Option<Ordering>
  {
    if xs == [] && ys == [] then Some(Equal)
    else if xs == [] then Some(Less)
    else if ys == [] then Some(Greater)
    else
      match Compare(xs[0], ys[0])
      case None => None
      case Some(Equal) => CompareItems(xs[1..], ys[1..])
      case Some(c) => Some(c)
  }

  /** The values whose order the model computes. */
  predicate Comparable(v: Value)
  {
    match v
    case Float(_) => false
    case Set(_) => false
    case Map(_) => false
    case Var(_) => false
    case AFn(_) => false
    case Handle(_) => false
    case List(xs) => forall i | 0 <= i < |xs| :: Comparable(xs[i])
    case Vector(xs) => forall i | 0 <= i < |xs| :: Comparable(xs[i])
    case _ => true
  }

  /** Different variants answer `Less` both ways, so the order is not antisymmetric across variants. */
  lemma CrossVariantIsLessBothWays(a: Value, b: Value)
    requires Tag(a) != Tag(b)
    ensures Compare(a, b) == Some(Less) && Compare(b, a) == Some(Less)
  {
  }

  /** Two handles compare `Equal` while no handle is equal to any value: `Ord` and `PartialEq` disagree. */
  lemma HandlesCompareEqual(g: object, h: object)
    ensures Compare(Handle(g), Handle(h)) == Some(Equal)
    ensures !ValueEq(Handle(g), Handle(h))
  {
  }

  /**
   * On the values it covers, the order answers `Equal` exactly on equal
   * values, and a `Greater` turns into `Less` when the operands are swapped.
   * (A `Less` need not turn into `Greater`: see `CrossVariantIsLessBothWays`.)
   */
  lemma {:induction false} CompareIsConsistent(a: Value, b: Value)
    requires Comparable(a) && Comparable(b)
    ensures Compare(a, b).Some?
    ensures Compare(a, b) == Some(Equal) <==> a == b
    ensures Compare(a, b) == Some(Greater) ==> Compare(b, a) == Some(Less)
  {
    match (a, b)
    case (String(x), String(y)) => CompareStringsFlip(x, y);
    case (Symbol(x), Symbol(y)) => Symbols.CompareIsConsistent(x, y);
    case (Keyword(x), Keyword(y)) => Keywords.CompareIsConsistent(x, y);
    case (List(x), List(y)) => CompareItemsIsConsistent(x, y);
    case (Vector(x), Vector(y)) => CompareItemsIsConsistent(x, y);
    case _ =>
  }

  lemma {:induction false} CompareItemsIsConsistent(xs: seq<Value>, ys: seq<Value>)
    requires forall i | 0 <= i < |xs| :: Comparable(xs[i])
    requires forall i | 0 <= i < |ys| :: Comparable(ys[i])
    ensures CompareItems(xs, ys).Some?
    ensures CompareItems(xs, ys) == Some(Equal) <==> xs == ys
    ensures CompareItems(xs, ys) == Some(Greater) ==> CompareItems(ys, xs) == Some(Less)
  {
    if xs != [] && ys != [] {
      CompareIsConsistent(xs[0], ys[0]);
      CompareItemsIsConsistent(xs[1..], ys[1..]);
      assert xs == [xs[0]] + xs[1..];
      assert ys == [ys[0]] + ys[1..];
    }
  }

  // ---------------------------------------------------------------- display

  /** The values whose text `Display` writes without a pointer or a float format. */
  predicate Printable(v: Value)
  {
    match v
    case Float(_) => false
    case Var(_) => false
    case AFn(_) => false
    case Handle(_) => false
    case List(xs) => forall i | 0 <= i < |xs| :: Printable(xs[i])
    case Vector(xs) => forall i | 0 <= i < |xs| :: Printable(xs[i])
    case Set(s) => forall x | x in s :: Printable(x)
    case Map(m) => forall k | k in m :: Printable(k) && Printable(m[k])
    case _ => true
  }

  /** The members of a set, each once, in some order (the tree's ascending order is not modelled). */
  ghost function Enumerate(s: set<Value>): (r: seq<Value>)
    ensures |r| == |s|
    ensures forall i | 0 <= i < |r| :: r[i] in s
    ensures forall x | x in s :: x in r
    ensures forall i, j | 0 <= i < j < |r| :: r[i] != r[j]
  {
    if s == {} then []
    else
      var x :| x in s;
      [x] + Enumerate(s - {x})
  }

  /** `Itertools::join`: the strings with `sep` between neighbours. */
  function Join(parts: seq<string>, sep: string): string
  {
    if parts == [] then ""
    else if |parts| == 1 then parts[0]
    else parts[0] + sep + Join(parts[1..], sep)
  }

  /** Decimal text of an integer, with a leading `-` when negative. */
  function ShowInt(i: int): string
  {
    if i < 0 then "-" + ShowNat(-i) else ShowNat(i)
  }

  function ShowNat(n: nat): string
  {
    if n < 10 then [Digit(n)] else ShowNat(n / 10) + [Digit(n % 10)]
  }

  function Digit(d: nat): char
    requires d < 10
  {
    "0123456789"[d]
  }

  /**
   * `Display`: `nil`, `true`/`false`, decimal integers, strings between
   * double quotes with no escaping, symbols and keywords as their names,
   * `(a b)`, `[a b]`, `#{a b}` and `{k v, k v}`.
   */
  ghost function Show(v: Value): string
    requires Printable(v)
  {
    match v
    case Nil => "nil"
    case Boolean(b) => if b then "true" else "false"
    case Integer(i) => ShowInt(i as int)
    case String(s) => "\"" + s + "\""
    case Symbol(s) => Symbols.Show(s)
    case Keyword(k) => Keywords.Show(k)
    case List(xs) => "(" + ShowItems(xs) + ")"
    case Vector(xs) => "[" + ShowItems(xs) + "]"
    case Set(s) =>
      var e := Enumerate(s);
      "#{" + Join(seq(|e|, i requires 0 <= i < |e| => Show(e[i])), " ") + "}"
    case Map(m) =>
      var e := Enumerate(m.Keys);
      "{" + Join(seq(|e|, i requires 0 <= i < |e| => Show(e[i]) + " " + Show(m[e[i]])), ", ") + "}"
  }

  /** The displays of the items of a list or a vector, separated by single spaces. */
  ghost function ShowItems(xs: seq<Value>): string
    requires forall i | 0 <= i < |xs| :: Printable(xs[i])
  {
    if xs == [] then "" else Show(xs[0]) + ShowAfter(xs[1..])
  }

  /** The displays of items that follow an earlier item: each after a space. */
  ghost function ShowAfter(xs: seq<Value>): string
    requires forall i | 0 <= i < |xs| :: Printable(xs[i])
  {
    if xs == [] then "" else " " + Show(xs[0]) + ShowAfter(xs[1..])
  }
}
