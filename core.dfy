/**
 * The library functions of `clojure.core` that only look at their
 * arguments: `first`, `second`, `last`, `rest`, `conj`, `vec`, `vector`,
 * `list`, `keyword`, `symbol`, `name` and `namespace`. Each takes the
 * evaluated argument list and returns a value or panics (`unwrap` of a
 * refused arity, `assert!`, `todo!`, `unimplemented!`).
 *
 * Arities go through the intended `check_arity` (`Arity.CheckArity`); the
 * arity check as written refuses every variadic call, see `Arity`.
 */
module Core {
  import opened Wrappers
  import opened Values
  import Arity
  import Items
  import Lists
  import Vectors
  import Symbols
  import Keywords

  /** The name of the core namespace. */
  const NsName: string := "clojure.core"

  /** Argument lists whose length survives the `as i64` of `check_arity` unchanged. */
  predicate Countable(args: seq<Value>)
  {
    |args| < 0x8000_0000_0000_0000
  }

  /** `check_arity(name, arities, &args).unwrap()` returns. */
  predicate Accepts(arities: set<Value>, args: seq<Value>)
  {
    Arity.CheckArity(arities, |args|) == Done(Ok(()))
  }

  /** Helper: the arity `#{1}` accepts exactly one argument. */
  lemma ExactlyOne(args: seq<Value>)
    ensures Accepts({Integer(1)}, args) ==> |args| >= 1
    ensures Countable(args) ==> (Accepts({Integer(1)}, args) <==> |args| == 1)
  {
    assert Arity.WellFormedArities({Integer(1)});
  }

  predicate IsSequential(v: Value)
  {
    v.List? || v.Vector?
  }

  // ---------------------------------------------------------------- first, second, last, rest

  /** `first`: nil for nil or an empty list or vector, else element 0; other arguments panic. */
  function First(args: seq<Value>): (r: Outcome<Value>)
    ensures r.Done? ==> |args| >= 1 && (args[0].Nil? || IsSequential(args[0]))
    ensures Countable(args) ==> (r.Done? <==> |args| == 1 && (args[0].Nil? || IsSequential(args[0])))
    ensures r.Done? && IsSequential(args[0]) ==> r.value == Items.FirstOrNil(args[0].items)
    ensures r.Done? && args[0].Nil? ==> r.value == Nil
  {
    ExactlyOne(args);
    if !Accepts({Integer(1)}, args) then Panic
    else
      match args[0]
      case Nil => Done(Nil)
      case List(xs) => Done(if xs == [] then Nil else xs[0])
      case Vector(xs) => Done(if xs == [] then Nil else xs[0])
      case _ => Panic
  }

  /**
   * `second` as written: after `assert!` that the argument is a list or a
   * vector, an empty one gives nil and any other takes `nth(1).unwrap()`,
   * which panics on a one-element list or vector.
   */
  function SecondAsWritten(args: seq<Value>): (r: Outcome<Value>)
    ensures r.Done? ==> |args| >= 1 && IsSequential(args[0]) && |args[0].items| != 1
  {
    ExactlyOne(args);
    if !Accepts({Integer(1)}, args) || !IsSequential(args[0]) then Panic
    else
      var xs := args[0].items;
      if xs == [] then Done(Nil)
      else if |xs| == 1 then Panic
      else Done(xs[1])
  }

  /** `second` as its documentation states, `(first (next x))`: element 1, or nil when there is none. */
  function Second(args: seq<Value>): (r: Outcome<Value>)
    ensures r.Done? ==> |args| >= 1 && IsSequential(args[0])
    ensures Countable(args) ==> (r.Done? <==> |args| == 1 && IsSequential(args[0]))
    ensures r.Done? ==> r.value == Items.FirstOrNil(Items.Rest(args[0].items))
    ensures SecondAsWritten(args).Done? ==> r == SecondAsWritten(args)
  {
    ExactlyOne(args);
    if !Accepts({Integer(1)}, args) || !IsSequential(args[0]) then Panic
    else
      var xs := args[0].items;
      if |xs| < 2 then Done(Nil) else Done(xs[1])
  }

  /** `last`: after `assert_eq!(1, args.len())`, the final element of a list or vector, or nil when it is empty. */
  function Last(args: seq<Value>): (r: Outcome<Value>)
    ensures r.Done? <==> |args| == 1 && IsSequential(args[0])
    ensures r.Done? ==> r.value == match Items.Last(args[0].items) case Some(x) => x case None => Nil
  {
    if |args| != 1 || !IsSequential(args[0]) then Panic
    else
      var xs := args[0].items;
      if xs == [] then Done(Nil) else Done(xs[|xs| - 1])
  }

  /** `rest`: the elements after the first of a list or vector, always as a list; `()` when it is empty. */
  function Rest(args: seq<Value>): (r: Outcome<Value>)
    ensures r.Done? <==> |args| == 1 && IsSequential(args[0])
    ensures r.Done? ==> r.value.List?
    ensures r.Done? ==> (args[0].items == [] ==> r.value.items == [])
    ensures r.Done? ==> (args[0].items != [] ==> args[0].items == [args[0].items[0]] + r.value.items)
  {
    if |args| != 1 || !IsSequential(args[0]) then Panic
    else
      var xs := args[0].items;
      if xs == [] then Done(List([])) else Done(List(xs[1..]))
  }

  // ---------------------------------------------------------------- conj, vec, vector, list

  const ConjArities: set<Value> := {Integer(0), Integer(1), Vector([Integer(2)])}

  /** Helper: the arity `#{0 1 [2]}` accepts any number of arguments. */
  lemma ConjTakesAnyCount(args: seq<Value>)
    ensures Countable(args) ==> Accepts(ConjArities, args)
  {
    if Countable(args) {
      Arity.ConjAritiesAsWrittenAndIntended(|args|);
    }
  }

  /**
   * `conj`: `[]` with no arguments, the argument itself with one; otherwise
   * the second argument is pushed at the front of a list or at the back of
   * a vector. Arguments after the second are ignored.
   */
  function Conj(args: seq<Value>): (r: Outcome<Value>)
    ensures Countable(args) ==> (r.Done? <==> |args| <= 1 || IsSequential(args[0]))
    ensures r.Done? && |args| == 0 ==> r.value == Vector([])
    ensures r.Done? && |args| == 1 ==> r.value == args[0]
    ensures r.Done? && |args| >= 2 && args[0].List? ==> r.value == List(Lists.PushFront(args[0].items, args[1]))
    ensures r.Done? && |args| >= 2 && args[0].Vector? ==> r.value == Vector(Vectors.PushBack(args[0].items, args[1]))
  {
    ConjTakesAnyCount(args);
    if !Accepts(ConjArities, args) then Panic
    else if |args| == 0 then Done(Vector([]))
    else if |args| == 1 then Done(args[0])
    else
      match args[0]
      case List(xs) => Done(List([args[1]] + xs))
      case Vector(xs) => Done(Vector(xs + [args[1]]))
      case _ => Panic
  }

  /** `vec`: a vector is returned as it is, a list becomes the vector of its elements in order. */
  function Vec(args: seq<Value>): (r: Outcome<Value>)
    ensures r.Done? ==> |args| >= 1 && IsSequential(args[0])
    ensures Countable(args) ==> (r.Done? <==> |args| == 1 && IsSequential(args[0]))
    ensures r.Done? ==> r.value == Vector(args[0].items)
  {
    ExactlyOne(args);
    if !Accepts({Integer(1)}, args) then Panic
    else
      match args[0]
      case Vector(_) => Done(args[0])
      case List(xs) => Done(Vector(xs))
      case _ => Panic
  }

  const VectorArities: set<Value> := {Vector([Integer(0)])}

  /** `vector`: the arguments, in order, as a vector (the arity `#{[0]}` takes any number). */
  function VectorOf(args: seq<Value>): (r: Outcome<Value>)
    ensures Countable(args) ==> r == Done(Vector(args))
    ensures r.Done? ==> r.value == Vector(args)
  {
    assert Arity.WellFormedArities(VectorArities) by {
      assert forall a | a in VectorArities :: a == Vector([Integer(0)]);
    }
    assert Vector([Integer(0)]) in VectorArities;
    if !Accepts(VectorArities, args) then Panic else Done(Vector(args))
  }

  /** `list`: the arguments, in order, as a list; there is no arity check. */
  function ListOf(args: seq<Value>): (r: Value)
    ensures r.List? && r.items == args
  {
    List(args)
  }

  // ---------------------------------------------------------------- keyword, symbol, name, namespace

  const NameArities: set<Value> := {Integer(1), Integer(2)}

  /** Helper: the arity `#{1 2}` accepts one or two arguments. */
  lemma OneOrTwo(args: seq<Value>)
    ensures Accepts(NameArities, args) ==> |args| >= 1
    ensures Countable(args) ==> (Accepts(NameArities, args) <==> 1 <= |args| <= 2)
  {
    assert Arity.WellFormedArities(NameArities);
  }

  /** The name that a lone argument of `keyword` or `symbol` stands for: a string, or the name of any keyword or symbol. */
  function WholeName(v: Value): Option<string>
  {
    match v
    case String(s) => Some(s)
    case Keyword(k) => Some(Keywords.Name(k))
    case Symbol(s) => Some(Symbols.Name(s))
    case _ => None
  }

  /** The text a part of a two-argument `keyword` or `symbol` stands for: a string, or an unqualified keyword or symbol. */
  function PartName(v: Value): Option<string>
  {
    match v
    case String(s) => Some(s)
    case Keyword(Unqualified(k)) => Some(k.name)
    case Symbol(Unqualified(s)) => Some(s.name)
    case _ => None
  }

  /**
   * `keyword`: one argument names an unqualified keyword (a namespace on a
   * keyword or symbol argument is dropped); two name the namespace and the
   * name of a qualified one. Anything else panics.
   */
  function KeywordOf(args: seq<Value>): (r: Outcome<Value>)
    ensures Countable(args) ==> (r.Done? <==>
      (|args| == 1 && WholeName(args[0]).Some?) ||
      (|args| == 2 && PartName(args[0]).Some? && PartName(args[1]).Some?))
    ensures r.Done? && |args| == 1 ==>
      r.value == Keyword(Keywords.Unqualified(Keywords.UnqualifiedKeyword(WholeName(args[0]).value)))
    ensures r.Done? && |args| == 2 ==>
      r.value == Keyword(Keywords.Qualified(Keywords.QualifiedKeyword(PartName(args[0]).value, PartName(args[1]).value)))
  {
    OneOrTwo(args);
    if !Accepts(NameArities, args) then Panic
    else if |args| == 1 then
      match WholeName(args[0])
      case Some(n) => Done(Keyword(Keywords.Unqualified(Keywords.UnqualifiedKeyword(n))))
      case None => Panic
    else
      match (PartName(args[0]), PartName(args[1]))
      case (Some(ns), Some(n)) => Done(Keyword(Keywords.Qualified(Keywords.QualifiedKeyword(ns, n))))
      case _ => Panic
  }

  /** `symbol`: the same dispatch as `keyword`, building symbols. */
  function SymbolOf(args: seq<Value>): (r: Outcome<Value>)
    ensures Countable(args) ==> (r.Done? <==>
      (|args| == 1 && WholeName(args[0]).Some?) ||
      (|args| == 2 && PartName(args[0]).Some? && PartName(args[1]).Some?))
    ensures r.Done? && |args| == 1 ==>
      r.value == Symbol(Symbols.Unqualified(Symbols.UnqualifiedSymbol(WholeName(args[0]).value)))
    ensures r.Done? && |args| == 2 ==>
      r.value == Symbol(Symbols.Qualified(Symbols.QualifiedSymbol(PartName(args[0]).value, PartName(args[1]).value)))
  {
    OneOrTwo(args);
    if !Accepts(NameArities, args) then Panic
    else if |args| == 1 then
      match WholeName(args[0])
      case Some(n) => Done(Symbol(Symbols.Unqualified(Symbols.UnqualifiedSymbol(n))))
      case None => Panic
    else
      match (PartName(args[0]), PartName(args[1]))
      case (Some(ns), Some(n)) => Done(Symbol(Symbols.Qualified(Symbols.QualifiedSymbol(ns, n))))
      case _ => Panic
  }

  /** `name`: the name of a string, symbol or keyword as a string; nil for anything else. */
  function NameOf(args: seq<Value>): (r: Outcome<Value>)
    ensures Countable(args) ==> (r.Done? <==> |args| == 1)
    ensures r.Done? ==> (r.value.String? <==> WholeName(args[0]).Some?)
    ensures r.Done? && WholeName(args[0]).Some? ==> r.value.text == WholeName(args[0]).value
    ensures r.Done? && WholeName(args[0]).None? ==> r.value == Nil
  {
    ExactlyOne(args);
    if !Accepts({Integer(1)}, args) then Panic
    else
      match WholeName(args[0])
      case Some(n) => Done(String(n))
      case None => Done(Nil)
  }

  /** The namespace of a qualified symbol or keyword. */
  function QualifierOf(v: Value): Option<string>
  {
    match v
    case Symbol(Qualified(q)) => Some(q.namespace)
    case Keyword(Qualified(q)) => Some(q.namespace)
    case _ => None
  }

  /** `namespace`: the namespace of a qualified symbol or keyword as a string; nil for anything else. */
  function NamespaceOf(args: seq<Value>): (r: Outcome<Value>)
    ensures Countable(args) ==> (r.Done? <==> |args| == 1)
    ensures r.Done? ==> (r.value.String? <==> QualifierOf(args[0]).Some?)
    ensures r.Done? && QualifierOf(args[0]).Some? ==> r.value.text == QualifierOf(args[0]).value
    ensures r.Done? && QualifierOf(args[0]).None? ==> r.value == Nil
  {
    ExactlyOne(args);
    if !Accepts({Integer(1)}, args) then Panic
    else
      match QualifierOf(args[0])
      case Some(ns) => Done(String(ns))
      case None => Done(Nil)
  }

  // ---------------------------------------------------------------- dispatch

  /** The library functions that only look at their arguments (`prn` also prints, which is not modelled). */
  predicate Pure(b: Builtin)
  {
    b in {FirstFn, SecondFn, LastFn, RestFn, ConjFn, VecFn, VectorFn, ListFn, KeywordFn, SymbolFn, NameFn, NamespaceFn, PrnFn}
  }

  /** The arities a library function passes to `check_arity`, or `None` when it calls none. */
  function Arities(b: Builtin): Option<set<Value>>
  {
    match b
    case FirstFn => Some({Integer(1)})
    case SecondFn => Some({Integer(1)})
    case ConjFn => Some(ConjArities)
    case VecFn => Some({Integer(1)})
    case VectorFn => Some(VectorArities)
    case KeywordFn => Some(NameArities)
    case SymbolFn => Some(NameArities)
    case NameFn => Some({Integer(1)})
    case NamespaceFn => Some({Integer(1)})
    case _ => None
  }

  /**
   * `AFn::apply` of a pure library function: the function of this module it
   * stands for. A count its arity refuses panics; `list` and `prn`, which
   * check no arity, always return; `last` and `rest` return only for one
   * argument.
   */
  function Call(b: Builtin, args: seq<Value>): (r: Outcome<Value>)
    requires Pure(b)
    ensures Arities(b).Some? && !Accepts(Arities(b).value, args) ==> r == Panic
    ensures b == ListFn || b == PrnFn ==> r.Done?
    ensures (b == LastFn || b == RestFn) && r.Done? ==> |args| == 1
  {
    match b
    case FirstFn => First(args)
    case SecondFn => Second(args)
    case LastFn => Last(args)
    case RestFn => Rest(args)
    case ConjFn => Conj(args)
    case VecFn => Vec(args)
    case VectorFn => VectorOf(args)
    case ListFn => Done(ListOf(args))
    case KeywordFn => KeywordOf(args)
    case SymbolFn => SymbolOf(args)
    case NameFn => NameOf(args)
    case NamespaceFn => NamespaceOf(args)
    case PrnFn => Done(Nil)
  }

  // ---------------------------------------------------------------- properties

  /** `second` as written panics on a one-element collection, where `(first (next x))` is nil. */
  lemma SecondOfOneElement(x: Value)
    ensures SecondAsWritten([List([x])]) == Panic && SecondAsWritten([Vector([x])]) == Panic
    ensures Second([List([x])]) == Done(Nil) && Second([Vector([x])]) == Done(Nil)
  {
    ExactlyOne([List([x])]);
    ExactlyOne([Vector([x])]);
  }

  /** `second` is `first` of `rest`. */
  lemma SecondIsFirstOfRest(c: Value)
    requires IsSequential(c)
    ensures Rest([c]).Done?
    ensures Second([c]) == First([Rest([c]).value])
  {
    ExactlyOne([c]);
    ExactlyOne([Rest([c]).value]);
  }

  /** `conj` onto a list puts the value first and keeps the list as its rest; onto a vector it puts the value last. */
  lemma ConjThenLook(c: Value, x: Value)
    requires IsSequential(c)
    ensures Conj([c, x]).Done?
    ensures c.List? ==> First([Conj([c, x]).value]) == Done(x) && Rest([Conj([c, x]).value]) == Done(c)
    ensures c.Vector? ==> Last([Conj([c, x]).value]) == Done(x) && Vec([Conj([c, x]).value]) == Conj([c, x])
  {
    var r := Conj([c, x]).value;
    ExactlyOne([r]);
    if c.List? {
      assert r.items[1..] == c.items;
    }
  }

  /** `first` and `rest` of a non-empty list, put back together with `conj`, give the list again. */
  lemma FirstRestConj(xs: seq<Value>)
    requires xs != []
    ensures First([List(xs)]).Done? && Rest([List(xs)]).Done?
    ensures Conj([Rest([List(xs)]).value, First([List(xs)]).value]) == Done(List(xs))
  {
    ExactlyOne([List(xs)]);
    assert [xs[0]] + xs[1..] == xs;
  }

  /** Arguments after the second play no part in `conj`. */
  lemma ConjIgnoresTheRest(c: Value, x: Value, more: seq<Value>)
    requires Countable([c, x] + more)
    ensures Conj([c, x] + more) == Conj([c, x])
  {
    assert ([c, x] + more)[0] == c && ([c, x] + more)[1] == x;
  }

  /** `(vec (list xs...))` and `(vector xs...)` are the same vector, and `vec` changes nothing on a vector. */
  lemma VecOfList(xs: seq<Value>)
    requires Countable(xs)
    ensures Vec([ListOf(xs)]) == VectorOf(xs) == Done(Vector(xs))
    ensures Vec([Vec([ListOf(xs)]).value]) == Vec([ListOf(xs)])
  {
    ExactlyOne([ListOf(xs)]);
    ExactlyOne([Vector(xs)]);
  }

  /** `name` and `namespace` take apart what two-argument `keyword` and `symbol` put together. */
  lemma NameAndNamespaceRoundTrip(ns: string, n: string)
    ensures KeywordOf([String(ns), String(n)]).Done? && SymbolOf([String(ns), String(n)]).Done?
    ensures NameOf([KeywordOf([String(ns), String(n)]).value]) == Done(String(n))
    ensures NamespaceOf([KeywordOf([String(ns), String(n)]).value]) == Done(String(ns))
    ensures NameOf([SymbolOf([String(ns), String(n)]).value]) == Done(String(n))
    ensures NamespaceOf([SymbolOf([String(ns), String(n)]).value]) == Done(String(ns))
  {
    OneOrTwo([String(ns), String(n)]);
    var k := KeywordOf([String(ns), String(n)]).value;
    var s := SymbolOf([String(ns), String(n)]).value;
    ExactlyOne([k]);
    ExactlyOne([s]);
  }

  /**
   * A qualified keyword or symbol is rebuilt from its `namespace` and its
   * `name`, while the one-argument form keeps only the name: `(keyword :a/b)`
   * is `:b`.
   */
  lemma QualifiedRebuilt(q: Keywords.QualifiedKeyword, s: Symbols.QualifiedSymbol)
    ensures NamespaceOf([Keyword(Keywords.Qualified(q))]).Done? && NameOf([Keyword(Keywords.Qualified(q))]).Done?
    ensures KeywordOf([NamespaceOf([Keyword(Keywords.Qualified(q))]).value, NameOf([Keyword(Keywords.Qualified(q))]).value]) ==
      Done(Keyword(Keywords.Qualified(q)))
    ensures KeywordOf([Keyword(Keywords.Qualified(q))]) == Done(Keyword(Keywords.Unqualified(Keywords.UnqualifiedKeyword(q.name))))
    ensures NamespaceOf([Symbol(Symbols.Qualified(s))]).Done? && NameOf([Symbol(Symbols.Qualified(s))]).Done?
    ensures SymbolOf([NamespaceOf([Symbol(Symbols.Qualified(s))]).value, NameOf([Symbol(Symbols.Qualified(s))]).value]) ==
      Done(Symbol(Symbols.Qualified(s)))
    ensures SymbolOf([Symbol(Symbols.Qualified(s))]) == Done(Symbol(Symbols.Unqualified(Symbols.UnqualifiedSymbol(s.name))))
  {
    ExactlyOne([Keyword(Keywords.Qualified(q))]);
    ExactlyOne([Symbol(Symbols.Qualified(s))]);
    OneOrTwo([String(q.namespace), String(q.name)]);
    OneOrTwo([String(s.namespace), String(s.name)]);
    OneOrTwo([Keyword(Keywords.Qualified(q))]);
    OneOrTwo([Symbol(Symbols.Qualified(s))]);
  }

  /** `keyword` and `symbol` turn into each other by their names. */
  lemma KeywordSymbolNames(ns: string, n: string)
    ensures KeywordOf([SymbolOf([String(ns), String(n)]).value]) == KeywordOf([String(n)])
    ensures SymbolOf([KeywordOf([String(ns), String(n)]).value]) == SymbolOf([String(n)])
  {
    OneOrTwo([String(ns), String(n)]);
    OneOrTwo([String(n)]);
    OneOrTwo([SymbolOf([String(ns), String(n)]).value]);
    OneOrTwo([KeywordOf([String(ns), String(n)]).value]);
  }
}
