/**
 * The meaning of evaluation (`eval2`, `eval` and `apply` of src/rt.rs) as
 * a reference definition over the current state of the environment.
 *
 * `Denote` says what evaluating a form yields as long as evaluating it
 * cannot change the environment: self-evaluating values, symbols and vars
 * looked up in the current state, `comment` and `quote` forms, collections
 * evaluated element by element, and applications of keywords and of the
 * library functions that only look at their arguments. Where evaluation
 * could reach a function that changes the environment, `Denote` is `None`
 * and says nothing; the evaluator's methods say what they do there.
 *
 * Budget: each application uses one unit of `fuel`; with none left the
 * evaluation stops with `OutOfFuel`, standing in for the stack exhaustion
 * of the source, which is not modelled.
 */
module Semantics {
  import opened Wrappers
  import opened Values
  import opened Symbols
  import Keywords
  import opened Namespaces
  import opened Envs
  import Core
  import Maps

  /** `EvalError`: the two lookup failures, and a refused arity (which `eval2` itself never produces). */
  datatype EvalError =
    | NoSuchVar(symbol: Symbol)
    | UnboundVar(symbol: Symbol)
    | InvalidArity(name: string, arity: nat, arities: set<Value>)

  /** Why an evaluation ends without a value. */
  datatype Stop =
      /** A Rust panic: `unwrap`, `expect`, `todo!`, `unimplemented!`, `assert!` or a `RefCell` borrow conflict. */
    | Panicked
      /** The nesting of applications exceeded the budget. */
    | OutOfFuel
      /** A library function this model leaves out (`keys`, `vals`, `map`, `apply`, `ns-map`, `ns-publics`, `slurp`) was called. */
    | LeftOut

  datatype Run<T> = Ran(value: T) | Stopped(why: Stop)

  /** A library function's outcome as a step of evaluation. */
  function Lift(o: Outcome<Value>): Run<Value>
  {
    match o
    case Done(x) => Ran(x)
    case Panic => Stopped(Panicked)
  }

  /** `eval` on top of `eval2`: each of the three `EvalError`s becomes nil. */
  function OrNil(r: Run<Result<Value, EvalError>>): (s: Run<Value>)
    ensures r.Ran? <==> s.Ran?
    ensures r.Ran? && r.value.Ok? ==> s.value == r.value.value
    ensures r.Ran? && r.value.Err? ==> s.value == Nil
    ensures r.Stopped? ==> s == Stopped(r.why)
  {
    match r
    case Ran(Ok(x)) => Ran(x)
    case Ran(Err(_)) => Ran(Nil)
    case Stopped(w) => Stopped(w)
  }

  // ---------------------------------------------------------------- special forms

  /** A non-empty list whose first element is the unqualified symbol `name`. */
  predicate HeadedBy(v: Value, name: string)
  {
    v.List? && v.items != [] && v.items[0] == Symbol(Unqualified(UnqualifiedSymbol(name)))
  }

  /** `is_comment`. */
  predicate IsComment(v: Value)
  {
    HeadedBy(v, "comment")
  }

  /** `is_quote`. */
  predicate IsQuote(v: Value)
  {
    HeadedBy(v, "quote")
  }

  // ---------------------------------------------------------------- the current namespace and lookup

  const NsVarName: string := "*ns*"

  /** The contents of the var `*ns*` of `clojure.core`, when that var exists and is bound. */
  function NsPlace(env: Env): (r: Option<Value>)
    requires env.Valid()
    reads env, env.Repr
    ensures env.Resolve(Core.NsName, NsVarName).None? ==> r == None
    ensures env.Resolve(Core.NsName, NsVarName).Some? ==> r == env.Resolve(Core.NsName, NsVarName).value.place
  {
    env.ResolvedVarsBelong(Core.NsName, NsVarName);
    match env.Resolve(Core.NsName, NsVarName)
    case None => None
    case Some(x) => x.place
  }

  /**
   * `current_ns`: the namespace a handle held by the var `*ns*` of `clojure.core` points
   * at. A missing or unbound var, or anything other than a namespace handle
   * in it, panics.
   */
  function CurrentNs(env: Env): (r: Outcome<Namespace>)
    requires env.Valid()
    reads env, env.Repr
    ensures r.Done? <==> NsPlace(env).Some? && NsPlace(env).value.Handle? && NsPlace(env).value.handle is Namespace
    ensures r.Done? ==> NsPlace(env) == Some(Handle(r.value))
  {
    match NsPlace(env)
    case Some(Handle(h)) => if h is Namespace then Done(h as Namespace) else Panic
    case _ => Panic
  }

  /** The name a symbol is looked up by: an unqualified symbol is qualified by the name of the current namespace. */
  function Qualify(env: Env, s: Symbol): (r: Outcome<QualifiedSymbol>)
    requires env.Valid()
    reads env, env.Repr
    ensures s.Qualified? ==> r == Done(s.qualified)
    ensures s.Unqualified? ==> (r.Done? <==> CurrentNs(env).Done?)
    ensures s.Unqualified? && r.Done? ==> r.value == QualifiedSymbol(CurrentNs(env).value.name.name, s.unqualified.name)
  {
    match s
    case Qualified(q) => Done(q)
    case Unqualified(u) =>
      match CurrentNs(env)
      case Done(ns) => Done(QualifiedSymbol(ns.name.name, u.name))
      case Panic => Panic
  }

  /**
   * `eval2` of a symbol: the value of the var it resolves to; `NoSuchVar`
   * when nothing resolves and `UnboundVar` when the var is unbound, both
   * naming the qualified symbol; a panic when an unqualified symbol meets a
   * missing current namespace.
   */
  function Lookup(env: Env, s: Symbol): (r: Outcome<Result<Value, EvalError>>)
    requires env.Valid()
    reads env, env.Repr
    ensures r.Panic? <==> Qualify(env, s).Panic?
    ensures r.Done? ==>
      var q := Qualify(env, s).value;
      var found := env.Resolve(q.namespace, q.name);
      (r.value == Err(NoSuchVar(Qualified(q))) <==> found.None?) &&
      (r.value == Err(UnboundVar(Qualified(q))) <==> found.Some? && found.value.place.None?) &&
      (r.value.Ok? <==> found.Some? && found.value.place.Some?) &&
      (r.value.Ok? ==> found.value.place == Some(r.value.value))
  {
    match Qualify(env, s)
    case Panic => Panic
    case Done(q) =>
      env.ResolvedVarsBelong(q.namespace, q.name);
      match env.Resolve(q.namespace, q.name)
      case None => Done(Err(NoSuchVar(Qualified(q))))
      case Some(x) =>
        match x.place
        case None => Done(Err(UnboundVar(Qualified(q))))
        case Some(y) => Done(Ok(y))
  }

  // ---------------------------------------------------------------- apply

  /**
   * `apply` where it cannot change the environment. A keyword looks itself
   * up in the first argument, which must be a map, with the second argument
   * (or nil) for a missing key; a pure library function computes its value;
   * nil, booleans, numbers, strings, collections, vars and handles cannot be
   * applied. A symbol, or a library function that may change the
   * environment, gives `None`.
   */
  function ApplySpec(f: Value, args: seq<Value>): (r: Option<Run<Value>>)
    ensures f.Keyword? ==> r.Some? && (r.value.Ran? <==> args != [] && args[0].Map?)
    ensures f.Keyword? && r.value.Ran? ==>
      r.value.value == (if |args| >= 2 then Maps.GetOr(args[0].entries, f, args[1]) else Maps.GetOrNil(args[0].entries, f))
    ensures r.None? <==> f.Symbol? || (f.AFn? && !Core.Pure(f.afn.builtin))
    ensures !(f.Keyword? || f.Symbol? || f.AFn?) ==> r == Some(Stopped(Panicked))
  {
    match f
    case Keyword(_) =>
      if args == [] || !args[0].Map? then Some(Stopped(Panicked))
      else if |args| >= 2 then Some(Ran(Maps.GetOr(args[0].entries, f, args[1])))
      else Some(Ran(Maps.GetOrNil(args[0].entries, f)))
    case AFn(c) => if Core.Pure(c.builtin) then Some(Lift(Core.Call(c.builtin, args))) else None
    case Symbol(_) => None
    case _ => Some(Stopped(Panicked))
  }

  // ---------------------------------------------------------------- eval2 and eval

  /**
   * What `eval2` yields on `v` in the current state, when evaluating `v`
   * cannot change the environment; `None` otherwise.
   */
  ghost function Denote(env: Env, v: Value, fuel: nat): (r: Option<Run<Result<Value, EvalError>>>)
    requires env.Valid()
    reads env, env.Repr
    decreases v, 3
    ensures r.Some? && r.value.Ran? && r.value.value.Err? ==> v.Symbol?
    ensures r.Some? && r.value.Ran? && v.Vector? ==>
      r.value.value.Ok? && r.value.value.value.Vector? && |r.value.value.value.items| == |v.items|
    ensures r.Some? && r.value.Ran? && v.Set? ==> r.value.value.Ok? && r.value.value.value.Set?
    ensures r.Some? && r.value.Ran? && v.Map? ==>
      r.value.value.Ok? && r.value.value.value.Map? && r.value.value.value.entries.Keys == v.entries.Keys
  {
    match v
    case Symbol(s) =>
      Some(match Lookup(env, s) case Done(x) => Ran(x) case Panic => Stopped(Panicked))
    case Var(x) =>
      if x in env.Repr then Some(Ran(Ok(if x.place.Some? then x.place.value else v))) else None
    case Vector(xs) =>
      (match DenoteItems(env, v, 0, |xs|, fuel)
      case None => None
      case Some(Ran(ys)) => Some(Ran(Ok(Vector(ys))))
      case Some(Stopped(w)) => Some(Stopped(w)))
    case Set(_) =>
      (match DenoteSet(env, v, fuel)
      case None => None
      case Some(Ran(ys)) => Some(Ran(Ok(Set(ys))))
      case Some(Stopped(w)) => Some(Stopped(w)))
    case Map(_) =>
      (match DenoteMap(env, v, fuel)
      case None => None
      case Some(Ran(m)) => Some(Ran(Ok(Map(m))))
      case Some(Stopped(w)) => Some(Stopped(w)))
    case List(xs) =>
      if xs == [] then Some(Ran(Ok(List([]))))
      else if IsComment(v) then Some(Ran(Ok(Nil)))
      else if IsQuote(v) then Some(if |xs| >= 2 then Ran(Ok(xs[1])) else Stopped(Panicked))
      else if fuel == 0 then Some(Stopped(OutOfFuel))
      else DenoteApplication(env, v, fuel)
    case _ => Some(Ran(Ok(v)))
  }

  /** An ordinary non-empty list: the arguments left to right, then the head, then `apply`. */
  ghost function DenoteApplication(env: Env, v: Value, fuel: nat): (r: Option<Run<Result<Value, EvalError>>>)
    requires env.Valid() && v.List? && v.items != []
    reads env, env.Repr
    decreases v, 2
    ensures r.Some? && r.value.Ran? ==> r.value.value.Ok?
  {
    match DenoteItems(env, v, 1, |v.items|, fuel)
    case None => None
    case Some(Stopped(w)) => Some(Stopped(w))
    case Some(Ran(args)) =>
      match DenoteNil(env, v.items[0], fuel)
      case None => None
      case Some(Stopped(w)) => Some(Stopped(w))
      case Some(Ran(f)) =>
        match ApplySpec(f, args)
        case None => None
        case Some(Ran(y)) => Some(Ran(Ok(y)))
        case Some(Stopped(w)) => Some(Stopped(w))
  }

  /** What `eval` yields: `Denote` with every `EvalError` turned into nil. */
  ghost function DenoteNil(env: Env, v: Value, fuel: nat): (r: Option<Run<Value>>)
    requires env.Valid()
    reads env, env.Repr
    decreases v, 4
    ensures r.Some? <==> Denote(env, v, fuel).Some?
    ensures r.Some? ==> r.value == OrNil(Denote(env, v, fuel).value)
  {
    match Denote(env, v, fuel)
    case None => None
    case Some(x) => Some(OrNil(x))
  }

  /** What each of the first `n` items of a list or vector evaluates to. */
  ghost function ItemOutcomes(env: Env, v: Value, n: nat, fuel: nat): (r: seq<Option<Run<Value>>>)
    requires env.Valid() && (v.List? || v.Vector?) && n <= |v.items|
    reads env, env.Repr
    decreases v, 0, n
    ensures |r| == n
    ensures forall j | 0 <= j < n :: r[j] == DenoteNil(env, v.items[j], fuel)
  {
    if n == 0 then [] else ItemOutcomes(env, v, n - 1, fuel) + [DenoteNil(env, v.items[n - 1], fuel)]
  }

  /** The items `lo` to `hi` of a list or vector, each through `eval`, left to right; the first one that stops decides. */
  ghost function DenoteItems(env: Env, v: Value, lo: nat, hi: nat, fuel: nat): (r: Option<Run<seq<Value>>>)
    requires env.Valid() && (v.List? || v.Vector?) && lo <= hi <= |v.items|
    reads env, env.Repr
    decreases v, 1
    ensures r.Some? && r.value.Ran? ==> |r.value.value| == hi - lo
  {
    RunItems(ItemOutcomes(env, v, |v.items|, fuel), lo, hi)
  }

  /** What each member of a set evaluates to. */
  ghost function MemberOutcomes(env: Env, v: Value, fuel: nat): (r: map<Value, Option<Run<Value>>>)
    requires env.Valid() && v.Set?
    reads env, env.Repr
    decreases v, 0
    ensures r.Keys == v.members
  {
    map x | x in v.members :: DenoteNil(env, x, fuel)
  }

  /** What each key of a map evaluates to. */
  ghost function KeyOutcomes(env: Env, v: Value, fuel: nat): (r: map<Value, Option<Run<Value>>>)
    requires env.Valid() && v.Map?
    reads env, env.Repr
    decreases v, 0
    ensures r.Keys == v.entries.Keys
  {
    map k | k in v.entries :: DenoteNil(env, k, fuel)
  }

  /** What the value of each entry of a map evaluates to, by key. */
  ghost function ValueOutcomes(env: Env, v: Value, fuel: nat): (r: map<Value, Option<Run<Value>>>)
    requires env.Valid() && v.Map?
    reads env, env.Repr
    decreases v, 0
    ensures r.Keys == v.entries.Keys
  {
    map k | k in v.entries :: DenoteNil(env, v.entries[k], fuel)
  }

  /**
   * The members of a set, each through `eval`. Members that stop for
   * different reasons stop the set for the one met first in the order of
   * iteration, which this model does not fix; the definition is `None` then.
   */
  ghost function DenoteSet(env: Env, v: Value, fuel: nat): (r: Option<Run<set<Value>>>)
    requires env.Valid() && v.Set?
    reads env, env.Repr
    decreases v, 1
    ensures r.Some? && r.value.Stopped? ==> exists x | x in v.members :: DenoteNil(env, x, fuel) == Some(Stopped(r.value.why))
    ensures r.Some? && r.value.Ran? ==> (r.value.value == {} <==> v.members == {})
  {
    var outcome := MemberOutcomes(env, v, fuel);
    match RunAll(v.members, outcome)
    case None => None
    case Some(Stopped(w)) =>
      assert w in Stops(v.members, outcome);
      Some(Stopped(w))
    case Some(Ran(_)) =>
      assert v.members != {} ==> exists x | x in v.members :: outcome[x].value.value in RanSet(v.members, outcome);
      Some(Ran(RanSet(v.members, outcome)))
  }

  /**
   * The entries of a map, each key and then its value through `eval`. This
   * definition covers maps whose keys evaluate to themselves, so that no
   * two evaluated keys collide; for other maps it is `None`.
   */
  ghost function DenoteMap(env: Env, v: Value, fuel: nat): (r: Option<Run<map<Value, Value>>>)
    requires env.Valid() && v.Map?
    reads env, env.Repr
    decreases v, 1
    ensures r.Some? && r.value.Ran? ==> r.value.value.Keys == v.entries.Keys
  {
    var outcome := ValueOutcomes(env, v, fuel);
    if !KeysStay(v.entries.Keys, KeyOutcomes(env, v, fuel)) then None
    else
      match RunAll(v.entries.Keys, outcome)
      case None => None
      case Some(Stopped(w)) => Some(Stopped(w))
      case Some(Ran(_)) => Some(Ran(RanValues(v.entries.Keys, outcome)))
  }

  // ---------------------------------------------------------------- items evaluated left to right

  /** The outcomes `lo` to `hi`, taken left to right until one stops or is undetermined. */
  function RunItems(outcome: seq<Option<Run<Value>>>, lo: nat, hi: nat): (r: Option<Run<seq<Value>>>)
    requires lo <= hi <= |outcome|
    decreases hi
    ensures r.Some? && r.value.Ran? ==> |r.value.value| == hi - lo
  {
    if hi == lo then Some(Ran([]))
    else
      match RunItems(outcome, lo, hi - 1)
      case None => None
      case Some(Stopped(w)) => Some(Stopped(w))
      case Some(Ran(ys)) =>
        match outcome[hi - 1]
        case None => None
        case Some(Stopped(w)) => Some(Stopped(w))
        case Some(Ran(y)) => Some(Ran(ys + [y]))
  }

  /** When the run to `hi` is determined, so is every shorter run from `lo`, and one that stops decides. */
  lemma {:induction false} RunItemsPrefix(outcome: seq<Option<Run<Value>>>, lo: nat, i: nat, hi: nat)
    requires lo <= i <= hi <= |outcome| && RunItems(outcome, lo, hi).Some?
    ensures RunItems(outcome, lo, i).Some?
    ensures RunItems(outcome, lo, i).value.Stopped? ==> RunItems(outcome, lo, hi) == RunItems(outcome, lo, i)
    decreases hi - i
  {
    if i < hi {
      RunItemsPrefix(outcome, lo, i, hi - 1);
    }
  }

  /** A run that has evaluated up to `i` goes on with the outcome at `i`. */
  lemma RunItemsNext(outcome: seq<Option<Run<Value>>>, lo: nat, i: nat, ys: seq<Value>)
    requires lo <= i < |outcome| && RunItems(outcome, lo, i) == Some(Ran(ys))
    ensures outcome[i].Some? && outcome[i].value.Ran? ==> RunItems(outcome, lo, i + 1) == Some(Ran(ys + [outcome[i].value.value]))
    ensures outcome[i].Some? && outcome[i].value.Stopped? ==> RunItems(outcome, lo, i + 1) == Some(Stopped(outcome[i].value.why))
  {
  }

  /** `RunItemsPrefix` for every shorter run at once. */
  lemma RunItemsPrefixes(outcome: seq<Option<Run<Value>>>, lo: nat, hi: nat)
    requires lo <= hi <= |outcome| && RunItems(outcome, lo, hi).Some?
    ensures forall i | lo <= i <= hi :: RunItems(outcome, lo, i).Some?
    ensures forall i | lo <= i <= hi && RunItems(outcome, lo, i).value.Stopped? :: RunItems(outcome, lo, hi) == RunItems(outcome, lo, i)
  {
    forall i | lo <= i <= hi
      ensures RunItems(outcome, lo, i).Some?
      ensures RunItems(outcome, lo, i).value.Stopped? ==> RunItems(outcome, lo, hi) == RunItems(outcome, lo, i)
    {
      RunItemsPrefix(outcome, lo, i, hi);
    }
  }

  // ---------------------------------------------------------------- collections evaluated in no fixed order

  /** Every one of `keys` evaluates to itself. */
  predicate KeysStay(keys: set<Value>, keyOutcome: map<Value, Option<Run<Value>>>)
  {
    forall k | k in keys :: k in keyOutcome && keyOutcome[k] == Some(Ran(k))
  }

  /** Every one of `keys` has an outcome, and it evaluated to a value. */
  predicate AllRan(keys: set<Value>, outcome: map<Value, Option<Run<Value>>>)
  {
    forall k | k in keys :: k in outcome && outcome[k].Some? && outcome[k].value.Ran?
  }

  /** The values the members evaluated to. */
  function RanSet(keys: set<Value>, outcome: map<Value, Option<Run<Value>>>): set<Value>
    requires AllRan(keys, outcome)
  {
    set k | k in keys :: outcome[k].value.value
  }

  /** The value each key's entry evaluated to. */
  function RanValues(keys: set<Value>, outcome: map<Value, Option<Run<Value>>>): (m: map<Value, Value>)
    requires AllRan(keys, outcome)
    ensures m.Keys == keys
  {
    map k | k in keys :: outcome[k].value.value
  }

  /** The reasons for which the ones of `keys` that stop stop. */
  function Stops(keys: set<Value>, outcome: map<Value, Option<Run<Value>>>): set<Stop>
  {
    set k | k in keys && k in outcome && outcome[k].Some? && outcome[k].value.Stopped? :: outcome[k].value.why
  }

  /**
   * How evaluating each of `keys` in turn ends, in an order this model does
   * not fix: all of them evaluate, or some stop, all for one reason (the
   * first one met then decides whatever the order); `None` when an outcome is
   * missing or undetermined, or when they stop for different reasons.
   */
  ghost function RunAll(keys: set<Value>, outcome: map<Value, Option<Run<Value>>>): (r: Option<Run<()>>)
    ensures r.Some? ==> forall k | k in keys :: k in outcome && outcome[k].Some?
    ensures r == Some(Ran(())) ==> AllRan(keys, outcome)
  {
    if exists k | k in keys :: k !in outcome || outcome[k].None? then None
    else if AllRan(keys, outcome) then Some(Ran(()))
    else
      var k :| k in keys && outcome[k].value.Stopped?;
      var w := outcome[k].value.why;
      if Stops(keys, outcome) == {w} then Some(Stopped(w)) else None
  }

  /**
   * A determined run, in terms of each outcome: it evaluates exactly when
   * every one evaluates, and otherwise stops for the reason of any one that
   * stops.
   */
  lemma RunAllOutcomes(keys: set<Value>, outcome: map<Value, Option<Run<Value>>>)
    requires RunAll(keys, outcome).Some?
    ensures RunAll(keys, outcome) == Some(Ran(())) <==> AllRan(keys, outcome)
    ensures forall k | k in keys && outcome[k].value.Stopped? :: RunAll(keys, outcome) == Some(Stopped(outcome[k].value.why))
  {
    forall k | k in keys && outcome[k].value.Stopped?
      ensures RunAll(keys, outcome) == Some(Stopped(outcome[k].value.why))
    {
      assert outcome[k].value.why in Stops(keys, outcome);
    }
  }

  /** One more key, evaluated to `y`, joins the values of those evaluated so far. */
  lemma RanSetOne(done: set<Value>, outcome: map<Value, Option<Run<Value>>>, x: Value, y: Value)
    requires AllRan(done, outcome) && x in outcome && outcome[x] == Some(Ran(y))
    ensures AllRan(done + {x}, outcome) && RanSet(done + {x}, outcome) == RanSet(done, outcome) + {y}
  {
  }

  /** One more key, evaluated to `y`, joins the entries evaluated so far. */
  lemma RanValuesOne(done: set<Value>, outcome: map<Value, Option<Run<Value>>>, k: Value, y: Value)
    requires AllRan(done, outcome) && k in outcome && outcome[k] == Some(Ran(y))
    ensures AllRan(done + {k}, outcome) && RanValues(done + {k}, outcome) == RanValues(done, outcome)[k := y]
  {
  }
}
