/**
 * The evaluator (`eval2`, `eval`, `apply`) and the library functions that
 * change the environment (`in-ns`, `create-ns`, `find-ns`, `remove-ns`,
 * `declare`, `eval`), as methods over the mutable environment.
 *
 * Every method keeps the environment valid and only adds objects to its
 * footprint. Where `Semantics` describes an evaluation (it cannot change
 * the environment), the method yields exactly that description and changes
 * nothing; the library functions that do change the environment state
 * their new state outright.
 *
 * `held` is the set of namespaces whose `RefCell` is borrowed by a caller
 * further up the stack while the method runs: `apply` of an unqualified
 * symbol keeps the current namespace borrowed during the call it makes.
 * `fuel` bounds the depth of nested applications (the source recurses
 * until the stack is exhausted).
 */
module Rt {
  import opened Wrappers
  import opened Values
  import opened Symbols
  import opened Namespaces
  import opened Envs
  import opened Semantics
  import Core
  import Maps

  // ---------------------------------------------------------------- the current namespace

  /**
   * `set_current_ns`: the var `*ns*` of the core namespace is resolved
   * first (a panic when missing), then the named namespace is found or
   * created and the var is bound to it.
   */
  method SetCurrentNs(env: Env, name: UnqualifiedSymbol) returns (r: Outcome<()>)
    requires env.Valid()
    modifies env.Repr
    ensures env.Valid() && old(env.Repr) <= env.Repr && fresh(env.Repr - old(env.Repr))
    ensures r.Panic? <==> old(env.Resolve(Core.NsName, NsVarName)).None?
    ensures r.Panic? ==> unchanged(old(env.Repr))
    ensures r.Done? ==> name in env.registry && CurrentNs(env) == Done(env.registry[name])
    ensures r.Done? ==> env.Resolve(Core.NsName, NsVarName) == old(env.Resolve(Core.NsName, NsVarName))
    ensures name in old(env.registry) ==> env.registry == old(env.registry)
    ensures name !in old(env.registry) && r.Done? ==>
      fresh(env.registry[name]) && env.registry == old(env.registry)[name := env.registry[name]]
    ensures forall k | k in old(env.registry) ::
      env.registry[k].interned == old(env.registry[k].interned) && env.registry[k].referred == old(env.registry[k].referred)
    ensures forall x: Var | x in old(env.Repr) && Some(x) != old(env.Resolve(Core.NsName, NsVarName)) :: x.place == old(x.place)
  {
    env.ResolvedVarsBelong(Core.NsName, NsVarName);
    var found := env.Resolve(Core.NsName, NsVarName);
    if found.None? {
      return Panic;
    }
    var x := found.value;
    var ns := env.FindOrCreateNamespace(name);
    x.Bind(Handle(ns));
    r := Done(());
  }

  /** The namespace name `in-ns` takes from its argument: a string, an unqualified keyword or symbol, or a namespace. */
  function InNsName(v: Value): (r: Option<string>)
    ensures r.Some? <==>
      v.String? || (v.Keyword? && v.keyword.Unqualified?) || (v.Symbol? && v.symbol.Unqualified?) ||
      (v.Handle? && v.handle is Namespace)
    ensures r.Some? && !v.Handle? ==> r == Core.WholeName(v)
    ensures r.Some? && v.Handle? ==> r.value == (v.handle as Namespace).name.name
  {
    match v
    case String(s) => Some(s)
    case Keyword(Unqualified(k)) => Some(k.name)
    case Symbol(Unqualified(s)) => Some(s.name)
    case Handle(h) => if h is Namespace then Some((h as Namespace).name.name) else None
    case _ => None
  }

  /**
   * `in-ns`: exactly one argument naming a namespace, which becomes the
   * current one (created when missing). Yields nil.
   */
  method InNs(env: Env, args: seq<Value>) returns (r: Run<Value>)
    requires env.Valid()
    modifies env.Repr
    ensures env.Valid() && old(env.Repr) <= env.Repr && fresh(env.Repr - old(env.Repr))
    ensures Core.Countable(args) ==>
      (r.Ran? <==> |args| == 1 && InNsName(args[0]).Some? && old(env.Resolve(Core.NsName, NsVarName)).Some?)
    ensures r.Stopped? ==> r.why == Panicked && unchanged(old(env.Repr))
    ensures r.Ran? ==>
      r.value == Nil && |args| >= 1 && InNsName(args[0]).Some? &&
      var k := UnqualifiedSymbol(InNsName(args[0]).value);
      k in env.registry && CurrentNs(env) == Done(env.registry[k]) &&
      (k in old(env.registry) ==> env.registry == old(env.registry)) &&
      (k !in old(env.registry) ==> env.registry == old(env.registry)[k := env.registry[k]])
    ensures forall x: Var | x in old(env.Repr) && Some(x) != old(env.Resolve(Core.NsName, NsVarName)) :: x.place == old(x.place)
  {
    Core.ExactlyOne(args);
    if !Core.Accepts({Integer(1)}, args) {
      return Stopped(Panicked);
    }
    var name := InNsName(args[0]);
    if name.None? {
      return Stopped(Panicked);
    }
    var o := SetCurrentNs(env, UnqualifiedSymbol(name.value));
    r := if o.Done? then Ran(Nil) else Stopped(Panicked);
  }

  // ---------------------------------------------------------------- declare

  /**
   * The namespace `declare` writes to, as written: the current namespace
   * stays borrowed while the namespace registered under its name is
   * borrowed mutably, which panics when that is the current namespace
   * itself or one a caller holds.
   */
  function DeclareTargetAsWritten(env: Env, held: set<Namespace>): (r: Outcome<UnqualifiedSymbol>)
    requires env.Valid()
    reads env, env.Repr
    ensures r.Done? ==>
      CurrentNs(env).Done? && r.value == CurrentNs(env).value.name && r.value in env.registry &&
      env.registry[r.value] != CurrentNs(env).value && env.registry[r.value] !in held
  {
    match CurrentNs(env)
    case Panic => Panic
    case Done(cur) =>
      if cur.name !in env.registry || env.registry[cur.name] == cur || env.registry[cur.name] in held then Panic
      else Done(cur.name)
  }

  /**
   * The namespace `declare` is meant to write to: the one registered under
   * the current namespace's name, borrowed mutably once the current one is
   * no longer borrowed; a panic only when it is missing or a caller holds it.
   */
  function DeclareTarget(env: Env, held: set<Namespace>): (r: Outcome<UnqualifiedSymbol>)
    requires env.Valid()
    reads env, env.Repr
    ensures r.Done? <==>
      CurrentNs(env).Done? && CurrentNs(env).value.name in env.registry &&
      env.registry[CurrentNs(env).value.name] !in held
    ensures r.Done? ==> r.value == CurrentNs(env).value.name
  {
    match CurrentNs(env)
    case Panic => Panic
    case Done(cur) =>
      if cur.name !in env.registry || env.registry[cur.name] in held then Panic
      else Done(cur.name)
  }

  /**
   * Whenever the current namespace is the one registered under its name
   * (always so once `in-ns` or `set_current_ns` has chosen it), `declare`
   * as written panics, while the intended version writes there.
   */
  lemma DeclareConflictsAsWritten(env: Env, held: set<Namespace>)
    requires env.Valid() && CurrentNs(env).Done?
    requires CurrentNs(env).value.name in env.registry && env.registry[CurrentNs(env).value.name] == CurrentNs(env).value
    ensures DeclareTargetAsWritten(env, held) == Panic
    ensures CurrentNs(env).value !in held ==> DeclareTarget(env, held) == Done(CurrentNs(env).value.name)
  {
  }

  /** Every argument of `declare` is an unqualified symbol. */
  predicate AllUnqualified(args: seq<Value>)
  {
    forall i | 0 <= i < |args| :: args[i].Symbol? && args[i].symbol.Unqualified?
  }

  /** The unqualified symbols among the arguments of `declare`: the names it gives vars. */
  ghost function DeclaredNames(args: seq<Value>): set<UnqualifiedSymbol>
  {
    set i | 0 <= i < |args| && args[i].Symbol? && args[i].symbol.Unqualified? :: args[i].symbol.unqualified
  }

  /**
   * `after` is `before` with an entry for each of `names` and every other
   * entry of `before` untouched.
   */
  predicate Extends<K, V(==)>(before: map<K, V>, after: map<K, V>, names: set<K>)
  {
    after.Keys == before.Keys + names &&
    forall n | n in before && n !in names :: after[n] == before[n]
  }

  /** One more argument examined: the names grow by its name when it is an unqualified symbol. */
  lemma DeclaredNamesStep(args: seq<Value>, i: nat)
    requires i < |args|
    ensures AllUnqualified(args[..i + 1]) <==> AllUnqualified(args[..i]) && args[i].Symbol? && args[i].symbol.Unqualified?
    ensures args[i].Symbol? && args[i].symbol.Unqualified? ==>
      DeclaredNames(args[..i + 1]) == DeclaredNames(args[..i]) + {args[i].symbol.unqualified}
  {
    var front, next := args[..i], args[..i + 1];
    assert forall j | 0 <= j < i :: next[j] == front[j];
    if args[i].Symbol? && args[i].symbol.Unqualified? {
      var n := args[i].symbol.unqualified;
      forall m | m in DeclaredNames(next) ensures m in DeclaredNames(front) + {n} {
        var j :| 0 <= j < |next| && next[j].Symbol? && next[j].symbol.Unqualified? && next[j].symbol.unqualified == m;
        if j < i {
          assert front[j] == next[j];
        }
      }
      forall m | m in DeclaredNames(front) + {n} ensures m in DeclaredNames(next) {
        if m == n {
          assert next[i] == args[i];
        } else {
          var j :| 0 <= j < |front| && front[j].Symbol? && front[j].symbol.Unqualified? && front[j].symbol.unqualified == m;
          assert next[j] == front[j];
        }
      }
    }
  }

  /** One more entry under `n` keeps `Extends`, with `n` counted among the names. */
  lemma ExtendsStep<K, V>(before: map<K, V>, after: map<K, V>, names: set<K>, n: K, x: V)
    requires Extends(before, after, names)
    ensures Extends(before, after[n := x], names + {n})
  {
  }

  /**
   * The loop of `declare`: each argument, an unqualified symbol, gets a
   * fresh unbound var in the namespace registered under `k`; any other
   * argument panics. No existing var changes.
   */
  method DeclareEach(env: Env, k: UnqualifiedSymbol, args: seq<Value>) returns (r: Run<Value>)
    requires env.Valid() && k in env.registry
    modifies env.Repr
    ensures env.Valid() && old(env.Repr) <= env.Repr && fresh(env.Repr - old(env.Repr))
    ensures env.registry == old(env.registry)
    ensures r.Ran? <==> AllUnqualified(args)
    ensures r == Stopped(Panicked) || r == Ran(Nil)
    ensures r.Ran? ==> Extends(old(env.registry[k].interned), env.registry[k].interned, DeclaredNames(args))
    ensures r.Ran? ==> forall n | n in DeclaredNames(args) ::
      n in env.registry[k].interned && fresh(env.registry[k].interned[n]) && env.registry[k].interned[n].place == None
    ensures env.registry[k].referred == old(env.registry[k].referred)
    ensures forall j | j in env.registry && j != k ::
      env.registry[j].interned == old(env.registry[j].interned) && env.registry[j].referred == old(env.registry[j].referred)
    ensures forall x: Var | x in old(env.Repr) :: x.place == old(x.place)
  {
    ghost var start := env.registry[k].interned;
    var i := 0;
    while i < |args|
      invariant 0 <= i <= |args|
      invariant env.Valid() && old(env.Repr) <= env.Repr && fresh(env.Repr - old(env.Repr))
      invariant env.registry == old(env.registry)
      invariant AllUnqualified(args[..i])
      invariant Extends(start, env.registry[k].interned, DeclaredNames(args[..i]))
      invariant forall n | n in DeclaredNames(args[..i]) ::
        n in env.registry[k].interned && fresh(env.registry[k].interned[n]) && env.registry[k].interned[n].place == None
      invariant env.registry[k].referred == old(env.registry[k].referred)
      invariant forall j | j in env.registry && j != k ::
        env.registry[j].interned == old(env.registry[j].interned) && env.registry[j].referred == old(env.registry[j].referred)
      invariant forall x: Var | x in old(env.Repr) :: x.place == old(x.place)
    {
      DeclaredNamesStep(args, i);
      if !(args[i].Symbol? && args[i].symbol.Unqualified?) {
        assert !AllUnqualified(args) by {
          assert args[i] in args;
        }
        return Stopped(Panicked);
      }
      var n := args[i].symbol.unqualified;
      ghost var names := DeclaredNames(args[..i]);
      ghost var before := env.registry[k].interned;
      forall m | m in names
        ensures before[m] in env.Repr
      {
        assert before[m] in before.Values;
      }
      env.Declare(k, n);
      ExtendsStep(start, before, names, n, env.registry[k].interned[n]);
      i := i + 1;
    }
    assert args[..i] == args;
    r := Ran(Nil);
  }

  /** `declare`: every argument becomes a fresh unbound var of the current namespace. */
  method Declare(env: Env, args: seq<Value>, held: set<Namespace>) returns (r: Run<Value>)
    requires env.Valid()
    modifies env.Repr
    ensures env.Valid() && old(env.Repr) <= env.Repr && fresh(env.Repr - old(env.Repr))
    ensures env.registry == old(env.registry)
    ensures old(DeclareTarget(env, held)).Panic? ==> r == Stopped(Panicked) && unchanged(old(env.Repr))
    ensures old(DeclareTarget(env, held)).Done? ==> (r.Ran? <==> AllUnqualified(args))
    ensures r == Stopped(Panicked) || r == Ran(Nil)
    ensures r.Ran? ==> old(DeclareTarget(env, held)).Done?
    ensures r.Ran? ==>
      var k := old(DeclareTarget(env, held)).value;
      Extends(old(env.registry[k].interned), env.registry[k].interned, DeclaredNames(args)) &&
      forall n | n in DeclaredNames(args) ::
        n in env.registry[k].interned && fresh(env.registry[k].interned[n]) && env.registry[k].interned[n].place == None
    ensures forall x: Var | x in old(env.Repr) :: x.place == old(x.place)
  {
    var target := DeclareTarget(env, held);
    if target.Panic? {
      return Stopped(Panicked);
    }
    r := DeclareEach(env, target.value, args);
  }

  /** `declare` as written: the borrow conflict decides before any argument is looked at. */
  method DeclareAsWritten(env: Env, args: seq<Value>, held: set<Namespace>) returns (r: Run<Value>)
    requires env.Valid()
    modifies env.Repr
    ensures env.Valid() && old(env.Repr) <= env.Repr && fresh(env.Repr - old(env.Repr))
    ensures old(DeclareTargetAsWritten(env, held)).Panic? ==> r == Stopped(Panicked) && unchanged(old(env.Repr))
    ensures old(DeclareTargetAsWritten(env, held)).Done? ==> (r.Ran? <==> AllUnqualified(args))
  {
    var target := DeclareTargetAsWritten(env, held);
    if target.Panic? {
      return Stopped(Panicked);
    }
    r := DeclareEach(env, target.value, args);
  }

  // ---------------------------------------------------------------- eval2, eval and apply

  /** `eval2`: a value evaluated in the environment. */
  method Eval2(env: Env, v: Value, held: set<Namespace>, fuel: nat) returns (r: Run<Result<Value, EvalError>>)
    requires env.Valid()
    modifies env.Repr
    decreases fuel, v, 2
    ensures env.Valid() && old(env.Repr) <= env.Repr && fresh(env.Repr - old(env.Repr))
    ensures old(Denote(env, v, fuel)).Some? ==> r == old(Denote(env, v, fuel)).value && unchanged(old(env.Repr))
    ensures r.Ran? && r.value.Err? ==> v.Symbol?
    ensures r.Ran? && v.Vector? ==> r.value.Ok? && r.value.value.Vector? && |r.value.value.items| == |v.items|
    ensures r.Ran? && v.Set? ==> r.value.Ok? && r.value.value.Set?
    ensures r.Ran? && v.Map? ==> r.value.Ok? && r.value.value.Map?
  {
    match v
    case Symbol(s) =>
      var found := Lookup(env, s);
      r := if found.Done? then Ran(found.value) else Stopped(Panicked);
    case Var(x) =>
      r := Ran(Ok(if x.place.Some? then x.place.value else v));
    case Vector(xs) =>
      var ys := EvalItems(env, v, 0, held, fuel);
      r := if ys.Ran? then Ran(Ok(Vector(ys.value))) else Stopped(ys.why);
    case Set(_) =>
      var ys := EvalSet(env, v, held, fuel);
      r := if ys.Ran? then Ran(Ok(Set(ys.value))) else Stopped(ys.why);
    case Map(_) =>
      var m := EvalMap(env, v, held, fuel);
      r := if m.Ran? then Ran(Ok(Map(m.value))) else Stopped(m.why);
    case List(xs) =>
      if xs == [] {
        r := Ran(Ok(List([])));
      } else if IsComment(v) {
        r := Ran(Ok(Nil));
      } else if IsQuote(v) {
        r := if |xs| >= 2 then Ran(Ok(xs[1])) else Stopped(Panicked);
      } else if fuel == 0 {
        r := Stopped(OutOfFuel);
      } else {
        var y := EvalApplication(env, v, held, fuel);
        r := if y.Ran? then Ran(Ok(y.value)) else Stopped(y.why);
      }
    case Nil => r := Ran(Ok(v));
    case Boolean(_) => r := Ran(Ok(v));
    case Integer(_) => r := Ran(Ok(v));
    case Float(_) => r := Ran(Ok(v));
    case String(_) => r := Ran(Ok(v));
    case Keyword(_) => r := Ran(Ok(v));
    case AFn(_) => r := Ran(Ok(v));
    case Handle(_) => r := Ran(Ok(v));
  }

  /** `eval`: `eval2` with every evaluation error turned into nil. */
  method Eval(env: Env, v: Value, held: set<Namespace>, fuel: nat) returns (r: Run<Value>)
    requires env.Valid()
    modifies env.Repr
    decreases fuel, v, 3
    ensures env.Valid() && old(env.Repr) <= env.Repr && fresh(env.Repr - old(env.Repr))
    ensures old(DenoteNil(env, v, fuel)).Some? ==> r == old(DenoteNil(env, v, fuel)).value && unchanged(old(env.Repr))
  {
    var x := Eval2(env, v, held, fuel);
    r := OrNil(x);
  }

  /** An ordinary non-empty list: the arguments left to right, then the head, then `apply` one level deeper. */
  method EvalApplication(env: Env, v: Value, held: set<Namespace>, fuel: nat) returns (r: Run<Value>)
    requires env.Valid() && v.List? && v.items != [] && fuel > 0
    modifies env.Repr
    decreases fuel, v, 1
    ensures env.Valid() && old(env.Repr) <= env.Repr && fresh(env.Repr - old(env.Repr))
    ensures old(DenoteApplication(env, v, fuel)).Some? ==>
      OrNil(old(DenoteApplication(env, v, fuel)).value) == r && unchanged(old(env.Repr))
  {
    var args := EvalItems(env, v, 1, held, fuel);
    if args.Stopped? {
      return Stopped(args.why);
    }
    var f := Eval(env, v.items[0], held, fuel);
    if f.Stopped? {
      return Stopped(f.why);
    }
    r := Apply(env, f.value, args.value, held, fuel - 1);
  }

  /** The items of a list or vector from `lo` on, each through `eval`, left to right; the first one that stops decides. */
  method EvalItems(env: Env, v: Value, lo: nat, held: set<Namespace>, fuel: nat) returns (r: Run<seq<Value>>)
    requires env.Valid() && (v.List? || v.Vector?) && lo <= |v.items|
    modifies env.Repr
    decreases fuel, v, 0, 2
    ensures env.Valid() && old(env.Repr) <= env.Repr && fresh(env.Repr - old(env.Repr))
    ensures old(DenoteItems(env, v, lo, |v.items|, fuel)).Some? ==>
      r == old(DenoteItems(env, v, lo, |v.items|, fuel)).value && unchanged(old(env.Repr))
    ensures r.Ran? ==> |r.value| == |v.items| - lo
  {
    ghost var spec := DenoteItems(env, v, lo, |v.items|, fuel);
    ghost var outcome := ItemOutcomes(env, v, |v.items|, fuel);
    r := EvalItemsFrom(env, v, lo, held, fuel, spec.Some?, outcome);
  }

  /**
   * The loop of `EvalItems`. When `settled`, `outcome` is what each item
   * evaluates to and the run over the items from `lo` on is determined.
   */
  method EvalItemsFrom(env: Env, v: Value, lo: nat, held: set<Namespace>, fuel: nat, ghost settled: bool,
                       ghost outcome: seq<Option<Run<Value>>>)
    returns (r: Run<seq<Value>>)
    requires env.Valid() && (v.List? || v.Vector?) && lo <= |v.items| == |outcome|
    requires settled ==> forall j | lo <= j < |v.items| :: DenoteNil(env, v.items[j], fuel) == outcome[j]
    requires settled ==> RunItems(outcome, lo, |v.items|).Some?
    modifies env.Repr
    decreases fuel, v, 0, 1
    ensures env.Valid() && old(env.Repr) <= env.Repr && fresh(env.Repr - old(env.Repr))
    ensures settled ==> unchanged(old(env.Repr)) && Some(r) == RunItems(outcome, lo, |v.items|)
    ensures r.Ran? ==> |r.value| == |v.items| - lo
  {
    if settled {
      RunItemsPrefixes(outcome, lo, |v.items|);
    }
    var ys := [];
    var i := lo;
    while i < |v.items|
      invariant lo <= i <= |v.items| && |ys| == i - lo
      invariant env.Valid() && old(env.Repr) <= env.Repr && fresh(env.Repr - old(env.Repr))
      invariant settled ==> unchanged(old(env.Repr)) && RunItems(outcome, lo, i) == Some(Ran(ys))
    {
      if settled {
        RunItemsNext(outcome, lo, i, ys);
      }
      assert settled ==> DenoteNil(env, v.items[i], fuel) == outcome[i] && RunItems(outcome, lo, i + 1).Some?;
      var y := Eval(env, v.items[i], held, fuel);
      if y.Stopped? {
        return Stopped(y.why);
      }
      ys := ys + [y.value];
      i := i + 1;
    }
    r := Ran(ys);
  }

  /** Taking `k` out of what is left to visit adds it to what was visited. */
  lemma VisitedOneMore<T>(all: set<T>, rest: set<T>, k: T)
    requires rest <= all && k in rest
    ensures all - (rest - {k}) == (all - rest) + {k}
  {
  }

  /** The members of a set, each through `eval`, in an order this model does not fix; the first one that stops decides. */
  method EvalSet(env: Env, v: Value, held: set<Namespace>, fuel: nat) returns (r: Run<set<Value>>)
    requires env.Valid() && v.Set?
    modifies env.Repr
    decreases fuel, v, 1
    ensures env.Valid() && old(env.Repr) <= env.Repr && fresh(env.Repr - old(env.Repr))
    ensures old(DenoteSet(env, v, fuel)).Some? ==> r == old(DenoteSet(env, v, fuel)).value && unchanged(old(env.Repr))
  {
    ghost var spec := DenoteSet(env, v, fuel);
    ghost var outcome := MemberOutcomes(env, v, fuel);
    if spec.Some? {
      RunAllOutcomes(v.members, outcome);
    }
    var rest := v.members;
    var acc := {};
    while rest != {}
      invariant rest <= v.members
      invariant env.Valid() && old(env.Repr) <= env.Repr && fresh(env.Repr - old(env.Repr))
      invariant spec.Some? ==>
        unchanged(old(env.Repr)) && AllRan(v.members - rest, outcome) && acc == RanSet(v.members - rest, outcome)
      decreases rest
    {
      var x :| x in rest;
      assert spec.Some? ==> DenoteNil(env, x, fuel) == outcome[x];
      var y := Eval(env, x, held, fuel);
      if y.Stopped? {
        return Stopped(y.why);
      }
      if spec.Some? {
        RanSetOne(v.members - rest, outcome, x, y.value);
        VisitedOneMore(v.members, rest, x);
      }
      acc := acc + {y.value};
      rest := rest - {x};
    }
    if spec.Some? {
      assert v.members - rest == v.members;
    }
    r := Ran(acc);
  }

  /** One entry of a map: the key and then its value, each through `eval`. */
  method EvalEntry(env: Env, v: Value, k: Value, held: set<Namespace>, fuel: nat) returns (r: Run<(Value, Value)>)
    requires env.Valid() && v.Map? && k in v.entries
    modifies env.Repr
    decreases fuel, v, 0, 0
    ensures env.Valid() && old(env.Repr) <= env.Repr && fresh(env.Repr - old(env.Repr))
    ensures old(DenoteNil(env, k, fuel)) == Some(Ran(k)) && old(DenoteNil(env, v.entries[k], fuel)).Some? ==>
      unchanged(old(env.Repr)) &&
      r == match old(DenoteNil(env, v.entries[k], fuel)).value
           case Ran(y) => Ran((k, y))
           case Stopped(w) => Stopped(w)
  {
    var key := Eval(env, k, held, fuel);
    if key.Stopped? {
      return Stopped(key.why);
    }
    var value := Eval(env, v.entries[k], held, fuel);
    if value.Stopped? {
      return Stopped(value.why);
    }
    r := Ran((key.value, value.value));
  }

  /**
   * The loop over the entries of a map, each key and then its value through
   * `eval`, in an order this model does not fix; the first one that stops
   * decides. When `settled`, every key evaluates to itself, `outcome` is
   * what the value of each entry evaluates to, and the run over the values is
   * determined.
   */
  method EvalEntries(env: Env, v: Value, held: set<Namespace>, fuel: nat, ghost settled: bool,
                     ghost outcome: map<Value, Option<Run<Value>>>)
    returns (r: Run<map<Value, Value>>)
    requires env.Valid() && v.Map?
    requires settled ==> forall k | k in v.entries ::
      DenoteNil(env, k, fuel) == Some(Ran(k)) && k in outcome && DenoteNil(env, v.entries[k], fuel) == outcome[k]
    requires settled ==> RunAll(v.entries.Keys, outcome).Some?
    modifies env.Repr
    decreases fuel, v, 0, 2
    ensures env.Valid() && old(env.Repr) <= env.Repr && fresh(env.Repr - old(env.Repr))
    ensures settled ==> unchanged(old(env.Repr))
    ensures settled && r.Ran? ==> AllRan(v.entries.Keys, outcome) && r.value == RanValues(v.entries.Keys, outcome)
    ensures settled && r.Stopped? ==> exists k | k in v.entries :: outcome[k] == Some(Stopped(r.why))
  {
    var keys := v.entries.Keys;
    var rest := keys;
    var acc := map[];
    while rest != {}
      invariant rest <= keys
      invariant env.Valid() && old(env.Repr) <= env.Repr && fresh(env.Repr - old(env.Repr))
      invariant settled ==>
        unchanged(old(env.Repr)) && AllRan(keys - rest, outcome) && acc == RanValues(keys - rest, outcome)
      decreases rest
    {
      var k :| k in rest;
      assert settled ==> DenoteNil(env, k, fuel) == Some(Ran(k)) && DenoteNil(env, v.entries[k], fuel) == outcome[k];
      var next := VisitEntry(env, v, k, held, fuel, settled, keys - rest, outcome, acc);
      if next.Stopped? {
        return next;
      }
      if settled {
        VisitedOneMore(keys, rest, k);
      }
      acc := next.value;
      rest := rest - {k};
    }
    if settled {
      assert keys - rest == keys;
    }
    r := Ran(acc);
  }

  /**
   * One entry visited: when `settled`, its key evaluates to itself, `acc` holds
   * the entries of `done`, and the entry joins them or stops as its value does.
   */
  method VisitEntry(env: Env, v: Value, k: Value, held: set<Namespace>, fuel: nat, ghost settled: bool,
                    ghost done: set<Value>, ghost outcome: map<Value, Option<Run<Value>>>, acc: map<Value, Value>)
    returns (r: Run<map<Value, Value>>)
    requires env.Valid() && v.Map? && k in v.entries
    requires settled ==>
      DenoteNil(env, k, fuel) == Some(Ran(k)) && k in outcome && DenoteNil(env, v.entries[k], fuel) == outcome[k] && outcome[k].Some?
    requires settled ==> AllRan(done, outcome) && acc == RanValues(done, outcome)
    modifies env.Repr
    decreases fuel, v, 0, 1
    ensures env.Valid() && old(env.Repr) <= env.Repr && fresh(env.Repr - old(env.Repr))
    ensures settled ==> unchanged(old(env.Repr))
    ensures settled && r.Ran? ==> AllRan(done + {k}, outcome) && r.value == RanValues(done + {k}, outcome)
    ensures settled && r.Stopped? ==> outcome[k] == Some(Stopped(r.why))
  {
    var entry := EvalEntry(env, v, k, held, fuel);
    if entry.Stopped? {
      return Stopped(entry.why);
    }
    if settled {
      RanValuesOne(done, outcome, k, entry.value.1);
    }
    r := Ran(acc[entry.value.0 := entry.value.1]);
  }

  /** The entries of a map through `eval`, as `EvalEntries` says. */
  method EvalMap(env: Env, v: Value, held: set<Namespace>, fuel: nat) returns (r: Run<map<Value, Value>>)
    requires env.Valid() && v.Map?
    modifies env.Repr
    decreases fuel, v, 1
    ensures env.Valid() && old(env.Repr) <= env.Repr && fresh(env.Repr - old(env.Repr))
    ensures old(DenoteMap(env, v, fuel)).Some? ==> r == old(DenoteMap(env, v, fuel)).value && unchanged(old(env.Repr))
  {
    ghost var spec := DenoteMap(env, v, fuel);
    ghost var outcome := ValueOutcomes(env, v, fuel);
    if spec.Some? {
      RunAllOutcomes(v.entries.Keys, outcome);
      assert KeysStay(v.entries.Keys, KeyOutcomes(env, v, fuel));
    }
    r := EvalEntries(env, v, held, fuel, spec.Some?, outcome);
  }

  /**
   * `apply`. A keyword and a library function that only looks at its
   * arguments behave as `ApplySpec` says; a symbol is looked up (a panic
   * when missing or unbound) and applied to the list that is its second
   * argument, with the current namespace kept borrowed when the symbol is
   * unqualified; other library functions are `Invoke`d.
   */
  method Apply(env: Env, f: Value, args: seq<Value>, held: set<Namespace>, fuel: nat) returns (r: Run<Value>)
    requires env.Valid()
    modifies env.Repr
    decreases fuel, 4
    ensures env.Valid() && old(env.Repr) <= env.Repr && fresh(env.Repr - old(env.Repr))
    ensures ApplySpec(f, args).Some? ==> r == ApplySpec(f, args).value && unchanged(old(env.Repr))
    ensures f.Symbol? && !(old(Lookup(env, f.symbol)).Done? && old(Lookup(env, f.symbol)).value.Ok?) ==>
      r == Stopped(Panicked) && unchanged(old(env.Repr))
    ensures f.Symbol? && (|args| < 2 || !args[1].List?) ==> r == Stopped(Panicked) && unchanged(old(env.Repr))
    ensures (f.Symbol? && old(Lookup(env, f.symbol)).Done? && old(Lookup(env, f.symbol)).value.Ok? &&
             |args| >= 2 && args[1].List? && fuel > 0 &&
             ApplySpec(old(Lookup(env, f.symbol)).value.value, args[1].items).Some?) ==>
      r == ApplySpec(old(Lookup(env, f.symbol)).value.value, args[1].items).value && unchanged(old(env.Repr))
  {
    match f
    case Keyword(_) =>
      if args == [] || !args[0].Map? {
        r := Stopped(Panicked);
      } else if |args| >= 2 {
        r := Ran(Maps.GetOr(args[0].entries, f, args[1]));
      } else {
        r := Ran(Maps.GetOrNil(args[0].entries, f));
      }
    case AFn(c) =>
      r := Invoke(env, c.builtin, args, held, fuel);
    case Symbol(s) =>
      var borrowed: set<Namespace> := {};
      if s.Unqualified? {
        var current := CurrentNs(env);
        if current.Panic? {
          return Stopped(Panicked);
        }
        borrowed := {current.value};
      }
      var found := Lookup(env, s);
      if !(found.Done? && found.value.Ok?) {
        return Stopped(Panicked);
      }
      if |args| < 2 || !args[1].List? {
        return Stopped(Panicked);
      }
      if fuel == 0 {
        return Stopped(OutOfFuel);
      }
      r := Apply(env, found.value.value, args[1].items, held + borrowed, fuel - 1);
    case Nil => r := Stopped(Panicked);
    case Boolean(_) => r := Stopped(Panicked);
    case Integer(_) => r := Stopped(Panicked);
    case Float(_) => r := Stopped(Panicked);
    case String(_) => r := Stopped(Panicked);
    case List(_) => r := Stopped(Panicked);
    case Vector(_) => r := Stopped(Panicked);
    case Set(_) => r := Stopped(Panicked);
    case Map(_) => r := Stopped(Panicked);
    case Var(_) => r := Stopped(Panicked);
    case Handle(_) => r := Stopped(Panicked);
  }

  /** The library functions this model leaves out. */
  predicate LeftOutBuiltin(b: Builtin)
  {
    b in {KeysFn, ValsFn, MapFn, ApplyFn, NsMapFn, NsPublicsFn, SlurpFn}
  }

  /** The library function `eval`: one argument, evaluated with one unit of budget less. */
  method EvalBuiltin(env: Env, args: seq<Value>, held: set<Namespace>, fuel: nat) returns (r: Run<Value>)
    requires env.Valid()
    modifies env.Repr
    decreases fuel, 1
    ensures env.Valid() && old(env.Repr) <= env.Repr && fresh(env.Repr - old(env.Repr))
    ensures Core.Countable(args) && |args| != 1 ==> r == Stopped(Panicked) && unchanged(old(env.Repr))
    ensures |args| == 1 && fuel == 0 ==> r == Stopped(OutOfFuel) && unchanged(old(env.Repr))
    ensures |args| == 1 && fuel > 0 && old(DenoteNil(env, args[0], fuel - 1)).Some? ==>
      r == old(DenoteNil(env, args[0], fuel - 1)).value && unchanged(old(env.Repr))
  {
    Core.ExactlyOne(args);
    if !Core.Accepts({Integer(1)}, args) {
      r := Stopped(Panicked);
    } else if fuel == 0 {
      r := Stopped(OutOfFuel);
    } else {
      r := Eval(env, args[0], held, fuel - 1);
    }
  }

  /**
   * A library function called with its arguments: `AFn::apply` of the
   * function's `defn!`. `refer` always panics (its every path is `todo!`).
   */
  method Invoke(env: Env, b: Builtin, args: seq<Value>, held: set<Namespace>, fuel: nat) returns (r: Run<Value>)
    requires env.Valid()
    modifies env.Repr
    decreases fuel, 3
    ensures env.Valid() && old(env.Repr) <= env.Repr && fresh(env.Repr - old(env.Repr))
    ensures Core.Pure(b) ==> r == Lift(Core.Call(b, args)) && unchanged(old(env.Repr))
    ensures b == EvalFn && Core.Countable(args) && |args| != 1 ==> r == Stopped(Panicked) && unchanged(old(env.Repr))
    ensures b == EvalFn && |args| == 1 && fuel == 0 ==> r == Stopped(OutOfFuel) && unchanged(old(env.Repr))
    ensures b == EvalFn && |args| == 1 && fuel > 0 && old(DenoteNil(env, args[0], fuel - 1)).Some? ==>
      r == old(DenoteNil(env, args[0], fuel - 1)).value && unchanged(old(env.Repr))
    ensures b == ReferFn ==> r == Stopped(Panicked) && unchanged(old(env.Repr))
    ensures LeftOutBuiltin(b) ==> r == Stopped(LeftOut) && unchanged(old(env.Repr))
  {
    if Core.Pure(b) {
      r := Lift(Core.Call(b, args));
    } else if b == EvalFn {
      r := EvalBuiltin(env, args, held, fuel);
    } else if b in {FindNsFn, RemoveNsFn, CreateNsFn, InNsFn, DeclareFn} {
      r := InvokeOnNamespaces(env, b, args, held, fuel);
    } else if b == ReferFn {
      r := Stopped(Panicked);
    } else {
      r := Stopped(LeftOut);
    }
  }

  /** The library functions that work on namespaces; their own methods state what each does. */
  method InvokeOnNamespaces(env: Env, b: Builtin, args: seq<Value>, held: set<Namespace>, fuel: nat) returns (r: Run<Value>)
    requires env.Valid() && b in {FindNsFn, RemoveNsFn, CreateNsFn, InNsFn, DeclareFn}
    modifies env.Repr
    decreases fuel, 2
    ensures env.Valid() && old(env.Repr) <= env.Repr && fresh(env.Repr - old(env.Repr))
  {
    match b
    case FindNsFn => r := FindNs(env, args, held, fuel);
    case RemoveNsFn => r := RemoveNs(env, args, held, fuel);
    case CreateNsFn => r := CreateNs(env, args, held, fuel);
    case InNsFn => r := InNs(env, args);
    case DeclareFn => r := Declare(env, args, held);
  }

  // ---------------------------------------------------------------- namespaces by name

  /** The var `name` of the core namespace holds the library function `name`, as after `add_to_env`. */
  ghost predicate NamedByCore(env: Env)
    requires env.Valid()
    reads env, env.Repr
  {
    env.ResolvedVarsBelong(Core.NsName, "name");
    var found := env.Resolve(Core.NsName, "name");
    found.Some? && found.value.place.Some? && found.value.place.value.AFn? &&
    found.value.place.value.afn.builtin == NameFn
  }

  /**
   * How `find-ns`, `remove-ns` and `create-ns` turn their argument into a
   * namespace name: through whatever the var `name` of the core namespace
   * holds, which must be a library function yielding a string.
   */
  method NameThroughCore(env: Env, arg: Value, held: set<Namespace>, fuel: nat) returns (r: Run<string>)
    requires env.Valid()
    modifies env.Repr
    decreases fuel, 0
    ensures env.Valid() && old(env.Repr) <= env.Repr && fresh(env.Repr - old(env.Repr))
    ensures old(NamedByCore(env)) && fuel > 0 ==>
      unchanged(old(env.Repr)) &&
      r == (if Core.WholeName(arg).Some? then Ran(Core.WholeName(arg).value) else Stopped(Panicked))
  {
    env.ResolvedVarsBelong(Core.NsName, "name");
    var found := env.Resolve(Core.NsName, "name");
    if found.None? || found.value.place.None? || !found.value.place.value.AFn? {
      return Stopped(Panicked);
    }
    if fuel == 0 {
      return Stopped(OutOfFuel);
    }
    var y := Invoke(env, found.value.place.value.afn.builtin, [arg], held, fuel - 1);
    if y.Stopped? {
      return Stopped(y.why);
    }
    if !y.value.String? {
      return Stopped(Panicked);
    }
    r := Ran(y.value.text);
  }

  /** `find-ns`: the namespace registered under the argument's name, or nil. */
  method FindNs(env: Env, args: seq<Value>, held: set<Namespace>, fuel: nat) returns (r: Run<Value>)
    requires env.Valid()
    modifies env.Repr
    decreases fuel, 1
    ensures env.Valid() && old(env.Repr) <= env.Repr && fresh(env.Repr - old(env.Repr))
    ensures Core.Countable(args) && |args| != 1 ==> r == Stopped(Panicked) && unchanged(old(env.Repr))
    ensures |args| == 1 && old(NamedByCore(env)) && fuel > 0 ==>
      unchanged(old(env.Repr)) &&
      match Core.WholeName(args[0])
      case None => r == Stopped(Panicked)
      case Some(n) =>
        r == Ran(if UnqualifiedSymbol(n) in env.registry then Handle(env.registry[UnqualifiedSymbol(n)]) else Nil)
  {
    Core.ExactlyOne(args);
    if !Core.Accepts({Integer(1)}, args) {
      return Stopped(Panicked);
    }
    var name := NameThroughCore(env, args[0], held, fuel);
    if name.Stopped? {
      return Stopped(name.why);
    }
    var k := UnqualifiedSymbol(name.value);
    var found := env.GetNamespace(k);
    r := Ran(if found.Some? then Handle(found.value) else Nil);
  }

  /** `remove-ns`: unregisters the namespace named by the argument and yields it, or nil when there was none. */
  method RemoveNs(env: Env, args: seq<Value>, held: set<Namespace>, fuel: nat) returns (r: Run<Value>)
    requires env.Valid()
    modifies env.Repr
    decreases fuel, 1
    ensures env.Valid() && old(env.Repr) <= env.Repr && fresh(env.Repr - old(env.Repr))
    ensures Core.Countable(args) && |args| != 1 ==> r == Stopped(Panicked) && unchanged(old(env.Repr))
    ensures |args| == 1 && old(NamedByCore(env)) && fuel > 0 ==>
      match Core.WholeName(args[0])
      case None => r == Stopped(Panicked) && unchanged(old(env.Repr))
      case Some(n) =>
        var k := UnqualifiedSymbol(n);
        r == Ran(if k in old(env.registry) then Handle(old(env.registry[k])) else Nil) &&
        env.registry == old(env.registry) - {k} && env.Repr == old(env.Repr) &&
        forall x: Var | x in old(env.Repr) :: x.place == old(x.place)
  {
    Core.ExactlyOne(args);
    if !Core.Accepts({Integer(1)}, args) {
      return Stopped(Panicked);
    }
    var name := NameThroughCore(env, args[0], held, fuel);
    if name.Stopped? {
      return Stopped(name.why);
    }
    var removed := env.RemoveNamespace(UnqualifiedSymbol(name.value));
    r := Ran(if removed.Some? then Handle(removed.value.1) else Nil);
  }

  /** `create-ns`: the namespace registered under the argument's name, created empty when missing. */
  method CreateNs(env: Env, args: seq<Value>, held: set<Namespace>, fuel: nat) returns (r: Run<Value>)
    requires env.Valid()
    modifies env.Repr
    decreases fuel, 1
    ensures env.Valid() && old(env.Repr) <= env.Repr && fresh(env.Repr - old(env.Repr))
    ensures Core.Countable(args) && |args| != 1 ==> r == Stopped(Panicked) && unchanged(old(env.Repr))
    ensures |args| == 1 && old(NamedByCore(env)) && fuel > 0 ==>
      match Core.WholeName(args[0])
      case None => r == Stopped(Panicked) && unchanged(old(env.Repr))
      case Some(n) =>
        var k := UnqualifiedSymbol(n);
        k in env.registry && r == Ran(Handle(env.registry[k])) &&
        (k in old(env.registry) ==> env.registry == old(env.registry)) &&
        (k !in old(env.registry) ==>
          fresh(env.registry[k]) && env.registry == old(env.registry)[k := env.registry[k]] &&
          env.registry[k].interned == map[] && env.registry[k].referred == map[]) &&
        forall x: Var | x in old(env.Repr) :: x.place == old(x.place)
  {
    Core.ExactlyOne(args);
    if !Core.Accepts({Integer(1)}, args) {
      return Stopped(Panicked);
    }
    var name := NameThroughCore(env, args[0], held, fuel);
    if name.Stopped? {
      return Stopped(name.why);
    }
    var ns := env.FindOrCreateNamespace(UnqualifiedSymbol(name.value));
    r := Ran(Handle(ns));
  }
}
