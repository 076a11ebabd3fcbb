/**
 * Populating an environment with the core namespace (`add_to_env`) and the
 * environment every program starts from (`new_env`).
 *
 * `add_to_env` finds or creates `clojure.core`, declares a fresh unbound
 * `*ns*` there, interns a fresh callable for each library function under
 * its name, and finally makes `clojure.core` the current namespace.
 */
module CoreEnv {
  import opened Wrappers
  import opened Values
  import opened Symbols
  import opened Namespaces
  import opened Envs
  import opened Semantics
  import Core
  import Rt

  /**
   * The library functions interned in the core namespace, by name. No name
   * is interned twice, so the order of the interns does not matter.
   */
  const Library: map<string, Builtin> := map[
    "conj" := ConjFn, "create-ns" := CreateNsFn, "declare" := DeclareFn, "eval" := EvalFn,
    "find-ns" := FindNsFn, "first" := FirstFn, "in-ns" := InNsFn, "keys" := KeysFn,
    "keyword" := KeywordFn, "last" := LastFn, "list" := ListFn, "map" := MapFn,
    "name" := NameFn, "namespace" := NamespaceFn, "ns-map" := NsMapFn, "ns-publics" := NsPublicsFn,
    "prn" := PrnFn, "rest" := RestFn, "second" := SecondFn, "slurp" := SlurpFn,
    "symbol" := SymbolFn, "vals" := ValsFn, "vec" := VecFn, "vector" := VectorFn
  ]

  const CoreName: UnqualifiedSymbol := UnqualifiedSymbol(Core.NsName)

  /** The var names given by a set of names. */
  ghost function Names(names: set<string>): (r: set<UnqualifiedSymbol>)
    ensures forall n | n in names :: UnqualifiedSymbol(n) in r
    ensures forall x | x in r :: x.name in names
  {
    set n | n in names :: UnqualifiedSymbol(n)
  }

  /** The var of the core namespace named `name` holds the library function `b`. */
  ghost predicate Binds(env: Env, name: string, b: Builtin)
    requires env.Valid()
    reads env, env.Repr
  {
    env.ResolvedVarsBelong(Core.NsName, name);
    var found := env.Resolve(Core.NsName, name);
    found.Some? && found.value.place.Some? && found.value.place.value.AFn? &&
    found.value.place.value.afn.builtin == b
  }

  /** Every function of the table is bound under its name in the core namespace. */
  ghost predicate BindsAll(env: Env, lib: map<string, Builtin>)
    requires env.Valid()
    reads env, env.Repr
  {
    forall n | n in lib :: Binds(env, n, lib[n])
  }

  /** With the library bound, the var `name` of the core namespace is the library's `name`. */
  lemma LibraryNamesCore(env: Env)
    requires env.Valid() && BindsAll(env, Library)
    ensures Rt.NamedByCore(env)
  {
    assert Binds(env, "name", Library["name"]);
  }

  /**
   * The names `done` of the table are interned as `vars` says, and each of
   * those vars holds a callable for its library function.
   */
  ghost predicate Holds(interned: map<UnqualifiedSymbol, Var>, lib: map<string, Builtin>, done: set<string>, vars: map<string, Var>)
    reads vars.Values
  {
    forall n | n in done ::
      n in lib && n in vars && UnqualifiedSymbol(n) in interned && interned[UnqualifiedSymbol(n)] == vars[n] &&
      vars[n].place.Some? && vars[n].place.value.AFn? && vars[n].place.value.afn.builtin == lib[n]
  }

  /** Vars held as `Holds` says for every name bind the whole table. */
  lemma HoldsBinds(env: Env, lib: map<string, Builtin>, vars: map<string, Var>)
    requires env.Valid() && CoreName in env.registry
    requires Holds(env.registry[CoreName].interned, lib, lib.Keys, vars)
    ensures BindsAll(env, lib)
  {
    forall n | n in lib
      ensures Binds(env, n, lib[n])
    {
      assert vars[n] in vars.Values;
    }
  }

  /** Interning one more name adds its var name to those of the names done. */
  lemma NamesOneMore(all: set<string>, rest: set<string>, n: string)
    requires rest <= all && n in rest
    ensures all - (rest - {n}) == (all - rest) + {n}
    ensures Names(all - (rest - {n})) == Names(all - rest) + {UnqualifiedSymbol(n)}
  {
    assert all - (rest - {n}) == (all - rest) + {n};
  }

  /**
   * Interning the function named `n`: a fresh callable is interned under
   * that name. When the name was not interned yet, the var holding it is
   * fresh, so the vars of the functions interned before keep their
   * callables.
   */
  method InternOne(env: Env, lib: map<string, Builtin>, n: string, ghost done: set<string>, ghost settled: bool, ghost vars: map<string, Var>)
    returns (ghost next: map<string, Var>)
    requires env.Valid() && CoreName in env.registry && n in lib
    requires settled ==> Holds(env.registry[CoreName].interned, lib, done, vars)
    requires settled ==> UnqualifiedSymbol(n) !in env.registry[CoreName].interned
    modifies env.Repr
    ensures env.Valid() && old(env.Repr) <= env.Repr && fresh(env.Repr - old(env.Repr))
    ensures env.registry == old(env.registry)
    ensures var x := UnqualifiedSymbol(n);
      x in env.registry[CoreName].interned &&
      env.registry[CoreName].interned == old(env.registry[CoreName].interned)[x := env.registry[CoreName].interned[x]]
    ensures env.registry[CoreName].referred == old(env.registry[CoreName].referred)
    ensures forall k | k in env.registry && k != CoreName ::
      env.registry[k].interned == old(env.registry[k].interned) && env.registry[k].referred == old(env.registry[k].referred)
    ensures settled ==> Holds(env.registry[CoreName].interned, lib, done + {n}, next)
    ensures settled ==> forall y: Var | y in old(env.Repr) :: y.place == old(y.place)
  {
    var c := new Callable(lib[n]);
    env.InternInto(CoreName, UnqualifiedSymbol(n), AFn(c));
    next := vars[n := env.registry[CoreName].interned[UnqualifiedSymbol(n)]];
    if settled {
      forall m | m in done
        ensures vars[m] in old(env.Repr)
      {
        assert vars[m] in old(env.registry[CoreName].interned.Values);
      }
    }
  }

  /**
   * Interning a table of library functions into the core namespace: each
   * name gets a fresh callable, rebinding the var already there or
   * interning a new one. When the namespace holds only `*ns*` and the table
   * does not name it (as `add_to_env` leaves a new core namespace), every
   * function ends up bound under its own name, in `vars`, and no var that
   * existed before changes.
   */
  method InternAll(env: Env, lib: map<string, Builtin>, ghost settled: bool) returns (ghost vars: map<string, Var>)
    requires env.Valid() && CoreName in env.registry
    requires settled ==> NsVarName !in lib && env.registry[CoreName].interned.Keys == {UnqualifiedSymbol(NsVarName)}
    modifies env.Repr
    ensures env.Valid() && old(env.Repr) <= env.Repr && fresh(env.Repr - old(env.Repr))
    ensures env.registry == old(env.registry)
    ensures env.registry[CoreName].interned.Keys == old(env.registry[CoreName].interned.Keys) + Names(lib.Keys)
    ensures env.registry[CoreName].referred == old(env.registry[CoreName].referred)
    ensures forall k | k in env.registry && k != CoreName ::
      env.registry[k].interned == old(env.registry[k].interned) && env.registry[k].referred == old(env.registry[k].referred)
    ensures forall x | x in old(env.registry[CoreName].interned) && x !in Names(lib.Keys) ::
      env.registry[CoreName].interned[x] == old(env.registry[CoreName].interned[x])
    ensures settled ==> Holds(env.registry[CoreName].interned, lib, lib.Keys, vars)
    ensures settled ==> forall y: Var | y in old(env.Repr) :: y.place == old(y.place)
  {
    vars := map[];
    var rest := lib.Keys;
    while rest != {}
      invariant rest <= lib.Keys
      invariant env.Valid() && old(env.Repr) <= env.Repr && fresh(env.Repr - old(env.Repr))
      invariant env.registry == old(env.registry)
      invariant env.registry[CoreName].interned.Keys == old(env.registry[CoreName].interned.Keys) + Names(lib.Keys - rest)
      invariant env.registry[CoreName].referred == old(env.registry[CoreName].referred)
      invariant forall k | k in env.registry && k != CoreName ::
        env.registry[k].interned == old(env.registry[k].interned) && env.registry[k].referred == old(env.registry[k].referred)
      invariant forall x | x in old(env.registry[CoreName].interned) && x !in Names(lib.Keys - rest) ::
        env.registry[CoreName].interned[x] == old(env.registry[CoreName].interned[x])
      invariant settled ==> Holds(env.registry[CoreName].interned, lib, lib.Keys - rest, vars)
      invariant settled ==> forall y: Var | y in old(env.Repr) :: y.place == old(y.place)
      decreases rest
    {
      var n :| n in rest;
      NamesOneMore(lib.Keys, rest, n);
      vars := InternOne(env, lib, n, lib.Keys - rest, settled, vars);
      rest := rest - {n};
    }
  }

  /**
   * The first step of `add_to_env`: the core namespace is found or
   * created, and a fresh unbound `*ns*` is declared in it. Every var that
   * existed before keeps its value.
   */
  method PrepareCore(env: Env) returns (ghost nsVar: Var)
    requires env.Valid()
    modifies env.Repr
    ensures env.Valid() && old(env.Repr) <= env.Repr && fresh(env.Repr - old(env.Repr))
    ensures env.registry.Keys == old(env.registry).Keys + {CoreName}
    ensures forall k | k in old(env.registry) :: env.registry[k] == old(env.registry)[k]
    ensures forall k | k in old(env.registry) && k != CoreName ::
      env.registry[k].interned == old(env.registry[k].interned) && env.registry[k].referred == old(env.registry[k].referred)
    ensures var x := UnqualifiedSymbol(NsVarName);
      x in env.registry[CoreName].interned && nsVar == env.registry[CoreName].interned[x] &&
      fresh(nsVar) && nsVar.place == None &&
      env.registry[CoreName].interned ==
        old(if CoreName in env.registry then env.registry[CoreName].interned else map[])[x := nsVar]
    ensures env.registry[CoreName].referred == old(if CoreName in env.registry then env.registry[CoreName].referred else map[])
    ensures forall y: Var | y in old(env.Repr) :: y.place == old(y.place)
  {
    var core := env.FindOrCreateNamespace(CoreName);
    env.Declare(CoreName, UnqualifiedSymbol(NsVarName));
    nsVar := env.registry[CoreName].interned[UnqualifiedSymbol(NsVarName)];
  }

  /**
   * Adding a table of library functions to the environment, as `add_to_env`
   * does with its own: the core namespace is found or created, a fresh
   * unbound `*ns*` is declared in it, the table is interned there and the
   * core namespace is made the current one. Namespaces other than the core one keep
   * their vars. On an environment without a core namespace (as `new_env`
   * calls it), every function of the table is bound under its own name and no
   * var that existed before changes.
   */
  method AddLibrary(env: Env, lib: map<string, Builtin>)
    requires env.Valid() && NsVarName !in lib
    modifies env.Repr
    ensures env.Valid() && old(env.Repr) <= env.Repr && fresh(env.Repr - old(env.Repr))
    ensures env.registry.Keys == old(env.registry).Keys + {CoreName}
    ensures forall k | k in old(env.registry) :: env.registry[k] == old(env.registry)[k]
    ensures forall k | k in old(env.registry) && k != CoreName ::
      env.registry[k].interned == old(env.registry[k].interned) && env.registry[k].referred == old(env.registry[k].referred)
    ensures env.registry[CoreName].interned.Keys ==
      old(if CoreName in env.registry then env.registry[CoreName].interned.Keys else {}) +
      {UnqualifiedSymbol(NsVarName)} + Names(lib.Keys)
    ensures env.registry[CoreName].referred == old(if CoreName in env.registry then env.registry[CoreName].referred else map[])
    ensures CurrentNs(env) == Done(env.registry[CoreName])
    ensures CoreName !in old(env.registry) ==>
      BindsAll(env, lib) && forall y: Var | y in old(env.Repr) :: y.place == old(y.place)
  {
    ghost var settled := CoreName !in env.registry;
    ghost var start := env.Repr;
    ghost var keys := if settled then {} else env.registry[CoreName].interned.Keys;
    ghost var nsVar := PrepareCore(env);
    ghost var core := env.registry[CoreName];
    assert core.interned.Keys == keys + {UnqualifiedSymbol(NsVarName)};
    ghost var vars := InternAll(env, lib, settled);
    assert fresh(env.Repr - start);
    assert core.interned.Keys == keys + {UnqualifiedSymbol(NsVarName)} + Names(lib.Keys);
    assert UnqualifiedSymbol(NsVarName) !in Names(lib.Keys);
    env.ResolvedVarsBelong(Core.NsName, NsVarName);
    assert env.Resolve(Core.NsName, NsVarName) == Some(nsVar);
    label beforeSet:
    var r := Rt.SetCurrentNs(env, CoreName);
    if settled {
      forall n | n in lib
        ensures vars[n].place == old@beforeSet(vars[n].place)
      {
      }
      HoldsBinds(env, lib, vars);
    }
  }

  /**
   * `add_to_env`: the core library added to the environment, the core
   * namespace made current. On an environment without a core namespace
   * (as `new_env` calls it), every library function is bound under its own
   * name and no var that existed before changes.
   */
  method AddToEnv(env: Env)
    requires env.Valid()
    modifies env.Repr
    ensures env.Valid() && old(env.Repr) <= env.Repr && fresh(env.Repr - old(env.Repr))
    ensures env.registry.Keys == old(env.registry).Keys + {CoreName}
    ensures forall k | k in old(env.registry) :: env.registry[k] == old(env.registry)[k]
    ensures forall k | k in old(env.registry) && k != CoreName ::
      env.registry[k].interned == old(env.registry[k].interned) && env.registry[k].referred == old(env.registry[k].referred)
    ensures env.registry[CoreName].interned.Keys ==
      old(if CoreName in env.registry then env.registry[CoreName].interned.Keys else {}) +
      {UnqualifiedSymbol(NsVarName)} + Names(Library.Keys)
    ensures env.registry[CoreName].referred == old(if CoreName in env.registry then env.registry[CoreName].referred else map[])
    ensures CurrentNs(env) == Done(env.registry[CoreName])
    ensures CoreName !in old(env.registry) ==>
      BindsAll(env, Library) && Rt.NamedByCore(env) && forall y: Var | y in old(env.Repr) :: y.place == old(y.place)
  {
    ghost var settled := CoreName !in env.registry;
    assert NsVarName !in Library;
    AddLibrary(env, Library);
    if settled {
      LibraryNamesCore(env);
    }
  }

  /** `new_env`: an empty environment with the core namespace added, current and holding the library. */
  method NewEnv() returns (env: Env)
    ensures env.Valid() && fresh(env)
    ensures env.registry.Keys == {CoreName}
    ensures CurrentNs(env) == Done(env.registry[CoreName])
    ensures BindsAll(env, Library)
  {
    env := new Env.NewEmpty();
    ghost var before := env.registry;
    AddToEnv(env);
    assert env.registry.Keys == before.Keys + {CoreName};
    assert before.Keys == {};
  }
}
