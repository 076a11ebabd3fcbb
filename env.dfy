/**
 * The environment: the registry of namespaces by name. Each namespace is a
 * shared `RefCell` in the source; here it is an object, and `Repr` collects
 * every object the environment can reach (itself, its namespaces and their
 * vars) so that methods can say what they may change.
 */
module Envs {
  import opened Wrappers
  import opened Values
  import opened Symbols
  import opened Namespaces

  class Env {
    var registry: map<UnqualifiedSymbol, Namespace>
    ghost var Repr: set<object>

    /** Every namespace is registered under its own name, and it and its vars belong to `Repr`. */
    ghost predicate Valid()
      reads this, registry.Values
    {
      this in Repr &&
      forall k | k in registry ::
        registry[k] in Repr && registry[k].name == k &&
        registry[k].interned.Values <= Repr && registry[k].referred.Values <= Repr
    }

    /** `Env::new_empty`: no namespaces. */
    constructor NewEmpty()
      ensures Valid() && fresh(Repr)
      ensures registry == map[]
    {
      registry := map[];
      Repr := {this};
    }

    /** `get_namespace` (and its `_ref`/`_mut` borrowing forms): the namespace registered under `name`, if any. */
    function GetNamespace(name: UnqualifiedSymbol): (r: Option<Namespace>)
      reads this
      ensures r.Some? <==> name in registry
      ensures r.Some? ==> r.value == registry[name]
    {
      if name in registry then Some(registry[name]) else None
    }

    /** `namespaces`: every registered name with its namespace (the hash map's iteration order is not modelled). */
    function Namespaces(): (r: set<(UnqualifiedSymbol, Namespace)>)
      reads this
      ensures forall k | k in registry :: (k, registry[k]) in r
      ensures forall p | p in r :: p.0 in registry && registry[p.0] == p.1
    {
      set k | k in registry :: (k, registry[k])
    }

    /** A pair is listed by `namespaces` exactly when looking its name up finds its namespace. */
    lemma NamespacesAreLookups(k: UnqualifiedSymbol, ns: Namespace)
      ensures (k, ns) in Namespaces() <==> GetNamespace(k) == Some(ns)
    {
    }

    /**
     * `Resolve` of a namespace name and a var name, as a pair or as a
     * qualified symbol: the var the namespace interns or refers to under that
     * name, or nothing when either is missing.
     */
    function Resolve(ns: string, n: string): (r: Option<Var>)
      reads this, registry.Values
      ensures UnqualifiedSymbol(ns) !in registry ==> r == None
      ensures UnqualifiedSymbol(ns) in registry ==> r == registry[UnqualifiedSymbol(ns)].GetInternedOrReferredVar(UnqualifiedSymbol(n))
    {
      match GetNamespace(UnqualifiedSymbol(ns))
      case None => None
      case Some(namespace) => namespace.GetInternedOrReferredVar(UnqualifiedSymbol(n))
    }

    /** A namespace's own name finds it, and whatever resolves belongs to the environment. */
    lemma ResolvedVarsBelong(ns: string, n: string)
      requires Valid()
      ensures GetNamespace(UnqualifiedSymbol(ns)).Some? ==> GetNamespace(UnqualifiedSymbol(ns)).value.name.name == ns
      ensures Resolve(ns, n).Some? ==> Resolve(ns, n).value in Repr
    {
      var k := UnqualifiedSymbol(ns);
      if k in registry {
        var space := registry[k];
        var x := UnqualifiedSymbol(n);
        if x in space.interned {
          assert space.interned[x] in space.interned.Values;
        } else if x in space.referred {
          assert space.referred[x] in space.referred.Values;
        }
      }
    }

    /** Two names never share one namespace object. */
    lemma NamespacesAreDistinct(a: UnqualifiedSymbol, b: UnqualifiedSymbol)
      requires Valid() && a in registry && b in registry && a != b
      ensures registry[a] != registry[b]
    {
    }

    /** `find_or_create_namespace` (and its `_mut` form): the registered namespace, or a fresh empty one registered under the name. */
    method FindOrCreateNamespace(name: UnqualifiedSymbol) returns (ns: Namespace)
      requires Valid()
      modifies this
      ensures Valid() && old(Repr) <= Repr && fresh(Repr - old(Repr))
      ensures name in registry && ns == registry[name]
      ensures name in old(registry) ==> registry == old(registry) && Repr == old(Repr)
      ensures name !in old(registry) ==>
        fresh(ns) && registry == old(registry)[name := ns] && Repr == old(Repr) + {ns} &&
        ns.interned == map[] && ns.referred == map[] && ns.aliases == map[]
    {
      if name in registry {
        ns := registry[name];
      } else {
        ns := new Namespace.NewEmpty(name);
        registry := registry[name := ns];
        Repr := Repr + {ns};
      }
    }

    /** `remove_namespace`: unregisters the name and hands back the entry it had. */
    method RemoveNamespace(name: UnqualifiedSymbol) returns (r: Option<(UnqualifiedSymbol, Namespace)>)
      requires Valid()
      modifies this
      ensures Valid() && Repr == old(Repr)
      ensures registry == old(registry) - {name}
      ensures r == if name in old(registry) then Some((name, old(registry)[name])) else None
    {
      if name in registry {
        r := Some((name, registry[name]));
        registry := registry - {name};
      } else {
        r := None;
      }
    }

    /**
     * `Intern` of a namespace name and a var name: the namespace is found or
     * created, and the var interned there is bound to `v`, in place when it
     * exists. Every other var keeps its value.
     */
    method Intern(ns: string, n: string, v: Value)
      requires Valid()
      modifies Repr
      ensures Valid() && old(Repr) <= Repr && fresh(Repr - old(Repr))
      ensures registry.Keys == old(registry).Keys + {UnqualifiedSymbol(ns)}
      ensures forall k | k in old(registry) :: registry[k] == old(registry)[k]
      ensures Resolve(ns, n).Some? && Resolve(ns, n).value.place == Some(v)
      ensures forall k | k in old(registry) && k != UnqualifiedSymbol(ns) ::
        registry[k].interned == old(registry[k].interned) && registry[k].referred == old(registry[k].referred)
      ensures forall x: Var | x in old(Repr) && Some(x) != Resolve(ns, n) :: x.place == old(x.place)
      ensures UnqualifiedSymbol(n) in registry[UnqualifiedSymbol(ns)].interned
      ensures registry[UnqualifiedSymbol(ns)].interned ==
        old(if UnqualifiedSymbol(ns) in registry then registry[UnqualifiedSymbol(ns)].interned else map[])
          [UnqualifiedSymbol(n) := registry[UnqualifiedSymbol(ns)].interned[UnqualifiedSymbol(n)]]
      ensures registry[UnqualifiedSymbol(ns)].referred ==
        old(if UnqualifiedSymbol(ns) in registry then registry[UnqualifiedSymbol(ns)].referred else map[])
      ensures UnqualifiedSymbol(ns) in old(registry) && UnqualifiedSymbol(n) in old(registry[UnqualifiedSymbol(ns)].interned) ==>
        registry[UnqualifiedSymbol(ns)].interned[UnqualifiedSymbol(n)] == old(registry[UnqualifiedSymbol(ns)].interned[UnqualifiedSymbol(n)])
      ensures !(UnqualifiedSymbol(ns) in old(registry) && UnqualifiedSymbol(n) in old(registry[UnqualifiedSymbol(ns)].interned)) ==>
        fresh(registry[UnqualifiedSymbol(ns)].interned[UnqualifiedSymbol(n)])
    {
      var space := FindOrCreateNamespace(UnqualifiedSymbol(ns));
      InternInto(UnqualifiedSymbol(ns), UnqualifiedSymbol(n), v);
    }

    /** The namespace registered under `k` interns `v` under `x`; every other var keeps its value. */
    method InternInto(k: UnqualifiedSymbol, x: UnqualifiedSymbol, v: Value)
      requires Valid() && k in registry
      modifies Repr
      ensures Valid() && old(Repr) <= Repr && fresh(Repr - old(Repr))
      ensures registry == old(registry)
      ensures x in registry[k].interned && registry[k].interned[x].place == Some(v)
      ensures registry[k].interned == old(registry[k].interned)[x := registry[k].interned[x]]
      ensures registry[k].referred == old(registry[k].referred)
      ensures x in old(registry[k].interned) ==> registry[k].interned[x] == old(registry[k].interned[x])
      ensures x !in old(registry[k].interned) ==> fresh(registry[k].interned[x])
      ensures forall j | j in registry && j != k ::
        registry[j].interned == old(registry[j].interned) && registry[j].referred == old(registry[j].referred)
      ensures forall y: Var | y in old(Repr) && y != registry[k].interned[x] :: y.place == old(y.place)
    {
      var space := registry[k];
      if x in space.interned {
        assert space.interned[x] in space.interned.Values;
      }
      space.Intern(x, v);
      Repr := Repr + {space.interned[x]};
    }

    /**
     * `declare` on the namespace registered under `ns`: a fresh unbound var
     * is interned there under `n`. Every existing var keeps its value.
     */
    method Declare(ns: UnqualifiedSymbol, n: UnqualifiedSymbol)
      requires Valid() && ns in registry
      modifies Repr
      ensures Valid() && old(Repr) <= Repr && fresh(Repr - old(Repr))
      ensures registry == old(registry)
      ensures Resolve(ns.name, n.name).Some? && Resolve(ns.name, n.name).value.place == None
      ensures fresh(Resolve(ns.name, n.name).value)
      ensures n in registry[ns].interned && registry[ns].interned == old(registry[ns].interned)[n := registry[ns].interned[n]]
      ensures registry[ns].referred == old(registry[ns].referred)
      ensures forall k | k in registry && k != ns ::
        registry[k].interned == old(registry[k].interned) && registry[k].referred == old(registry[k].referred)
      ensures forall x: Var | x in old(Repr) :: x.place == old(x.place)
    {
      var space := registry[ns];
      space.Declare(n);
      Repr := Repr + {space.interned[n]};
    }
  }
}
