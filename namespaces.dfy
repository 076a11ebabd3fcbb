/**
 * A namespace: a name and the vars it interns or refers to, each under an
 * unqualified symbol. The namespace is shared and updated in place.
 */
module Namespaces {
  import opened Wrappers
  import opened Values
  import opened Symbols

  class Namespace {
    const name: UnqualifiedSymbol
    var interned: map<UnqualifiedSymbol, Var>
    var referred: map<UnqualifiedSymbol, Var>
    var aliases: map<UnqualifiedSymbol, UnqualifiedSymbol>

    /** `Namespace::new_empty`: the name and nothing in it. */
    constructor NewEmpty(name: UnqualifiedSymbol)
      ensures this.name == name
      ensures interned == map[] && referred == map[] && aliases == map[]
    {
      this.name := name;
      interned := map[];
      referred := map[];
      aliases := map[];
    }

    function GetInternedVar(n: UnqualifiedSymbol): (r: Option<Var>)
      reads this
      ensures r.Some? <==> n in interned
      ensures r.Some? ==> r.value == interned[n]
    {
      if n in interned then Some(interned[n]) else None
    }

    function GetReferredVar(n: UnqualifiedSymbol): (r: Option<Var>)
      reads this
      ensures r.Some? <==> n in referred
      ensures r.Some? ==> r.value == referred[n]
    {
      if n in referred then Some(referred[n]) else None
    }

    /** The interned var of that name if there is one, else the referred one: interning shadows referring. */
    function GetInternedOrReferredVar(n: UnqualifiedSymbol): (r: Option<Var>)
      reads this
      ensures r.Some? <==> n in interned || n in referred
      ensures n in interned ==> r == Some(interned[n])
      ensures n !in interned && n in referred ==> r == Some(referred[n])
    {
      match GetInternedVar(n)
      case Some(x) => Some(x)
      case None => GetReferredVar(n)
    }

    /** `interns`: every interned name with its var (the hash map's iteration order is not modelled). */
    function Interns(): (r: set<(UnqualifiedSymbol, Var)>)
      reads this
      ensures forall n | n in interned :: (n, interned[n]) in r
      ensures forall p | p in r :: p.0 in interned && interned[p.0] == p.1
    {
      set n | n in interned :: (n, interned[n])
    }

    /** A pair is listed by `interns` exactly when looking its name up finds its var. */
    lemma InternsAreLookups(n: UnqualifiedSymbol, x: Var)
      ensures (n, x) in Interns() <==> GetInternedVar(n) == Some(x)
    {
    }

    /**
     * `declare`: a fresh unbound var under `n`. A var already interned under
     * `n` is replaced, not unbound: whoever still holds it keeps its value.
     */
    method Declare(n: UnqualifiedSymbol)
      modifies this
      ensures n in interned && fresh(interned[n]) && interned[n].place == None
      ensures interned == old(interned)[n := interned[n]]
      ensures referred == old(referred) && aliases == old(aliases)
    {
      var x := new Var.Unbound();
      interned := interned[n := x];
    }

    /**
     * `intern`: an already interned var is bound to `v` in place; otherwise
     * a fresh var bound to `v` is interned. No other var changes.
     */
    method Intern(n: UnqualifiedSymbol, v: Value)
      modifies this, interned.Values
      ensures n in interned && interned[n].place == Some(v)
      ensures n in old(interned) ==> interned == old(interned)
      ensures n !in old(interned) ==> fresh(interned[n]) && interned == old(interned)[n := interned[n]]
      ensures referred == old(referred) && aliases == old(aliases)
      ensures forall x | x in old(interned.Values) && x != interned[n] :: x.place == old(x.place)
    {
      if n in interned {
        interned[n].Bind(v);
      } else {
        var x := new Var.Bound(v);
        interned := interned[n := x];
      }
    }
  }
}
