/**
 * Properties of the meaning of evaluation: which forms evaluate to
 * themselves, the special forms, symbol lookup through the current
 * namespace, collections evaluated element by element with failures turned
 * into nil, and the order in which an application evaluates its parts.
 */
module SemanticsFacts {
  import opened Wrappers
  import opened Values
  import opened Symbols
  import opened Namespaces
  import opened Envs
  import opened Semantics

  // ---------------------------------------------------------------- runs left to right

  /** A run that evaluates yields each outcome's value, in order. */
  lemma {:induction false} RunItemsValues(outcome: seq<Option<Run<Value>>>, lo: nat, hi: nat, ys: seq<Value>)
    requires lo <= hi <= |outcome| && RunItems(outcome, lo, hi) == Some(Ran(ys))
    ensures |ys| == hi - lo
    ensures forall j | lo <= j < hi :: outcome[j] == Some(Ran(ys[j - lo]))
    decreases hi
  {
    if hi > lo {
      var zs := RunItems(outcome, lo, hi - 1).value.value;
      RunItemsValues(outcome, lo, hi - 1, zs);
      assert ys == zs + [outcome[hi - 1].value.value];
    }
  }

  /** When every outcome from `lo` to `hi` is a value, the run evaluates. */
  lemma {:induction false} RunItemsAllRan(outcome: seq<Option<Run<Value>>>, lo: nat, hi: nat)
    requires lo <= hi <= |outcome|
    requires forall j | lo <= j < hi :: outcome[j].Some? && outcome[j].value.Ran?
    ensures RunItems(outcome, lo, hi).Some? && RunItems(outcome, lo, hi).value.Ran?
    decreases hi
  {
    if hi > lo {
      RunItemsAllRan(outcome, lo, hi - 1);
    }
  }

  /**
   * The first outcome that stops decides the run: everything before it
   * evaluated, and whatever comes after it (even an undetermined outcome)
   * is never looked at.
   */
  lemma {:induction false} FirstStopDecides(outcome: seq<Option<Run<Value>>>, lo: nat, i: nat, hi: nat, w: Stop)
    requires lo <= i < hi <= |outcome|
    requires forall j | lo <= j < i :: outcome[j].Some? && outcome[j].value.Ran?
    requires outcome[i] == Some(Stopped(w))
    ensures RunItems(outcome, lo, hi) == Some(Stopped(w))
    decreases hi
  {
    if hi - 1 == i {
      RunItemsAllRan(outcome, lo, i);
    } else {
      FirstStopDecides(outcome, lo, i, hi - 1, w);
    }
  }

  // ---------------------------------------------------------------- forms that evaluate to themselves

  /** Nil, booleans, numbers, strings, keywords, callables and handles evaluate to themselves, whatever the state. */
  lemma SelfEvaluating(env: Env, v: Value, fuel: nat)
    requires env.Valid()
    requires v.Nil? || v.Boolean? || v.Integer? || v.Float? || v.String? || v.Keyword? || v.AFn? || v.Handle?
    ensures Denote(env, v, fuel) == Some(Ran(Ok(v)))
    ensures DenoteNil(env, v, fuel) == Some(Ran(v))
  {
  }

  /** A var of the environment evaluates to its value when bound, and to itself when unbound. */
  lemma VarEvaluation(env: Env, x: Var, fuel: nat)
    requires env.Valid() && x in env.Repr
    ensures x.place.Some? ==> Denote(env, Var(x), fuel) == Some(Ran(Ok(x.place.value)))
    ensures x.place.None? ==> Denote(env, Var(x), fuel) == Some(Ran(Ok(Var(x))))
  {
  }

  // ---------------------------------------------------------------- special forms

  /**
   * The empty list is itself; a `comment` form is nil whatever follows the
   * head; a `quote` form is its second element, unevaluated, and panics
   * when there is none.
   */
  lemma SpecialForms(env: Env, v: Value, fuel: nat)
    requires env.Valid() && v.List?
    ensures v.items == [] ==> Denote(env, v, fuel) == Some(Ran(Ok(v)))
    ensures IsComment(v) ==> Denote(env, v, fuel) == Some(Ran(Ok(Nil)))
    ensures IsQuote(v) && |v.items| >= 2 ==> Denote(env, v, fuel) == Some(Ran(Ok(v.items[1])))
    ensures IsQuote(v) && |v.items| < 2 ==> Denote(env, v, fuel) == Some(Stopped(Panicked))
  {
  }

  // ---------------------------------------------------------------- symbols

  /**
   * An unqualified symbol is looked up exactly as the symbol qualified by
   * the current namespace's name, errors included; with no current
   * namespace the lookup panics.
   */
  lemma UnqualifiedLooksInCurrent(env: Env, u: UnqualifiedSymbol)
    requires env.Valid()
    ensures CurrentNs(env).Panic? ==> Lookup(env, Unqualified(u)) == Panic
    ensures CurrentNs(env).Done? ==>
      Lookup(env, Unqualified(u)) == Lookup(env, Qualified(QualifiedSymbol(CurrentNs(env).value.name.name, u.name)))
  {
  }

  /**
   * A symbol that names nothing, or names an unbound var, evaluates through
   * `eval` to nil; the error `eval2` reports carries the qualified symbol.
   */
  lemma MissingSymbolIsNil(env: Env, s: Symbol, fuel: nat)
    requires env.Valid() && Qualify(env, s).Done?
    ensures var q := Qualify(env, s).value;
      env.Resolve(q.namespace, q.name).None? ==> Denote(env, Symbol(s), fuel) == Some(Ran(Err(NoSuchVar(Qualified(q)))))
    ensures var q := Qualify(env, s).value;
      env.Resolve(q.namespace, q.name).Some? && env.Resolve(q.namespace, q.name).value.place.None? ==>
      Denote(env, Symbol(s), fuel) == Some(Ran(Err(UnboundVar(Qualified(q)))))
    ensures var q := Qualify(env, s).value;
      (env.Resolve(q.namespace, q.name).None? || env.Resolve(q.namespace, q.name).value.place.None?) ==>
      DenoteNil(env, Symbol(s), fuel) == Some(Ran(Nil))
  {
  }

  // ---------------------------------------------------------------- collections

  /** A vector evaluates to the vector of what each item evaluates to through `eval`, in order. */
  lemma VectorElementwise(env: Env, v: Value, fuel: nat)
    requires env.Valid() && v.Vector? && Denote(env, v, fuel).Some? && Denote(env, v, fuel).value.Ran?
    ensures var w := Denote(env, v, fuel).value.value;
      w.Ok? && w.value.Vector? && |w.value.items| == |v.items| &&
      forall j | 0 <= j < |v.items| :: DenoteNil(env, v.items[j], fuel) == Some(Ran(w.value.items[j]))
  {
    var outcome := ItemOutcomes(env, v, |v.items|, fuel);
    var ys := DenoteItems(env, v, 0, |v.items|, fuel).value.value;
    RunItemsValues(outcome, 0, |v.items|, ys);
  }

  /** A vector whose items all evaluate evaluates; none of its items can stop it then. */
  lemma VectorEvaluates(env: Env, v: Value, fuel: nat)
    requires env.Valid() && v.Vector?
    requires forall j | 0 <= j < |v.items| :: DenoteNil(env, v.items[j], fuel).Some? && DenoteNil(env, v.items[j], fuel).value.Ran?
    ensures Denote(env, v, fuel).Some? && Denote(env, v, fuel).value.Ran?
  {
    RunItemsAllRan(ItemOutcomes(env, v, |v.items|, fuel), 0, |v.items|);
  }

  /**
   * An item whose symbol fails to resolve does not fail the vector: through
   * `eval` it becomes nil in its place.
   */
  lemma NestedFailureIsNil(env: Env, v: Value, j: nat, e: EvalError, fuel: nat)
    requires env.Valid() && v.Vector? && j < |v.items|
    requires Denote(env, v.items[j], fuel) == Some(Ran(Err(e)))
    requires Denote(env, v, fuel).Some? && Denote(env, v, fuel).value.Ran?
    ensures Denote(env, v, fuel).value.value.value.items[j] == Nil
  {
    VectorElementwise(env, v, fuel);
  }

  /** The first item of a vector that stops, every item before it evaluating, stops the vector for its reason. */
  lemma VectorStopsAtFirst(env: Env, v: Value, i: nat, w: Stop, fuel: nat)
    requires env.Valid() && v.Vector? && i < |v.items|
    requires forall j | 0 <= j < i :: DenoteNil(env, v.items[j], fuel).Some? && DenoteNil(env, v.items[j], fuel).value.Ran?
    requires DenoteNil(env, v.items[i], fuel) == Some(Stopped(w))
    ensures Denote(env, v, fuel) == Some(Stopped(w))
  {
    FirstStopDecides(ItemOutcomes(env, v, |v.items|, fuel), 0, i, |v.items|, w);
  }

  /** A set evaluates to the set of what its members evaluate to through `eval`. */
  lemma SetElementwise(env: Env, v: Value, fuel: nat)
    requires env.Valid() && v.Set? && Denote(env, v, fuel).Some? && Denote(env, v, fuel).value.Ran?
    ensures var w := Denote(env, v, fuel).value.value;
      w.Ok? && w.value.Set? &&
      (forall x | x in v.members :: DenoteNil(env, x, fuel).Some? && DenoteNil(env, x, fuel).value.Ran? &&
        DenoteNil(env, x, fuel).value.value in w.value.members) &&
      (forall y | y in w.value.members :: exists x | x in v.members :: DenoteNil(env, x, fuel) == Some(Ran(y)))
  {
    var outcome := MemberOutcomes(env, v, fuel);
    assert RunAll(v.members, outcome) == Some(Ran(()));
    var w := RanSet(v.members, outcome);
    forall y | y in w
      ensures exists x | x in v.members :: DenoteNil(env, x, fuel) == Some(Ran(y))
    {
      var x :| x in v.members && outcome[x].value.value == y;
      assert DenoteNil(env, x, fuel) == Some(Ran(y));
    }
  }

  /**
   * A map evaluates to a map with the same keys, each key evaluating to
   * itself through `eval`, and each value the evaluation of the entry's
   * value through `eval`.
   */
  lemma MapElementwise(env: Env, v: Value, fuel: nat)
    requires env.Valid() && v.Map? && Denote(env, v, fuel).Some? && Denote(env, v, fuel).value.Ran?
    ensures var w := Denote(env, v, fuel).value.value;
      w.Ok? && w.value.Map? && w.value.entries.Keys == v.entries.Keys &&
      forall k | k in v.entries ::
        DenoteNil(env, k, fuel) == Some(Ran(k)) && DenoteNil(env, v.entries[k], fuel) == Some(Ran(w.value.entries[k]))
  {
    var keyOutcome := KeyOutcomes(env, v, fuel);
    var outcome := ValueOutcomes(env, v, fuel);
    assert KeysStay(v.entries.Keys, keyOutcome);
    assert RunAll(v.entries.Keys, outcome) == Some(Ran(()));
  }

  // ---------------------------------------------------------------- applications

  /**
   * An application evaluates its arguments before its head: when an
   * argument stops, the form stops for that reason, whatever the head
   * would do; once the arguments evaluate, a head that stops stops the form.
   */
  lemma ArgumentsFirst(env: Env, v: Value, fuel: nat)
    requires env.Valid() && v.List? && v.items != [] && !IsComment(v) && !IsQuote(v) && fuel > 0
    ensures forall w | DenoteItems(env, v, 1, |v.items|, fuel) == Some(Stopped(w)) ::
      Denote(env, v, fuel) == Some(Stopped(w))
    ensures forall w | DenoteItems(env, v, 1, |v.items|, fuel).Some? && DenoteItems(env, v, 1, |v.items|, fuel).value.Ran? &&
      DenoteNil(env, v.items[0], fuel) == Some(Stopped(w)) ::
      Denote(env, v, fuel) == Some(Stopped(w))
  {
  }

  /** An argument that stops, all the ones before it evaluating, stops the application for its reason. */
  lemma ArgumentStopsApplication(env: Env, v: Value, i: nat, w: Stop, fuel: nat)
    requires env.Valid() && v.List? && !IsComment(v) && !IsQuote(v) && fuel > 0 && 1 <= i < |v.items|
    requires forall j | 1 <= j < i :: DenoteNil(env, v.items[j], fuel).Some? && DenoteNil(env, v.items[j], fuel).value.Ran?
    requires DenoteNil(env, v.items[i], fuel) == Some(Stopped(w))
    ensures Denote(env, v, fuel) == Some(Stopped(w))
  {
    FirstStopDecides(ItemOutcomes(env, v, |v.items|, fuel), 1, i, |v.items|, w);
    ArgumentsFirst(env, v, fuel);
  }

  /** Without fuel an application stops with `OutOfFuel` before evaluating anything. */
  lemma NoFuelNoApplication(env: Env, v: Value)
    requires env.Valid() && v.List? && v.items != [] && !IsComment(v) && !IsQuote(v)
    ensures Denote(env, v, 0) == Some(Stopped(OutOfFuel))
  {
  }
}
