/**
 * Symbol names: `UnqualifiedSymbol` (a bare name `n`), `QualifiedSymbol`
 * (a namespace and a name, `ns/n`) and `Symbol`, which is one or the other.
 */
module Symbols {
  import opened Wrappers

  datatype UnqualifiedSymbol = UnqualifiedSymbol(name: string)

  datatype QualifiedSymbol = QualifiedSymbol(namespace: string, name: string)

  datatype Symbol =
    | Unqualified(unqualified: UnqualifiedSymbol)
    | Qualified(qualified: QualifiedSymbol)

  // ---------------------------------------------------------------- UnqualifiedSymbol

  /** `FromStr` never fails: the text becomes the name as it is. */
  function UnqualifiedFromStr(text: string): (r: Result<UnqualifiedSymbol, ()>)
    ensures r.Ok? && r.value.name == text
  {
    Ok(UnqualifiedSymbol(text))
  }

  /** Display of an unqualified symbol: the bare name. */
  function ShowUnqualified(s: UnqualifiedSymbol): string
  {
    s.name
  }

  // ---------------------------------------------------------------- QualifiedSymbol

  /** Building from a pair keeps the name of each component. */
  function QualifiedFromPair(ns: UnqualifiedSymbol, n: UnqualifiedSymbol): (q: QualifiedSymbol)
    ensures q.namespace == ns.name && q.name == n.name
  {
    QualifiedSymbol(ns.name, n.name)
  }

  /** Display of a qualified symbol: `ns/n`. */
  function ShowQualified(q: QualifiedSymbol): string
  {
    q.namespace + "/" + q.name
  }

  // ---------------------------------------------------------------- Symbol

  /** `From<(UnqualifiedSymbol, UnqualifiedSymbol)>`: always qualified. */
  function FromPair(ns: UnqualifiedSymbol, n: UnqualifiedSymbol): (s: Symbol)
    ensures IsQualified(s) && Namespace(s) == Some(ns.name) && Name(s) == n.name
  {
    Qualified(QualifiedFromPair(ns, n))
  }

  /** `From<(Option<UnqualifiedSymbol>, UnqualifiedSymbol)>`: qualified exactly when a namespace is given. */
  function FromOption(ns: Option<UnqualifiedSymbol>, n: UnqualifiedSymbol): (s: Symbol)
    ensures IsQualified(s) <==> ns.Some?
    ensures Name(s) == n.name
    ensures Namespace(s) == if ns.Some? then Some(ns.value.name) else None
  {
    match ns
    case Some(ns) => Qualified(QualifiedFromPair(ns, n))
    case None => Unqualified(n)
  }

  predicate IsUnqualified(s: Symbol)
  {
    s.Unqualified?
  }

  predicate IsQualified(s: Symbol)
  {
    s.Qualified?
  }

  function Name(s: Symbol): string
  {
    match s
    case Unqualified(u) => u.name
    case Qualified(q) => q.name
  }

  function Namespace(s: Symbol): Option<string>
  {
    match s
    case Qualified(q) => Some(q.namespace)
    case Unqualified(_) => None
  }

  /** `namespace_panicing`: the namespace of a qualified symbol; panics on an unqualified one. */
  function NamespacePanicing(s: Symbol): (r: Outcome<string>)
    ensures r.Done? <==> IsQualified(s)
    ensures r.Done? ==> Namespace(s) == Some(r.value)
  {
    match Namespace(s)
    case Some(ns) => Done(ns)
    case None => Panic
  }

  /** Display: `n` or `ns/n`. */
  function Show(s: Symbol): string
  {
    match s
    case Unqualified(u) => ShowUnqualified(u)
    case Qualified(q) => ShowQualified(q)
  }

  /** The derived `Ord`: every unqualified symbol sorts before every qualified one, then by the components. */
  function Compare(a: Symbol, b: Symbol): Ordering
  {
    match (a, b)
    case (Unqualified(x), Unqualified(y)) => CompareStrings(x.name, y.name)
    case (Unqualified(_), Qualified(_)) => Less
    case (Qualified(_), Unqualified(_)) => Greater
    case (Qualified(x), Qualified(y)) =>
      var c := CompareStrings(x.namespace, y.namespace);
      if c == Equal then CompareStrings(x.name, y.name) else c
  }

  // ---------------------------------------------------------------- properties

  /** Every symbol is exactly one of qualified and unqualified. */
  lemma QualifiedIsNotUnqualified(s: Symbol)
    ensures IsQualified(s) == !IsUnqualified(s)
  {
  }

  /** `name()` and `namespace()` determine the symbol: rebuilding from them gives it back. */
  lemma ProjectionsRebuild(s: Symbol)
    ensures FromOption(if IsQualified(s) then Some(UnqualifiedSymbol(Namespace(s).value)) else None,
                       UnqualifiedSymbol(Name(s))) == s
  {
  }

  /** The derived ordering is a total order's comparison: `Equal` exactly on equal symbols, and swapping flips it. */
  lemma CompareIsConsistent(a: Symbol, b: Symbol)
    ensures Compare(a, b) == Equal <==> a == b
    ensures Compare(b, a) == Flip(Compare(a, b))
  {
    match (a, b)
    case (Unqualified(x), Unqualified(y)) =>
      CompareStringsFlip(x.name, y.name);
    case (Qualified(x), Qualified(y)) =>
      CompareStringsFlip(x.namespace, y.namespace);
      CompareStringsFlip(x.name, y.name);
    case _ =>
  }

  predicate NoSlash(text: string)
  {
    forall i :: 0 <= i < |text| ==> text[i] != '/'
  }

  /** The index of the first `/` in `text`, or `|text|` when there is none. */
  function SlashIndex(text: string): (r: nat)
    ensures r <= |text|
  {
    if text == [] then 0
    else if text[0] == '/' then 0
    else 1 + SlashIndex(text[1..])
  }

  lemma {:induction false} SlashIndexOfJoin(ns: string, n: string)
    requires NoSlash(ns)
    ensures SlashIndex(ns + "/" + n) == |ns|
  {
    if ns != [] {
      assert (ns + "/" + n)[1..] == ns[1..] + "/" + n;
      SlashIndexOfJoin(ns[1..], n);
    }
  }

  lemma {:induction false} SlashIndexOfPlain(text: string)
    requires NoSlash(text)
    ensures SlashIndex(text) == |text|
  {
    if text != [] {
      SlashIndexOfPlain(text[1..]);
    }
  }

  /**
   * Display is injective on symbols whose parts contain no `/` (the only
   * symbols the reader produces); `a/b` as one name and `a` / `b` as a
   * pair would display alike.
   */
  lemma ShowInjective(a: Symbol, b: Symbol)
    requires NoSlash(Name(a)) && NoSlash(Name(b))
    requires Namespace(a).Some? ==> NoSlash(Namespace(a).value)
    requires Namespace(b).Some? ==> NoSlash(Namespace(b).value)
    requires Show(a) == Show(b)
    ensures a == b
  {
    var s := Show(a);
    SlashPositionOf(a);
    SlashPositionOf(b);
    if a.Qualified? {
      var x, y := a.qualified, b.qualified;
      assert |x.namespace| == |y.namespace|;
      assert x.namespace == s[..|x.namespace|] == y.namespace;
      assert x.name == s[|x.namespace| + 1..] == y.name;
    }
  }

  /** Where the first `/` of a displayed symbol sits: right after the namespace, or nowhere. */
  lemma SlashPositionOf(a: Symbol)
    requires NoSlash(Name(a))
    requires Namespace(a).Some? ==> NoSlash(Namespace(a).value)
    ensures a.Qualified? ==> SlashIndex(Show(a)) == |a.qualified.namespace| < |Show(a)|
    ensures a.Unqualified? ==> SlashIndex(Show(a)) == |Show(a)|
  {
    match a
    case Qualified(q) => SlashIndexOfJoin(q.namespace, q.name);
    case Unqualified(u) => SlashIndexOfPlain(u.name);
  }
}
