/**
 * Keyword names: `UnqualifiedKeyword` (`:n`), `QualifiedKeyword` (`:ns/n`)
 * and `Keyword`, plus the conversions between keyword and symbol names.
 */
module Keywords {
  import opened Wrappers
  import Symbols

  datatype UnqualifiedKeyword = UnqualifiedKeyword(name: string)

  datatype QualifiedKeyword = QualifiedKeyword(namespace: string, name: string)

  datatype Keyword =
    | Unqualified(unqualified: UnqualifiedKeyword)
    | Qualified(qualified: QualifiedKeyword)

  // ---------------------------------------------------------------- UnqualifiedKeyword

  /** `FromStr` never fails: the text becomes the name as it is. */
  function UnqualifiedFromStr(text: string): (r: Result<UnqualifiedKeyword, ()>)
    ensures r.Ok? && r.value.name == text
  {
    Ok(UnqualifiedKeyword(text))
  }

  /** Display of an unqualified keyword: `:` and the name. */
  function ShowUnqualified(k: UnqualifiedKeyword): string
  {
    ":" + k.name
  }

  /** `From<UnqualifiedSymbol>`: keeps the name. */
  function UnqualifiedFromSymbol(s: Symbols.UnqualifiedSymbol): (k: UnqualifiedKeyword)
    ensures k.name == s.name
  {
    UnqualifiedKeyword(s.name)
  }

  /** `UnqualifiedSymbol`'s `From<UnqualifiedKeyword>`: keeps the name. */
  function UnqualifiedToSymbol(k: UnqualifiedKeyword): (s: Symbols.UnqualifiedSymbol)
    ensures s.name == k.name
  {
    Symbols.UnqualifiedSymbol(k.name)
  }

  // ---------------------------------------------------------------- QualifiedKeyword

  /** Building from a pair keeps the name of each component. */
  function QualifiedFromPair(ns: UnqualifiedKeyword, n: UnqualifiedKeyword): (q: QualifiedKeyword)
    ensures q.namespace == ns.name && q.name == n.name
  {
    QualifiedKeyword(ns.name, n.name)
  }

  /** Display of a qualified keyword: `:ns/n`. */
  function ShowQualified(q: QualifiedKeyword): string
  {
    ":" + q.namespace + "/" + q.name
  }

  /** `From<QualifiedSymbol>`: keeps the namespace and the name. */
  function QualifiedFromSymbol(s: Symbols.QualifiedSymbol): (k: QualifiedKeyword)
    ensures k.namespace == s.namespace && k.name == s.name
  {
    QualifiedKeyword(s.namespace, s.name)
  }

  /** `QualifiedSymbol`'s `From<QualifiedKeyword>`: keeps the namespace and the name. */
  function QualifiedToSymbol(k: QualifiedKeyword): (s: Symbols.QualifiedSymbol)
    ensures s.namespace == k.namespace && s.name == k.name
  {
    Symbols.QualifiedSymbol(k.namespace, k.name)
  }

  // ---------------------------------------------------------------- Keyword

  /** `From<(UnqualifiedKeyword, UnqualifiedKeyword)>`: always qualified. */
  function FromPair(ns: UnqualifiedKeyword, n: UnqualifiedKeyword): (k: Keyword)
    ensures IsQualified(k) && MaybeNamespace(k) == Some(ns.name) && Name(k) == n.name
  {
    Qualified(QualifiedFromPair(ns, n))
  }

  /** `From<(Option<UnqualifiedKeyword>, UnqualifiedKeyword)>`: qualified exactly when a namespace is given. */
  function FromOption(ns: Option<UnqualifiedKeyword>, n: UnqualifiedKeyword): (k: Keyword)
    ensures IsQualified(k) <==> ns.Some?
    ensures Name(k) == n.name
    ensures MaybeNamespace(k) == if ns.Some? then Some(ns.value.name) else None
  {
    match ns
    case Some(ns) => Qualified(QualifiedFromPair(ns, n))
    case None => Unqualified(n)
  }

  predicate IsUnqualified(k: Keyword)
  {
    k.Unqualified?
  }

  predicate IsQualified(k: Keyword)
  {
    k.Qualified?
  }

  function Name(k: Keyword): string
  {
    match k
    case Unqualified(u) => u.name
    case Qualified(q) => q.name
  }

  function MaybeNamespace(k: Keyword): Option<string>
  {
    match k
    case Qualified(q) => Some(q.namespace)
    case Unqualified(_) => None
  }

  /** `namespace()`: the namespace of a qualified keyword; panics on an unqualified one. */
  function NamespacePanicing(k: Keyword): (r: Outcome<string>)
    ensures r.Done? <==> IsQualified(k)
    ensures r.Done? ==> MaybeNamespace(k) == Some(r.value)
  {
    match MaybeNamespace(k)
    case Some(ns) => Done(ns)
    case None => Panic
  }

  /** `try_as_unqualified`: `Ok` with the payload exactly for an unqualified keyword, else `Err` with the keyword. */
  function TryAsUnqualified(k: Keyword): (r: Result<UnqualifiedKeyword, Keyword>)
    ensures r.Ok? <==> IsUnqualified(k)
    ensures r.Ok? ==> Unqualified(r.value) == k
    ensures r.Err? ==> r.error == k
  {
    if k.Unqualified? then Ok(k.unqualified) else Err(k)
  }

  /** `as_unqualified`: the payload, or a panic. */
  function AsUnqualified(k: Keyword): (r: Outcome<UnqualifiedKeyword>)
    ensures r.Done? <==> IsUnqualified(k)
    ensures r.Done? ==> Unqualified(r.value) == k
  {
    match TryAsUnqualified(k)
    case Ok(u) => Done(u)
    case Err(_) => Panic
  }

  /** `try_as_qualified`: `Ok` with the payload exactly for a qualified keyword, else `Err` with the keyword. */
  function TryAsQualified(k: Keyword): (r: Result<QualifiedKeyword, Keyword>)
    ensures r.Ok? <==> IsQualified(k)
    ensures r.Ok? ==> Qualified(r.value) == k
    ensures r.Err? ==> r.error == k
  {
    if k.Qualified? then Ok(k.qualified) else Err(k)
  }

  /** `as_qualified`: the payload, or a panic. */
  function AsQualified(k: Keyword): (r: Outcome<QualifiedKeyword>)
    ensures r.Done? <==> IsQualified(k)
    ensures r.Done? ==> Qualified(r.value) == k
  {
    match TryAsQualified(k)
    case Ok(q) => Done(q)
    case Err(_) => Panic
  }

  /** Display: `:n` or `:ns/n`. */
  function Show(k: Keyword): (r: string)
    ensures r != [] && r[0] == ':'
  {
    match k
    case Unqualified(u) => ShowUnqualified(u)
    case Qualified(q) => ShowQualified(q)
  }

  /** The derived `Ord`, shaped like the one of symbols. */
  function Compare(a: Keyword, b: Keyword): Ordering
  {
    match (a, b)
    case (Unqualified(x), Unqualified(y)) => CompareStrings(x.name, y.name)
    case (Unqualified(_), Qualified(_)) => Less
    case (Qualified(_), Unqualified(_)) => Greater
    case (Qualified(x), Qualified(y)) =>
      var c := CompareStrings(x.namespace, y.namespace);
      if c == Equal then CompareStrings(x.name, y.name) else c
  }

  // ---------------------------------------------------------------- properties

  lemma QualifiedIsNotUnqualified(k: Keyword)
    ensures IsQualified(k) == !IsUnqualified(k)
  {
  }

  /** The derived ordering is a total order's comparison: `Equal` exactly on equal keywords, and swapping flips it. */
  lemma CompareIsConsistent(a: Keyword, b: Keyword)
    ensures Compare(a, b) == Equal <==> a == b
    ensures Compare(b, a) == Flip(Compare(a, b))
  {
    match (a, b)
    case (Unqualified(x), Unqualified(y)) =>
      CompareStringsFlip(x.name, y.name);
    case (Qualified(x), Qualified(y)) =>
      CompareStringsFlip(x.namespace, y.namespace);
      CompareStringsFlip(x.name, y.name);
    case _ =>
  }

  /** Keyword and symbol names convert into each other without loss, in both directions. */
  lemma NameConversionsRoundTrip(u: UnqualifiedKeyword, q: QualifiedKeyword, su: Symbols.UnqualifiedSymbol, sq: Symbols.QualifiedSymbol)
    ensures UnqualifiedFromSymbol(UnqualifiedToSymbol(u)) == u
    ensures UnqualifiedToSymbol(UnqualifiedFromSymbol(su)) == su
    ensures QualifiedFromSymbol(QualifiedToSymbol(q)) == q
    ensures QualifiedToSymbol(QualifiedFromSymbol(sq)) == sq
  {
  }

  /** `name()` and `maybe_namespace()` determine the keyword: rebuilding from them gives it back. */
  lemma ProjectionsRebuild(k: Keyword)
    ensures FromOption(if IsQualified(k) then Some(UnqualifiedKeyword(MaybeNamespace(k).value)) else None,
                       UnqualifiedKeyword(Name(k))) == k
  {
  }

  /**
   * A witness for one input: equality of keywords is on the (namespace, name)
   * pair in order, so `:abc/xyz` is not `:xyz/abc`.
   */
  lemma PairOrderMatters()
    ensures FromPair(UnqualifiedKeyword("abc"), UnqualifiedKeyword("xyz")) != FromPair(UnqualifiedKeyword("xyz"), UnqualifiedKeyword("abc"))
  {
  }
}
