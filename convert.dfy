/** Conversions into values, symbols and collections. */
module Convert {
  import opened Values
  import Symbols
  import Keywords
  import Maps

  /**
   * `From<Keyword> for Symbol`: the same namespace and name, so the symbol
   * prints as the keyword without its leading colon.
   */
  function SymbolFromKeyword(k: Keywords.Keyword): (s: Symbols.Symbol)
    ensures Symbols.Name(s) == Keywords.Name(k)
    ensures Symbols.IsQualified(s) <==> Keywords.IsQualified(k)
    ensures Keywords.Show(k) == ":" + Symbols.Show(s)
  {
    match k
    case Unqualified(u) => Symbols.Unqualified(Keywords.UnqualifiedToSymbol(u))
    case Qualified(q) => Symbols.Qualified(Keywords.QualifiedToSymbol(q))
  }

  /** Keywords with different text give different symbols. */
  lemma SymbolFromKeywordInjective(a: Keywords.Keyword, b: Keywords.Keyword)
    requires SymbolFromKeyword(a) == SymbolFromKeyword(b)
    ensures a == b
  {
  }

  /**
   * `FromIterator<(K, V)> for Map`: starting from the empty map, each pair is
   * inserted in turn, replacing the value of a key already present.
   */
  method CollectMap(pairs: seq<(Value, Value)>) returns (m: map<Value, Value>)
    ensures m == Maps.FromPairs(pairs)
  {
    m := map[];
    var i := 0;
    while i < |pairs|
      invariant 0 <= i <= |pairs|
      invariant m == Maps.FromPairs(pairs[..i])
    {
      assert pairs[..i + 1][..i] == pairs[..i];
      m := m[pairs[i].0 := pairs[i].1];
      i := i + 1;
    }
    assert pairs[..|pairs|] == pairs;
  }
}
