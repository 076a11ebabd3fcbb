/** The persistent set: a mathematical set of values. */
module Sets {
  import opened Values

  function NewEmpty(): (r: set<Value>)
    ensures |r| == 0
  {
    {}
  }

  /** `From<Vec<Value>>` and `FromIterator`: the distinct elements of the sequence. */
  function FromSeq(xs: seq<Value>): (r: set<Value>)
    ensures forall i | 0 <= i < |xs| :: xs[i] in r
    ensures forall x | x in r :: x in xs
  {
    set i | 0 <= i < |xs| :: xs[i]
  }

  /** Collecting the members of a set, in any order that lists each once, gives the set back. */
  lemma EnumerateRebuilds(s: set<Value>)
    ensures FromSeq(Enumerate(s)) == s
  {
  }

  /** No element repeats. */
  predicate Distinct(xs: seq<Value>)
  {
    forall i, j | 0 <= i < j < |xs| :: xs[i] != xs[j]
  }

  /** Duplicates collapse: the set is never larger than the sequence, and as large exactly when no element repeats. */
  lemma {:induction false} FromSeqSize(xs: seq<Value>)
    ensures |FromSeq(xs)| <= |xs|
    ensures |FromSeq(xs)| == |xs| <==> Distinct(xs)
  {
    if xs != [] {
      var ys := xs[..|xs| - 1];
      var x := xs[|xs| - 1];
      FromSeqSize(ys);
      FromSeqSnoc(ys, x);
      assert ys + [x] == xs;
      DistinctSnoc(ys, x);
      if x in FromSeq(ys) {
        assert x in ys;
      }
    }
  }

  lemma FromSeqSnoc(ys: seq<Value>, x: Value)
    ensures FromSeq(ys + [x]) == FromSeq(ys) + {x}
  {
    var xs := ys + [x];
    forall y | y in FromSeq(xs) ensures y in FromSeq(ys) + {x} {
      var i :| 0 <= i < |xs| && xs[i] == y;
      if i < |ys| { assert ys[i] == y; }
    }
    forall y | y in FromSeq(ys) ensures y in FromSeq(xs) {
      var i :| 0 <= i < |ys| && ys[i] == y;
      assert xs[i] == y;
    }
    assert xs[|ys|] == x;
  }

  lemma DistinctSnoc(ys: seq<Value>, x: Value)
    ensures Distinct(ys + [x]) <==> Distinct(ys) && x !in ys
  {
    var xs := ys + [x];
    if x in ys {
      var k :| 0 <= k < |ys| && ys[k] == x;
      assert xs[k] == xs[|ys|];
    }
    if Distinct(xs) {
      forall i, j | 0 <= i < j < |ys| ensures ys[i] != ys[j] {
        assert xs[i] == ys[i] && xs[j] == ys[j];
      }
    }
    if Distinct(ys) && x !in ys {
      forall i, j | 0 <= i < j < |xs| ensures xs[i] != xs[j] {
        if j == |ys| { assert xs[i] == ys[i]; }
        else { assert xs[i] == ys[i] && xs[j] == ys[j]; }
      }
    }
  }
}
