/**
 * Term-frequency and TF-IDF vectors of a token list (vectorize_tf and
 * vectorize_tf_idf). The IDF table, a global of the notebook, is passed in.
 */
module Vectorizer {
  import opened SparseVector

  /** The term frequencies of a token list: each distinct token with its number of occurrences. */
  function TfOf(tokens: seq<Token>): SparseVec {
    map t | t in multiset(tokens) :: multiset(tokens)[t] as real
  }

  /** The keys are exactly the distinct tokens, and each count is at least 1. */
  lemma TfKeys(tokens: seq<Token>)
    ensures TfOf(tokens).Keys == set t | t in tokens
    ensures forall t | t in TfOf(tokens) :: 1.0 <= TfOf(tokens)[t]
  {
  }

  /** Counting one more token raises its count by one and leaves the others alone. */
  lemma TfOfSnoc(tokens: seq<Token>, x: Token)
    ensures TfOf(tokens + [x]) == TfOf(tokens)[x := Weight(TfOf(tokens), x) + 1.0]
  {
    assert multiset(tokens + [x]) == multiset(tokens) + multiset{x};
  }

  /** The counts add up to the number of tokens. */
  lemma {:induction false} TfTotal(tokens: seq<Token>)
    ensures Total(TfOf(tokens)) == |tokens| as real
  {
    if tokens == [] {
      assert TfOf(tokens) == map[];
    } else {
      var init, x := tokens[..|tokens| - 1], tokens[|tokens| - 1];
      assert tokens == init + [x];
      TfTotal(init);
      TfOfSnoc(init, x);
      TotalUpdate(TfOf(init), x, Weight(TfOf(init), x) + 1.0);
    }
  }

  /** Every count of a document repeated twice is doubled. */
  lemma TfOfDoubled(tokens: seq<Token>)
    ensures TfOf(tokens + tokens) == Scale(2.0, TfOf(tokens))
  {
    assert multiset(tokens + tokens) == multiset(tokens) + multiset(tokens);
  }

  /** vectorize_tf: counts the tokens in one pass. */
  method VectorizeTf(tokens: seq<Token>) returns (tf: SparseVec)
    ensures tf == TfOf(tokens)
  {
    tf := map[];
    for i := 0 to |tokens|
      invariant tf == TfOf(tokens[..i])
    {
      var token := tokens[i];
      assert tokens[..i + 1] == tokens[..i] + [token];
      TfOfSnoc(tokens[..i], token);
      if token in tf {
        tf := tf[token := tf[token] + 1.0];
      } else {
        tf := tf[token := 1.0];
      }
    }
    assert tokens[..|tokens|] == tokens;
  }

  /** The TF-IDF vector: the term frequencies of the tokens in the IDF table, each times its IDF. */
  function TfIdfOf(tokens: seq<Token>, idf: SparseVec): SparseVec {
    Weighted(TfOf(tokens), idf)
  }

  /** The counts of tf for the tokens idf knows, each multiplied by its IDF. */
  function Weighted(tf: SparseVec, idf: SparseVec): SparseVec {
    map t | t in tf && t in idf :: tf[t] * idf[t]
  }

  lemma WeightedPointwise(tf: SparseVec, idf: SparseVec, v: SparseVec)
    requires v.Keys == tf.Keys * idf.Keys
    requires forall t | t in v :: v[t] == tf[t] * idf[t]
    ensures v == Weighted(tf, idf)
  {
    var w := Weighted(tf, idf);
    assert v.Keys == w.Keys;
    forall t | t in v ensures v[t] == w[t] {
    }
  }

  /**
   * No token outside the IDF table appears; every token of the document
   * that is in the table does, weighted by count times IDF.
   */
  lemma TfIdfKeys(tokens: seq<Token>, idf: SparseVec)
    ensures TfIdfOf(tokens, idf).Keys == (set t | t in tokens) * idf.Keys
    ensures forall t | t in TfIdfOf(tokens, idf) ::
      TfIdfOf(tokens, idf)[t] == multiset(tokens)[t] as real * idf[t]
  {
  }

  /** With non-negative IDF values, TF-IDF weights are non-negative. */
  lemma TfIdfNonNegative(tokens: seq<Token>, idf: SparseVec)
    requires NonNegative(idf)
    ensures NonNegative(TfIdfOf(tokens, idf))
  {
    var tf := TfOf(tokens);
    var v := Weighted(tf, idf);
    forall t | t in v ensures 0.0 <= v[t] {
      assert v[t] == tf[t] * idf[t];
      ProductNonNegative(tf[t], idf[t]);
    }
  }

  lemma ProductNonNegative(x: real, y: real)
    requires 0.0 <= x && 0.0 <= y
    ensures 0.0 <= x * y
  {
  }

  /** vectorize_tf_idf: counts the tokens, then weights each one the IDF table knows. */
  method VectorizeTfIdf(tokens: seq<Token>, idf: SparseVec) returns (tfIdf: SparseVec)
    ensures tfIdf == TfIdfOf(tokens, idf)
  {
    var tf := VectorizeTf(tokens);
    tfIdf := map[];
    var rest := tf.Keys;
    while rest != {}
      invariant rest <= tf.Keys
      invariant tfIdf.Keys == (tf.Keys - rest) * idf.Keys
      invariant forall t | t in tfIdf :: tfIdf[t] == tf[t] * idf[t]
      decreases rest
    {
      var token :| token in rest;
      var count := tf[token];
      if token in idf {
        tfIdf := tfIdf[token := count * idf[token]];
      }
      rest := rest - {token};
    }
    WeightedPointwise(tf, idf, tfIdf);
  }
}
