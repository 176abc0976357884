/**
 * Review records and the corpus-wide statistics computed from them once:
 * the list of every token of the corpus (all_tokens), the number of
 * reviews N, the document frequency of each token and its IDF.
 */
module Corpus {
  import opened Wrappers
  import opened Tokenizer
  import opened SparseVector
  import opened RealMath

  /**
   * A review that passed the notebook's filter: its Details text and the
   * star rating parsed from its Stars field, absent when the field was.
   */
  datatype Review = Review(details: string, score: Option<int>)

  /** not s.strip(): the text is empty or all whitespace. */
  predicate IsBlank(s: string, lx: Lexer) {
    forall i | 0 <= i < |s| :: lx.isSpace(s[i])
  }

  function ReviewTokens(r: Review, lx: Lexer): seq<Token> {
    Tokenize(Str(r.details), lx)
  }

  /** all_tokens: the tokens of every review with non-empty Details, review after review. */
  function CorpusTokens(reviews: seq<Review>, lx: Lexer): seq<Token> {
    if reviews == [] then []
    else
      var last := reviews[|reviews| - 1];
      CorpusTokens(reviews[..|reviews| - 1], lx) + (if last.details != [] then ReviewTokens(last, lx) else [])
  }

  /** The loop that extends all_tokens with the tokens of each review. */
  method CollectTokens(reviews: seq<Review>, lx: Lexer) returns (allTokens: seq<Token>)
    ensures allTokens == CorpusTokens(reviews, lx)
  {
    allTokens := [];
    for i := 0 to |reviews|
      invariant allTokens == CorpusTokens(reviews[..i], lx)
    {
      var review := reviews[i];
      assert reviews[..i + 1][..i] == reviews[..i];
      if review.details != [] {
        var tokens := Tokenize(Str(review.details), lx);
        allTokens := allTokens + tokens;
      }
    }
    assert reviews[..|reviews|] == reviews;
  }

  /** The token list of every review, one document per review. */
  function Documents(reviews: seq<Review>, lx: Lexer): (docs: seq<seq<Token>>)
    ensures |docs| == |reviews|
    ensures forall i | 0 <= i < |reviews| :: docs[i] == ReviewTokens(reviews[i], lx)
  {
    if reviews == [] then []
    else Documents(reviews[..|reviews| - 1], lx) + [ReviewTokens(reviews[|reviews| - 1], lx)]
  }

  /** The number of documents that contain t at least once. */
  function DocCount(docs: seq<seq<Token>>, t: Token): nat {
    if docs == [] then 0
    else DocCount(docs[..|docs| - 1], t) + (if t in docs[|docs| - 1] then 1 else 0)
  }

  /** set(doc): the distinct tokens of one document. */
  function TokenSet(doc: seq<Token>): set<Token> {
    set t | t in doc
  }

  /** Every token of some document. */
  function Vocabulary(docs: seq<seq<Token>>): set<Token> {
    if docs == [] then {}
    else Vocabulary(docs[..|docs| - 1]) + TokenSet(docs[|docs| - 1])
  }

  /** doc_freq: every token of the corpus with the number of documents that contain it. */
  function DocFreqOf(docs: seq<seq<Token>>): map<Token, nat> {
    map t | t in Vocabulary(docs) :: DocCount(docs, t)
  }

  /** A document counts each of its tokens once, however often the token occurs in it. */
  lemma DocFreqSnoc(docs: seq<seq<Token>>, doc: seq<Token>, t: Token)
    ensures DocCount(docs + [doc], t) == DocCount(docs, t) + (if t in doc then 1 else 0)
  {
    assert (docs + [doc])[..|docs|] == docs;
  }

  /** One more document adds its distinct tokens to the vocabulary. */
  lemma VocabularySnoc(docs: seq<seq<Token>>, doc: seq<Token>)
    ensures Vocabulary(docs + [doc]) == Vocabulary(docs) + TokenSet(doc)
  {
    assert (docs + [doc])[..|docs|] == docs;
  }

  /** A token that is in the vocabulary is in some document, and no token is in more documents than there are. */
  lemma {:induction false} DocCountBounds(docs: seq<seq<Token>>, t: Token)
    ensures DocCount(docs, t) <= |docs|
    ensures t in Vocabulary(docs) <==> 1 <= DocCount(docs, t)
  {
    if docs != [] {
      DocCountBounds(docs[..|docs| - 1], t);
    }
  }

  /**
   * Each token of doc_freq occurs in at least one and at most N documents.
   */
  lemma DocFreqBounds(docs: seq<seq<Token>>)
    ensures DocFreqOf(docs).Keys == Vocabulary(docs)
    ensures forall t | t in DocFreqOf(docs) :: 1 <= DocFreqOf(docs)[t] <= |docs|
  {
    forall t | t in DocFreqOf(docs) ensures 1 <= DocFreqOf(docs)[t] <= |docs| {
      DocCountBounds(docs, t);
    }
  }

  /** The tokens of all_tokens are exactly the tokens doc_freq counts. */
  lemma {:induction false} CorpusVocabulary(reviews: seq<Review>, lx: Lexer)
    ensures (set t | t in CorpusTokens(reviews, lx)) == Vocabulary(Documents(reviews, lx))
  {
    if reviews != [] {
      var init := reviews[..|reviews| - 1];
      var last := reviews[|reviews| - 1];
      CorpusVocabulary(init, lx);
      VocabularySnoc(Documents(init, lx), ReviewTokens(last, lx));
      assert Documents(reviews, lx) == Documents(init, lx) + [ReviewTokens(last, lx)];
      if last.details == [] {
        assert ReviewTokens(last, lx) == [];
      }
    }
  }

  /** The document-frequency loop: each review adds one to every distinct token it holds. */
  method CountDocFreq(reviews: seq<Review>, lx: Lexer) returns (docFreq: map<Token, nat>)
    ensures docFreq == DocFreqOf(Documents(reviews, lx))
  {
    docFreq := map[];
    for i := 0 to |reviews|
      invariant docFreq == DocFreqOf(Documents(reviews[..i], lx))
    {
      var review := reviews[i];
      ghost var docs := Documents(reviews[..i], lx);
      ghost var prior := docFreq;
      assert reviews[..i + 1][..i] == reviews[..i];
      assert Documents(reviews[..i + 1], lx) == docs + [ReviewTokens(review, lx)];
      if review.details == [] {
        assert ReviewTokens(review, lx) == [];
        DocFreqEmptyDocument(docs);
        continue;
      }
      var doc := Tokenize(Str(review.details), lx);
      docFreq := CountDistinct(docFreq, doc);
      DocFreqStep(docs, doc, prior, docFreq);
    }
    assert reviews[..|reviews|] == reviews;
  }

  /** The inner loop: one more document for every distinct token of doc. */
  method CountDistinct(before: map<Token, nat>, doc: seq<Token>) returns (docFreq: map<Token, nat>)
    ensures docFreq.Keys == before.Keys + TokenSet(doc)
    ensures forall t | t in docFreq ::
      docFreq[t] == (if t in before then before[t] else 0) + (if t in doc then 1 else 0)
  {
    docFreq := before;
    var uniqueTokens := TokenSet(doc);
    var rest := uniqueTokens;
    while rest != {}
      invariant rest <= uniqueTokens
      invariant docFreq.Keys == before.Keys + (uniqueTokens - rest)
      invariant forall t | t in docFreq ::
        docFreq[t] == (if t in before then before[t] else 0) + (if t in uniqueTokens - rest then 1 else 0)
      decreases rest
    {
      var token :| token in rest;
      docFreq := docFreq[token := (if token in docFreq then docFreq[token] else 0) + 1];
      rest := rest - {token};
    }
  }

  lemma DocFreqEmptyDocument(docs: seq<seq<Token>>)
    ensures DocFreqOf(docs + [[]]) == DocFreqOf(docs)
  {
    forall t ensures DocCount(docs + [[]], t) == DocCount(docs, t) {
      DocFreqSnoc(docs, [], t);
    }
    VocabularySnoc(docs, []);
  }

  /** Adding one document to the counts held in a map. */
  lemma DocFreqStep(docs: seq<seq<Token>>, doc: seq<Token>, before: map<Token, nat>, after: map<Token, nat>)
    requires before == DocFreqOf(docs)
    requires after.Keys == before.Keys + TokenSet(doc)
    requires forall t | t in after ::
      after[t] == (if t in before then before[t] else 0) + (if t in doc then 1 else 0)
    ensures after == DocFreqOf(docs + [doc])
  {
    var expected := DocFreqOf(docs + [doc]);
    VocabularySnoc(docs, doc);
    assert after.Keys == expected.Keys;
    forall t | t in after ensures after[t] == expected[t] {
      DocFreqSnoc(docs, doc, t);
      if t !in before {
        DocCountBounds(docs, t);
      }
    }
  }

  /** idf_dict: log(N / df) for every token of doc_freq. */
  function IdfOf(docFreq: map<Token, nat>, n: nat, log: real -> real): SparseVec
    requires forall t | t in docFreq :: docFreq[t] > 0
  {
    map t | t in docFreq :: log(n as real / docFreq[t] as real)
  }

  /** The IDF loop over the items of doc_freq. */
  method ComputeIdf(docFreq: map<Token, nat>, n: nat, log: real -> real) returns (idf: SparseVec)
    requires forall t | t in docFreq :: docFreq[t] > 0
    ensures idf == IdfOf(docFreq, n, log)
  {
    idf := map[];
    var rest := docFreq.Keys;
    while rest != {}
      invariant rest <= docFreq.Keys
      invariant idf.Keys == docFreq.Keys - rest
      invariant forall t | t in idf :: idf[t] == log(n as real / docFreq[t] as real)
      decreases rest
    {
      var token :| token in rest;
      var df := docFreq[token];
      idf := idf[token := log(n as real / df as real)];
      rest := rest - {token};
    }
    var expected := IdfOf(docFreq, n, log);
    assert idf.Keys == expected.Keys;
  }

  /** The corpus statistics of the notebook: N, doc_freq and idf_dict, computed once. */
  method BuildCorpusStats(reviews: seq<Review>, lx: Lexer, log: real -> real)
    returns (n: nat, docFreq: map<Token, nat>, idf: SparseVec)
    ensures n == |reviews|
    ensures docFreq == DocFreqOf(Documents(reviews, lx))
    ensures forall t | t in docFreq :: 1 <= docFreq[t] <= n
    ensures idf == IdfOf(docFreq, n, log)
  {
    n := |reviews|;
    docFreq := CountDocFreq(reviews, lx);
    DocFreqBounds(Documents(reviews, lx));
    idf := ComputeIdf(docFreq, n, log);
  }

  /**
   * The IDF table has exactly the tokens of doc_freq; for each, idf is
   * log(N / df), never negative, and zero exactly when the token occurs in
   * every review.
   */
  lemma IdfProperties(reviews: seq<Review>, lx: Lexer, log: real -> real)
    requires IsLog(log)
    ensures var docs := Documents(reviews, lx);
      var docFreq := DocFreqOf(docs);
      (forall t | t in docFreq :: docFreq[t] > 0) &&
      var idf := IdfOf(docFreq, |reviews|, log);
      && idf.Keys == Vocabulary(docs)
      && NonNegative(idf)
      && forall t | t in idf :: (idf[t] == 0.0 <==> DocCount(docs, t) == |reviews|)
  {
    var docs := Documents(reviews, lx);
    var docFreq := DocFreqOf(docs);
    DocFreqBounds(docs);
    var idf := IdfOf(docFreq, |reviews|, log);
    forall t | t in idf ensures 0.0 <= idf[t] && (idf[t] == 0.0 <==> DocCount(docs, t) == |reviews|) {
      LogOfRatio(log, |reviews| as real, docFreq[t] as real);
    }
  }
}
