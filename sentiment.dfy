/**
 * Lexicon sentiment scoring and the evaluation by star rating: each
 * review's score is the dot product of a term-frequency vector with the
 * lexicon; reviews are scored in order, skipping blank ones and ones with
 * no tokens; non-zero scores are then grouped by star rating and each
 * group is summarised by its average and its size.
 */
module Sentiment {
  import opened Wrappers
  import opened Tokenizer
  import opened SparseVector
  import opened Vectorizer
  import opened Corpus

  /** sparse_dot_product(vectorize_tf(tokens), lexicon) */
  function SentimentScore(tokens: seq<Token>, lexicon: SparseVec): real {
    Dot(TfOf(tokens), lexicon)
  }

  /** The reference reading of a lexicon score: the lexicon weight of every occurrence, added up. */
  function OccurrenceSum(tokens: seq<Token>, lexicon: SparseVec): real {
    if tokens == [] then 0.0
    else OccurrenceSum(tokens[..|tokens| - 1], lexicon) + Weight(lexicon, tokens[|tokens| - 1])
  }

  /**
   * The score counts every occurrence of a token with the lexicon's
   * weight, and a token the lexicon does not hold with weight zero.
   */
  lemma {:induction false} ScoreIsOccurrenceSum(tokens: seq<Token>, lexicon: SparseVec)
    ensures SentimentScore(tokens, lexicon) == OccurrenceSum(tokens, lexicon)
  {
    if tokens == [] {
      assert TfOf(tokens) == map[];
    } else {
      var init, x := tokens[..|tokens| - 1], tokens[|tokens| - 1];
      var tf := TfOf(init);
      calc {
        SentimentScore(tokens, lexicon);
      == { assert tokens == init + [x]; }
        Dot(TfOf(init + [x]), lexicon);
      == { TfOfSnoc(init, x); }
        Dot(tf[x := Weight(tf, x) + 1.0], lexicon);
      == { DotIncrement(tf, lexicon, x); }
        Dot(tf, lexicon) + Weight(lexicon, x);
      == { ScoreIsOccurrenceSum(init, lexicon); }
        OccurrenceSum(init, lexicon) + Weight(lexicon, x);
      }
    }
  }

  lemma {:induction false} OccurrenceSumAppend(p: seq<Token>, q: seq<Token>, lexicon: SparseVec)
    ensures OccurrenceSum(p + q, lexicon) == OccurrenceSum(p, lexicon) + OccurrenceSum(q, lexicon)
  {
    if q == [] {
      assert p + q == p;
    } else {
      var init := q[..|q| - 1];
      assert (p + q)[..|p + q| - 1] == p + init;
      OccurrenceSumAppend(p, init, lexicon);
    }
  }

  /** The score of two token lists run together is the sum of their scores. */
  lemma ScoreAppend(p: seq<Token>, q: seq<Token>, lexicon: SparseVec)
    ensures SentimentScore(p + q, lexicon) == SentimentScore(p, lexicon) + SentimentScore(q, lexicon)
  {
    ScoreIsOccurrenceSum(p + q, lexicon);
    ScoreIsOccurrenceSum(p, lexicon);
    ScoreIsOccurrenceSum(q, lexicon);
    OccurrenceSumAppend(p, q, lexicon);
  }

  /** Scaling every count of the TF vector by c scales the score by c. */
  lemma ScoreScales(c: real, tokens: seq<Token>, lexicon: SparseVec)
    ensures Dot(Scale(c, TfOf(tokens)), lexicon) == c * SentimentScore(tokens, lexicon)
  {
    var tf := TfOf(tokens);
    calc {
      Dot(Scale(c, tf), lexicon);
    == { DotScale(c, tf, lexicon); }
      c * Dot(tf, lexicon);
    == { assert SentimentScore(tokens, lexicon) == Dot(tf, lexicon); }
      c * SentimentScore(tokens, lexicon);
    }
  }

  /** A review written out twice has twice the score: its TF vector is doubled. */
  lemma ScoreOfRepeatedText(tokens: seq<Token>, lexicon: SparseVec)
    ensures SentimentScore(tokens + tokens, lexicon) == 2.0 * SentimentScore(tokens, lexicon)
  {
    calc {
      SentimentScore(tokens + tokens, lexicon);
    ==
      Dot(TfOf(tokens + tokens), lexicon);
    == { TfOfDoubled(tokens); }
      Dot(Scale(2.0, TfOf(tokens)), lexicon);
    == { ScoreScales(2.0, tokens, lexicon); }
      2.0 * SentimentScore(tokens, lexicon);
    }
  }

  /** Tokens the lexicon does not hold contribute nothing: without any lexicon word the score is zero. */
  lemma {:induction false} ScoreWithoutLexiconWords(tokens: seq<Token>, lexicon: SparseVec)
    requires forall i | 0 <= i < |tokens| :: tokens[i] !in lexicon
    ensures SentimentScore(tokens, lexicon) == 0.0
  {
    ScoreIsOccurrenceSum(tokens, lexicon);
    OccurrenceSumOfUnknown(tokens, lexicon);
  }

  lemma {:induction false} OccurrenceSumOfUnknown(tokens: seq<Token>, lexicon: SparseVec)
    requires forall i | 0 <= i < |tokens| :: tokens[i] !in lexicon
    ensures OccurrenceSum(tokens, lexicon) == 0.0
  {
    if tokens != [] {
      OccurrenceSumOfUnknown(tokens[..|tokens| - 1], lexicon);
    }
  }

  /** One entry of results: the sentiment score and the review's star rating. */
  datatype ScoredReview = ScoredReview(score: real, rating: Option<int>)

  /** A review the results loop scores: its Details are not blank and it has at least one token. */
  predicate Scorable(r: Review, lx: Lexer) {
    !IsBlank(r.details, lx) && ReviewTokens(r, lx) != []
  }

  /** The reviews the results loop keeps, in order. */
  function Kept(reviews: seq<Review>, lx: Lexer): (kept: seq<Review>)
    ensures forall r :: r in kept <==> r in reviews && Scorable(r, lx)
  {
    if reviews == [] then []
    else
      var init, last := reviews[..|reviews| - 1], reviews[|reviews| - 1];
      assert reviews == init + [last];
      Kept(init, lx) + (if Scorable(last, lx) then [last] else [])
  }

  /**
   * Which tokens a review's score is computed from: the corpus-wide
   * all_tokens list, as the results loop is written, or the review's own
   * tokens.
   */
  datatype TokenSource = CorpusWide(allTokens: seq<Token>) | OwnTokens

  function ScoredTokens(src: TokenSource, r: Review, lx: Lexer): seq<Token> {
    match src
    case CorpusWide(allTokens) => allTokens
    case OwnTokens => ReviewTokens(r, lx)
  }

  /** The results list: one entry per kept review, scored from the chosen tokens. */
  function Results(reviews: seq<Review>, lx: Lexer, lexicon: SparseVec, src: TokenSource): (results: seq<ScoredReview>)
    ensures |results| == |Kept(reviews, lx)|
    ensures forall i | 0 <= i < |results| ::
      var r := Kept(reviews, lx)[i];
      results[i] == ScoredReview(SentimentScore(ScoredTokens(src, r, lx), lexicon), r.score)
  {
    if reviews == [] then []
    else
      var init, last := reviews[..|reviews| - 1], reviews[|reviews| - 1];
      Results(init, lx, lexicon, src)
        + (if Scorable(last, lx) then [ScoredReview(SentimentScore(ScoredTokens(src, last, lx), lexicon), last.score)] else [])
  }

  /**
   * The results loop as written: the blank and token-less reviews are
   * skipped, but the score is taken from vectorize_tf(all_tokens).
   */
  method ScoreReviewsAsWritten(reviews: seq<Review>, allTokens: seq<Token>, lexicon: SparseVec, lx: Lexer)
    returns (results: seq<ScoredReview>)
    ensures results == Results(reviews, lx, lexicon, CorpusWide(allTokens))
  {
    results := [];
    for i := 0 to |reviews|
      invariant results == Results(reviews[..i], lx, lexicon, CorpusWide(allTokens))
    {
      var review := reviews[i];
      assert reviews[..i + 1][..i] == reviews[..i];
      var details := review.details;
      if IsBlank(details, lx) {
        continue;
      }
      var tokens := Tokenize(Str(details), lx);
      if tokens == [] {
        continue;
      }
      var tf := VectorizeTf(allTokens);
      var score := Dot(tf, lexicon);
      results := results + [ScoredReview(score, review.score)];
    }
    assert reviews[..|reviews|] == reviews;
  }

  /** The results loop scoring each review by its own tokens. */
  method ScoreReviews(reviews: seq<Review>, lexicon: SparseVec, lx: Lexer) returns (results: seq<ScoredReview>)
    ensures results == Results(reviews, lx, lexicon, OwnTokens)
  {
    results := [];
    for i := 0 to |reviews|
      invariant results == Results(reviews[..i], lx, lexicon, OwnTokens)
    {
      var review := reviews[i];
      assert reviews[..i + 1][..i] == reviews[..i];
      var details := review.details;
      if IsBlank(details, lx) {
        continue;
      }
      var tokens := Tokenize(Str(details), lx);
      if tokens == [] {
        continue;
      }
      var tf := VectorizeTf(tokens);
      var score := Dot(tf, lexicon);
      results := results + [ScoredReview(score, review.score)];
    }
    assert reviews[..|reviews|] == reviews;
  }

  /** As written, every review receives one and the same score, that of the whole corpus. */
  lemma AsWrittenScoresAreConstant(reviews: seq<Review>, allTokens: seq<Token>, lexicon: SparseVec, lx: Lexer)
    ensures forall i | 0 <= i < |Results(reviews, lx, lexicon, CorpusWide(allTokens))| ::
      Results(reviews, lx, lexicon, CorpusWide(allTokens))[i].score == SentimentScore(allTokens, lexicon)
  {
  }

  /** Scored by its own tokens, each review's score depends on its own text only. */
  lemma OwnScoresFollowReviews(reviews: seq<Review>, lexicon: SparseVec, lx: Lexer)
    ensures forall i | 0 <= i < |Results(reviews, lx, lexicon, OwnTokens)| ::
      Results(reviews, lx, lexicon, OwnTokens)[i].score == OccurrenceSum(ReviewTokens(Kept(reviews, lx)[i], lx), lexicon)
  {
    forall i | 0 <= i < |Results(reviews, lx, lexicon, OwnTokens)|
      ensures Results(reviews, lx, lexicon, OwnTokens)[i].score == OccurrenceSum(ReviewTokens(Kept(reviews, lx)[i], lx), lexicon)
    {
      ScoreIsOccurrenceSum(ReviewTokens(Kept(reviews, lx)[i], lx), lexicon);
    }
  }

  /** A lexer that reads "good" and "bad" as words: letters, not whitespace, not stop words. */
  predicate ReadsExampleWords(lx: Lexer) {
    && IsWordToken("good", lx.isWord) && IsWordToken("bad", lx.isWord)
    && !lx.isSpace('g') && !lx.isSpace('b')
    && "good" !in lx.stopWords && "bad" !in lx.stopWords
  }

  /** Two one-word reviews, "good" with five stars and "bad" with one. */
  const ExampleReviews: seq<Review> := [Review("good", Some(5)), Review("bad", Some(1))]

  /** A lexicon in which "good" is positive and "bad" negative. */
  const ExampleLexicon: SparseVec := map["good" := 1.0, "bad" := -1.0]

  lemma OneWordTokens(w: string, score: Option<int>, lx: Lexer)
    requires w == "good" || w == "bad"
    requires ReadsExampleWords(lx)
    ensures ReviewTokens(Review(w, score), lx) == [w]
    ensures Scorable(Review(w, score), lx)
  {
    assert forall i | 0 <= i < |w| :: !IsUpper(w[i]);
    TokenizeOneWord(w, lx);
    assert !lx.isSpace(w[0]);
  }

  /** Under such a lexer each example review is scorable and is its own one token. */
  lemma ExampleReviewsRead(lx: Lexer)
    requires ReadsExampleWords(lx)
    ensures ExampleReviews == [Review("good", Some(5)), Review("bad", Some(1))]
    ensures ReviewTokens(Review("good", Some(5)), lx) == ["good"] && Scorable(Review("good", Some(5)), lx)
    ensures ReviewTokens(Review("bad", Some(1)), lx) == ["bad"] && Scorable(Review("bad", Some(1)), lx)
  {
    OneWordTokens("good", Some(5), lx);
    OneWordTokens("bad", Some(1), lx);
  }

  lemma ExampleCorpusTokens(lx: Lexer)
    requires ReadsExampleWords(lx)
    ensures CorpusTokens(ExampleReviews, lx) == ["good", "bad"]
  {
    var r0, r1 := Review("good", Some(5)), Review("bad", Some(1));
    ExampleReviewsRead(lx);
    CorpusTokensOfPair(r0, r1, lx);
    assert ["good"] + ["bad"] == ["good", "bad"];
  }

  lemma KeptOfPair(r0: Review, r1: Review, lx: Lexer)
    requires Scorable(r0, lx) && Scorable(r1, lx)
    ensures Kept([r0, r1], lx) == [r0, r1]
  {
    assert [r0, r1][..1] == [r0] && [r0][..0] == [];
    assert Kept([r0], lx) == [r0] by {
      assert Kept([r0][..0], lx) == [];
    }
  }

  lemma CorpusTokensOfPair(r0: Review, r1: Review, lx: Lexer)
    requires r0.details != [] && r1.details != []
    ensures CorpusTokens([r0, r1], lx) == ReviewTokens(r0, lx) + ReviewTokens(r1, lx)
  {
    assert [r0, r1][..1] == [r0] && [r0][..0] == [];
    assert CorpusTokens([r0], lx) == ReviewTokens(r0, lx) by {
      assert CorpusTokens([r0][..0], lx) == [];
    }
  }

  lemma ExampleScores()
    ensures SentimentScore(["good", "bad"], ExampleLexicon) == 0.0
    ensures SentimentScore(["good"], ExampleLexicon) == 1.0
    ensures SentimentScore(["bad"], ExampleLexicon) == -1.0
  {
    ScoreIsOccurrenceSum(["good", "bad"], ExampleLexicon);
    ScoreIsOccurrenceSum(["good"], ExampleLexicon);
    ScoreIsOccurrenceSum(["bad"], ExampleLexicon);
    assert ["good", "bad"][..1] == ["good"];
    assert ["good"][..0] == [] && ["bad"][..0] == [];
  }

  lemma ResultsOfPair(r0: Review, r1: Review, lx: Lexer, lexicon: SparseVec, src: TokenSource)
    requires Scorable(r0, lx) && Scorable(r1, lx)
    ensures Results([r0, r1], lx, lexicon, src)
         == [ScoredReview(SentimentScore(ScoredTokens(src, r0, lx), lexicon), r0.score),
             ScoredReview(SentimentScore(ScoredTokens(src, r1, lx), lexicon), r1.score)]
  {
    KeptOfPair(r0, r1, lx);
  }

  lemma ExampleResultsAsWritten(lx: Lexer)
    requires ReadsExampleWords(lx)
    ensures Results(ExampleReviews, lx, ExampleLexicon, CorpusWide(CorpusTokens(ExampleReviews, lx)))
         == [ScoredReview(0.0, Some(5)), ScoredReview(0.0, Some(1))]
  {
    var r0, r1 := Review("good", Some(5)), Review("bad", Some(1));
    var src := CorpusWide(["good", "bad"]);
    OneWordTokens("good", Some(5), lx);
    OneWordTokens("bad", Some(1), lx);
    ExampleCorpusTokens(lx);
    calc {
      Results(ExampleReviews, lx, ExampleLexicon, CorpusWide(CorpusTokens(ExampleReviews, lx)));
    ==
      Results([r0, r1], lx, ExampleLexicon, src);
    == { ResultsOfPair(r0, r1, lx, ExampleLexicon, src); }
      [ScoredReview(SentimentScore(["good", "bad"], ExampleLexicon), Some(5)),
       ScoredReview(SentimentScore(["good", "bad"], ExampleLexicon), Some(1))];
    == { ExampleScores(); }
      [ScoredReview(0.0, Some(5)), ScoredReview(0.0, Some(1))];
    }
  }

  lemma ExampleResultsOwn(lx: Lexer)
    requires ReadsExampleWords(lx)
    ensures Results(ExampleReviews, lx, ExampleLexicon, OwnTokens)
         == [ScoredReview(1.0, Some(5)), ScoredReview(-1.0, Some(1))]
  {
    var r0, r1 := Review("good", Some(5)), Review("bad", Some(1));
    ExampleReviewsRead(lx);
    calc {
      Results(ExampleReviews, lx, ExampleLexicon, OwnTokens);
    ==
      Results([r0, r1], lx, ExampleLexicon, OwnTokens);
    == { ResultsOfPair(r0, r1, lx, ExampleLexicon, OwnTokens); }
      [ScoredReview(SentimentScore(["good"], ExampleLexicon), Some(5)),
       ScoredReview(SentimentScore(["bad"], ExampleLexicon), Some(1))];
    == { ExampleScores(); }
      [ScoredReview(1.0, Some(5)), ScoredReview(-1.0, Some(1))];
    }
  }

  lemma GroupedOfNeutralPair(first: ScoredReview, second: ScoredReview)
    requires first.score == 0.0 && second.score == 0.0
    ensures Grouped([first, second]) == map[]
  {
    assert [first, second][..1] == [first] && [first][..0] == [];
    assert Grouped([first]) == map[] by {
      assert Grouped([first][..0]) == map[];
    }
  }

  lemma GroupedOfDistinctPair(first: ScoredReview, second: ScoredReview)
    requires first.score != 0.0 && second.score != 0.0 && first.rating != second.rating
    ensures Grouped([first, second]) == map[first.rating := [first.score], second.rating := [second.score]]
  {
    assert [first, second][..1] == [first] && [first][..0] == [];
    assert Grouped([first]) == map[first.rating := [first.score]] by {
      var one := [first];
      assert one[..|one| - 1] == [] && one[|one| - 1] == first;
      assert Grouped(one[..|one| - 1]) == map[];
      assert [] + [first.score] == [first.score];
    }
    var two := [first, second];
    assert two[..|two| - 1] == [first] && two[|two| - 1] == second;
    assert second.rating !in Grouped([first]);
    assert [] + [second.score] == [second.score];
  }

  /**
   * As written, the two example reviews both get the corpus score 0 and
   * are then dropped as neutral, so no rating has any score; scored by
   * their own tokens they get 1 and -1 and land in their own ratings.
   */
  lemma AsWrittenScoresHideSentiment(lx: Lexer)
    requires ReadsExampleWords(lx)
    ensures Grouped(Results(ExampleReviews, lx, ExampleLexicon, CorpusWide(CorpusTokens(ExampleReviews, lx)))) == map[]
    ensures Grouped(Results(ExampleReviews, lx, ExampleLexicon, OwnTokens)) == map[Some(5) := [1.0], Some(1) := [-1.0]]
  {
    ExampleResultsAsWritten(lx);
    ExampleResultsOwn(lx);
    GroupedOfNeutralPair(ScoredReview(0.0, Some(5)), ScoredReview(0.0, Some(1)));
    GroupedOfDistinctPair(ScoredReview(1.0, Some(5)), ScoredReview(-1.0, Some(1)));
  }

  /** scores_by_rating: every non-zero score, appended to the list of its star rating. */
  function Grouped(results: seq<ScoredReview>): map<Option<int>, seq<real>> {
    if results == [] then map[]
    else
      var groups := Grouped(results[..|results| - 1]);
      var last := results[|results| - 1];
      if last.score == 0.0 then groups
      else groups[last.rating := (if last.rating in groups then groups[last.rating] else []) + [last.score]]
  }

  /** The reference for one bucket: the non-zero scores of the results with that rating, in order. */
  function BucketOf(results: seq<ScoredReview>, rating: Option<int>): (bucket: seq<real>)
    ensures forall i | 0 <= i < |bucket| :: bucket[i] != 0.0
  {
    if results == [] then []
    else
      var last := results[|results| - 1];
      BucketOf(results[..|results| - 1], rating) + (if last.rating == rating && last.score != 0.0 then [last.score] else [])
  }

  /**
   * A rating has a bucket exactly when some result with that rating has a
   * non-zero score, and the bucket holds exactly those scores in order.
   */
  lemma {:induction false} GroupedBuckets(results: seq<ScoredReview>, rating: Option<int>)
    ensures rating in Grouped(results) <==> BucketOf(results, rating) != []
    ensures rating in Grouped(results) ==> Grouped(results)[rating] == BucketOf(results, rating)
  {
    if results != [] {
      GroupedBuckets(results[..|results| - 1], rating);
    }
  }

  /** Every bucket is non-empty and holds no zero score. */
  lemma BucketsNonEmptyNonZero(results: seq<ScoredReview>)
    ensures forall rating | rating in Grouped(results) ::
      Grouped(results)[rating] != [] && forall i | 0 <= i < |Grouped(results)[rating]| :: Grouped(results)[rating][i] != 0.0
  {
    forall rating | rating in Grouped(results)
      ensures Grouped(results)[rating] != [] && forall i | 0 <= i < |Grouped(results)[rating]| :: Grouped(results)[rating][i] != 0.0
    {
      GroupedBuckets(results, rating);
    }
  }

  /** The grouping loop over results. */
  method GroupByRating(results: seq<ScoredReview>) returns (scoresByRating: map<Option<int>, seq<real>>)
    ensures scoresByRating == Grouped(results)
  {
    scoresByRating := map[];
    for i := 0 to |results|
      invariant scoresByRating == Grouped(results[..i])
    {
      var entry := results[i];
      assert results[..i + 1][..i] == results[..i];
      if entry.score == 0.0 {
        continue;
      }
      if entry.rating !in scoresByRating {
        scoresByRating := scoresByRating[entry.rating := []];
      }
      scoresByRating := scoresByRating[entry.rating := scoresByRating[entry.rating] + [entry.score]];
    }
    assert results[..|results|] == results;
  }

  function SeqSum(xs: seq<real>): real {
    if xs == [] then 0.0 else SeqSum(xs[..|xs| - 1]) + xs[|xs| - 1]
  }

  /** The figures reported for one star rating: the average score and the number of scores. */
  datatype RatingStat = RatingStat(average: real, count: nat)

  function RatingStats(groups: map<Option<int>, seq<real>>): map<Option<int>, RatingStat> {
    map rating | rating in groups :: var scores := groups[rating];
      RatingStat(if scores == [] then 0.0 else SeqSum(scores) / |scores| as real, |scores|)
  }

  /** The per-rating averages and counts. */
  method SummarizeByRating(scoresByRating: map<Option<int>, seq<real>>) returns (stats: map<Option<int>, RatingStat>)
    requires forall rating | rating in scoresByRating :: scoresByRating[rating] != []
    ensures stats == RatingStats(scoresByRating)
  {
    stats := map[];
    var rest := scoresByRating.Keys;
    while rest != {}
      invariant rest <= scoresByRating.Keys
      invariant stats.Keys == scoresByRating.Keys - rest
      invariant forall rating | rating in stats :: stats[rating] == RatingStats(scoresByRating)[rating]
      decreases rest
    {
      var rating :| rating in rest;
      var scores := scoresByRating[rating];
      var avgScore := SeqSum(scores) / |scores| as real;
      var count := |scores|;
      stats := stats[rating := RatingStat(avgScore, count)];
      rest := rest - {rating};
    }
    assert stats.Keys == RatingStats(scoresByRating).Keys;
  }

  /**
   * For every rating with a bucket, the count is the number of non-zero
   * scores with that rating (at least one) and the average is their sum
   * divided by that number.
   */
  lemma RatingStatsMeaning(results: seq<ScoredReview>)
    ensures RatingStats(Grouped(results)).Keys == Grouped(results).Keys
    ensures forall rating | rating in RatingStats(Grouped(results)) ::
      && RatingStats(Grouped(results))[rating].count == |BucketOf(results, rating)| >= 1
      && RatingStats(Grouped(results))[rating].average == SeqSum(BucketOf(results, rating)) / |BucketOf(results, rating)| as real
  {
    var groups := Grouped(results);
    forall rating | rating in groups
      ensures && RatingStats(groups)[rating].count == |BucketOf(results, rating)| >= 1
              && RatingStats(groups)[rating].average == SeqSum(BucketOf(results, rating)) / |BucketOf(results, rating)| as real
    {
      GroupedBuckets(results, rating);
    }
  }

  /**
   * The sentiment evaluation of a corpus, with each review scored by its
   * own tokens: score, group by rating, summarise.
   */
  method SentimentByRating(reviews: seq<Review>, lexicon: SparseVec, lx: Lexer)
    returns (stats: map<Option<int>, RatingStat>)
    ensures stats == RatingStats(Grouped(Results(reviews, lx, lexicon, OwnTokens)))
  {
    var results := ScoreReviews(reviews, lexicon, lx);
    var scoresByRating := GroupByRating(results);
    BucketsNonEmptyNonZero(results);
    stats := SummarizeByRating(scoresByRating);
  }
}
