# Text mining of coffee-shop reviews, modelled in Dafny

The notebook `sentiment_analysis_and_text_mining_project.py` reads customer reviews of
McCafé and Tim Hortons. It runs them through a small text-mining engine built on sparse
vectors, which are dictionaries from token to weight:

- a tokenizer;
- term-frequency (TF) and TF-IDF vectorization;
- corpus statistics: the list of every token, the document frequencies and the IDF table;
- a lexicon-based sentiment score, which is a dot product with the lexicon, with the non-zero
  scores grouped by star rating;
- k-means clustering of a sample of reviews under cosine similarity.

This project models that engine and proves properties of the model.

Modules, one per file, in dependency order:

| file | module | models |
|---|---|---|
| `wrappers.dfy` | `Wrappers` | `Option`, for the optional star rating |
| `token_order.dfy` | `TokenOrder` | a total order on tokens, so that a sum over a key set has one definition |
| `real_math.dfy` | `RealMath` | the laws assumed of `sqrt` and `log` |
| `sparse_vector.dfy` | `SparseVector` | sums, `sparse_dot_product` in both versions, `cosine_similarity`, `mean_vector` |
| `tokenizer.dfy` | `Tokenizer` | `tokenize` |
| `vectorizer.dfy` | `Vectorizer` | `vectorize_tf`, `vectorize_tf_idf` |
| `corpus.dfy` | `Corpus` | review records, `all_tokens`, `N`, `doc_freq`, `idf_dict` |
| `sentiment.dfy` | `Sentiment` | the `results` loop, `scores_by_rating`, the per-rating average and count |
| `kmeans.dfy` | `KMeans` | vectorizing the sample; the assign, update and converge loop |

A sparse vector is a `map<string, real>`, and a key that is absent weighs zero.

The code loops over tokens, over dictionary items and over `set(doc)`. Those loops are
methods that proceed one token or one key at a time. Each method is proved equal to a
function that defines its result, and that function's properties are lemmas.

Some parts of the notebook come from outside the engine, and the model takes them as
parameters:

- `math.sqrt` and `math.log` are function-valued parameters. The lemmas that need their
  laws require the predicates `IsSqrt` and `IsLog`.
- The character class `\w`, the whitespace stripped by `str.strip()` and the set
  `ENGLISH_STOP_WORDS` are the fields `isWord`, `isSpace` and `stopWords` of a `Lexer`.
- The IDF table and the lexicon are notebook globals, so they are passed in.

Two details of the notebook are kept exactly as written:

- A TF-IDF vector stores a zero weight for a token that occurs in every review, because its
  IDF is `log(N/N) = 0` (`Vectorizer.TfIdfKeys`, `Corpus.IdfProperties`). `Weight` reads an
  absent key and a stored zero alike, so no sum, dot product or similarity can tell them
  apart.
- `N` is the length of the record list, and `doc_freq` skips records with empty Details
  (lines 82-87). These two agree only because the filter at line 38 has already removed
  blank reviews. The model keeps both rules.

## Model

| member | source | states |
|---|---|---|
| Tokenizer.Tokenize | sentiment_analysis_and_text_mining_project.py:46-51 | a non-string gives `[]`; every token is non-empty, not a stop word, has no upper-case letter, and is made only of word characters |
| Tokenizer.TokenizeAsFilteredWords | sentiment_analysis_and_text_mining_project.py:49-51 | the tokens of a string are exactly its `\w+` matches after lowering, with the stop words removed, in order |
| Tokenizer.TokenizeOneWord | sentiment_analysis_and_text_mining_project.py:46-51 | a lower-case text that is a single word gives that word, or `[]` when it is a stop word |
| Tokenizer.TokenizeSplit | sentiment_analysis_and_text_mining_project.py:46-51 | a text cut at a non-word, non-upper-case character tokenizes to the tokens of the part before followed by the tokens of the part after, so tokens keep the order of the text and none is lost |
| Tokenizer.TokenizeFollowsText | sentiment_analysis_and_text_mining_project.py:46-51 | when no match is a stop word, the tokens concatenated are exactly the word characters of the lowered text, in order |
| Tokenizer.LowerChar | sentiment_analysis_and_text_mining_project.py:49 | an upper-case ASCII letter becomes its own lower-case letter, every other character is unchanged, and the result is never upper-case |
| Tokenizer.Lower | sentiment_analysis_and_text_mining_project.py:49 | `str.lower()`: the lowered text has the same length, each character lowered by `LowerChar` in place |
| Tokenizer.LowerOfLowercase | sentiment_analysis_and_text_mining_project.py:49 | lowering text that has no upper-case letter changes nothing |
| Tokenizer.RunLength | sentiment_analysis_and_text_mining_project.py:50 | the run is maximal: every character before n is a word character, and the one at n (if any) is not |
| Tokenizer.Words | sentiment_analysis_and_text_mining_project.py:50 | every match is non-empty and consists of word characters of the text |
| Tokenizer.WordsFollowText | sentiment_analysis_and_text_mining_project.py:50 | the matches, concatenated, are exactly the word characters of the text in their order: nothing is reordered, and only non-word characters are lost |
| Tokenizer.WordsOfUnwords | sentiment_analysis_and_text_mining_project.py:50 | matching the space-joined list of word tokens gives the same list back |
| Tokenizer.WordsOfRun | sentiment_analysis_and_text_mining_project.py:50 | a non-empty run of word characters is one match, never split into smaller ones |
| Tokenizer.WordsOfNonWords | sentiment_analysis_and_text_mining_project.py:50 | a text without word characters has no match |
| Tokenizer.WordsSplit | sentiment_analysis_and_text_mining_project.py:50 | the matches of a text cut at a non-word character are the matches before it followed by the matches after it: a match never spans a non-word character and every run is found |
| Tokenizer.RemoveStopWords | sentiment_analysis_and_text_mining_project.py:51 | a token is kept exactly when it is in the input and is not a stop word; there are no more tokens than before; an input free of stop words is kept whole |
| Tokenizer.RemoveStopWordsAppend | sentiment_analysis_and_text_mining_project.py:51 | filtering a concatenation is concatenating the filtered parts, so the kept tokens stay in input order |
| Tokenizer.TokenizeIdempotent | sentiment_analysis_and_text_mining_project.py:46-51 | tokenizing the space-joined tokens of a text gives the same tokens again |
| Vectorizer.VectorizeTf | sentiment_analysis_and_text_mining_project.py:69-76 | the counting loop returns `TfOf(tokens)` |
| Vectorizer.TfKeys | sentiment_analysis_and_text_mining_project.py:69-76 | the keys are exactly the distinct tokens, and every count is at least 1 |
| Vectorizer.TfOfSnoc | sentiment_analysis_and_text_mining_project.py:71-75 | one more token raises its own count by one (from 0 when new) and no other count |
| Vectorizer.TfTotal | sentiment_analysis_and_text_mining_project.py:69-76 | the counts add up to the number of tokens |
| Vectorizer.TfOfDoubled | sentiment_analysis_and_text_mining_project.py:69-76 | a token list repeated twice has every count doubled |
| Vectorizer.VectorizeTfIdf | sentiment_analysis_and_text_mining_project.py:116-129 | the two loops return `TfIdfOf(tokens, idf)` |
| Vectorizer.TfIdfKeys | sentiment_analysis_and_text_mining_project.py:124-128 | the keys are exactly the distinct tokens that are also in the IDF table, each weighted by count times IDF; no token outside the table appears |
| Vectorizer.TfIdfNonNegative | sentiment_analysis_and_text_mining_project.py:124-128 | with a non-negative IDF table, every TF-IDF weight is non-negative |
| SparseVector.SumRemove | sentiment_analysis_and_text_mining_project.py:148 | a sum over a key set equals any one key's weight plus the sum over the rest, so the order in which the keys are visited does not matter |
| SparseVector.Dot | sentiment_analysis_and_text_mining_project.py:147-148 | `sparse_dot_product`: the sum of `vec1[t] * vec2[t]` over the keys of vec1 found in vec2; its properties are the `Dot…` lemmas below |
| SparseVector.DotSharedTokens | sentiment_analysis_and_text_mining_project.py:147-148 | the dot product is the total of `vec1[t]*vec2[t]` over the shared tokens; vectors with no shared token give 0 |
| SparseVector.DotRestrict | sentiment_analysis_and_text_mining_project.py:147-148 | tokens of vec1 that vec2 lacks contribute nothing |
| SparseVector.DotSymmetric | sentiment_analysis_and_text_mining_project.py:147-148 | `dot(a, b) == dot(b, a)` |
| SparseVector.DotSelf | sentiment_analysis_and_text_mining_project.py:147-148 | `dot(v, v) >= 0`, and it is 0 exactly when every weight of v is 0 |
| SparseVector.DotScale | sentiment_analysis_and_text_mining_project.py:147-148 | scaling every weight of the first vector by c scales the dot product by c |
| SparseVector.DotNonNegative | sentiment_analysis_and_text_mining_project.py:147-148 | two non-negative vectors have a non-negative dot product |
| SparseVector.DotIncrement | sentiment_analysis_and_text_mining_project.py:147-148 | adding 1 to one token's weight adds that token's weight in the other vector (0 when absent) |
| SparseVector.ExplainDotProduct | sentiment_analysis_and_text_mining_project.py:271-304 | the diagnostic version returns the same total as `sparse_dot_product`; its contributions have exactly the shared tokens as keys, each with frequency `vec1[t]`, weight `vec2[t]` and contribution their product |
| SparseVector.Magnitude | sentiment_analysis_and_text_mining_project.py:200-201 | the magnitude `sqrt(dot(v, v))`; `MagnitudeZero` states what it is |
| SparseVector.CosineSimilarity | sentiment_analysis_and_text_mining_project.py:195-204 | the dot product over the product of the magnitudes, and exactly 0.0 when either magnitude is 0; the `Cosine…` lemmas state its properties |
| SparseVector.MagnitudeZero | sentiment_analysis_and_text_mining_project.py:200-202 | a magnitude is non-negative, and it is 0 exactly for a vector whose weights are all 0 |
| SparseVector.CosineOfZeroVector | sentiment_analysis_and_text_mining_project.py:202-203 | the similarity is exactly 0.0 whenever either vector's weights are all 0 |
| SparseVector.CosineSelf | sentiment_analysis_and_text_mining_project.py:195-204 | a vector with a non-zero weight has similarity 1.0 with itself |
| SparseVector.CosineSymmetric | sentiment_analysis_and_text_mining_project.py:195-204 | the similarity does not depend on argument order |
| SparseVector.CosineNonNegative | sentiment_analysis_and_text_mining_project.py:195-204 | two non-negative vectors (such as TF-IDF vectors) have non-negative similarity |
| SparseVector.KeysOfUnion | sentiment_analysis_and_text_mining_project.py:208-211 | the keys of `summed` are exactly the union of the input vectors' keys |
| SparseVector.MeanOf | sentiment_analysis_and_text_mining_project.py:206-213 | the keywise mean: every key of some vector, with its column sum (absent weighs 0) over the number of vectors; `MeanVector`, `MeanOfCopies` and `MeanNonNegative` state its properties |
| SparseVector.MeanVector | sentiment_analysis_and_text_mining_project.py:206-213 | the loop returns `MeanOf(vectors)`: the union of the keys, each with its column sum (missing weighs 0) divided by the number of vectors; no vectors give the empty vector |
| SparseVector.MeanOfCopies | sentiment_analysis_and_text_mining_project.py:206-213 | the mean of a non-empty list of copies of v is v |
| SparseVector.MeanNonNegative | sentiment_analysis_and_text_mining_project.py:206-213 | the mean of non-negative vectors is non-negative |
| RealMath.SqrtZeroIff | sentiment_analysis_and_text_mining_project.py:200-202 | under the square-root law, `sqrt(x) == 0` exactly when `x == 0`, for `x >= 0` |
| RealMath.LogOfRatio | sentiment_analysis_and_text_mining_project.py:95 | under the logarithm law, `log(N/df) >= 0` for `0 < df <= N`, and it is 0 exactly when `df == N` |
| Corpus.CollectTokens | sentiment_analysis_and_text_mining_project.py:53-58 | the loop returns `CorpusTokens(reviews)`: the tokens of each review with non-empty Details, review after review |
| Corpus.CorpusVocabulary | sentiment_analysis_and_text_mining_project.py:53-58 | the distinct tokens of `all_tokens` are exactly the tokens of the documents that `doc_freq` counts |
| Corpus.DocFreqSnoc | sentiment_analysis_and_text_mining_project.py:89-91 | one more document adds 1 to a token's count if it holds the token at all, however often, and 0 otherwise |
| Corpus.VocabularySnoc | sentiment_analysis_and_text_mining_project.py:89-91 | one more document adds exactly its distinct tokens to the set of counted tokens |
| Corpus.DocCountBounds | sentiment_analysis_and_text_mining_project.py:84-91 | no token is in more documents than there are, and a token is counted exactly when some document holds it |
| Corpus.DocFreqBounds | sentiment_analysis_and_text_mining_project.py:84-91 | the keys of `doc_freq` are the vocabulary, and `1 <= doc_freq[t] <= N` |
| Corpus.CountDistinct | sentiment_analysis_and_text_mining_project.py:89-91 | the inner loop adds exactly one to the count of every distinct token of the document and leaves the others alone |
| Corpus.DocFreqEmptyDocument | sentiment_analysis_and_text_mining_project.py:86-87 | skipping a review with empty Details leaves the counts as counting its empty document would |
| Corpus.CountDocFreq | sentiment_analysis_and_text_mining_project.py:84-91 | the loop returns `DocFreqOf(Documents(reviews))` |
| Corpus.ComputeIdf | sentiment_analysis_and_text_mining_project.py:93-95 | the loop returns `log(N/df)` for exactly the tokens of `doc_freq` |
| Corpus.BuildCorpusStats | sentiment_analysis_and_text_mining_project.py:82-95 | `N` is the number of reviews; `doc_freq` is as specified, with every count in `1..N`; `idf_dict` is built from them |
| Corpus.IdfProperties | sentiment_analysis_and_text_mining_project.py:93-95 | the IDF table has exactly the vocabulary as keys; every IDF is non-negative, and is 0 exactly when the token occurs in every review |
| Sentiment.SentimentScore | sentiment_analysis_and_text_mining_project.py:164-165 | the score of a token list is the dot product of its TF vector with the lexicon; the `Score…` lemmas state what it adds up to |
| Sentiment.ScoreIsOccurrenceSum | sentiment_analysis_and_text_mining_project.py:164-165 | the dot product of the TF vector with the lexicon equals the sum of the lexicon weights of the token occurrences, one by one |
| Sentiment.ScoreAppend | sentiment_analysis_and_text_mining_project.py:164-165 | the score of concatenated token lists is the sum of their scores |
| Sentiment.ScoreScales | sentiment_analysis_and_text_mining_project.py:164-165 | scaling every TF count by c scales the sentiment score by c |
| Sentiment.ScoreOfRepeatedText | sentiment_analysis_and_text_mining_project.py:164-165 | a token list repeated twice scores twice as much |
| Sentiment.ScoreWithoutLexiconWords | sentiment_analysis_and_text_mining_project.py:164-165 | tokens absent from the lexicon score 0 |
| Sentiment.Kept | sentiment_analysis_and_text_mining_project.py:154-162 | a review is scored exactly when its Details are not blank and tokenize to at least one token |
| Sentiment.Results | sentiment_analysis_and_text_mining_project.py:152-167 | one pair per scored review, in order, holding the score of its token list and its star rating |
| Sentiment.ScoreReviewsAsWritten | sentiment_analysis_and_text_mining_project.py:152-167 | the loop as written, which scores `vectorize_tf(all_tokens)`, returns `Results` over the corpus-wide tokens |
| Sentiment.AsWrittenScoresAreConstant | sentiment_analysis_and_text_mining_project.py:164-165 | as written, every review gets the same score: the score of `all_tokens` |
| Sentiment.ExampleResultsAsWritten | sentiment_analysis_and_text_mining_project.py:152-167 | as written, the reviews "good" (5 stars) and "bad" (1 star), with the lexicon good = 1, bad = -1, both score 0; neither word is an English stop word, so both reviews are kept |
| Sentiment.ExampleResultsOwn | sentiment_analysis_and_text_mining_project.py:152-167 | with each review's own tokens, the same two reviews score 1 and -1 |
| Sentiment.AsWrittenScoresHideSentiment | sentiment_analysis_and_text_mining_project.py:164-181 | as written, that example yields no rating group at all; with the reviews' own tokens it yields the groups 5 ↦ [1] and 1 ↦ [-1] |
| Sentiment.ScoreReviews | sentiment_analysis_and_text_mining_project.py:152-167 | the corrected loop scores each review's own `tokens` and returns `Results` over them |
| Sentiment.OwnScoresFollowReviews | sentiment_analysis_and_text_mining_project.py:159-165 | corrected, each score is the sum of the lexicon weights of that review's own token occurrences |
| Sentiment.Grouped | sentiment_analysis_and_text_mining_project.py:174-181 | `scores_by_rating`: each non-zero score appended to its rating's list, in order; `GroupedBuckets` and `BucketsNonEmptyNonZero` state what it holds |
| Sentiment.BucketOf | sentiment_analysis_and_text_mining_project.py:176-181 | a rating's bucket holds no zero score |
| Sentiment.GroupedBuckets | sentiment_analysis_and_text_mining_project.py:174-181 | a rating is a key of `scores_by_rating` exactly when it has a non-zero score, and its list is those scores in order |
| Sentiment.BucketsNonEmptyNonZero | sentiment_analysis_and_text_mining_project.py:174-181 | every bucket is non-empty and holds no zero |
| Sentiment.GroupByRating | sentiment_analysis_and_text_mining_project.py:174-181 | the grouping loop returns `Grouped(results)` |
| Sentiment.RatingStats | sentiment_analysis_and_text_mining_project.py:185-188 | the average and count of every rating's list; `RatingStatsMeaning` states them for grouped results |
| Sentiment.SummarizeByRating | sentiment_analysis_and_text_mining_project.py:185-188 | the loop over the ratings (all with non-empty buckets) returns `RatingStats`: the average and count per rating |
| Sentiment.RatingStatsMeaning | sentiment_analysis_and_text_mining_project.py:185-188 | there are statistics for exactly the grouped ratings; each count is the bucket's length and at least 1, and each average is the bucket's sum divided by that count |
| Sentiment.SentimentByRating | sentiment_analysis_and_text_mining_project.py:152-188 | the corrected pipeline computes the per-rating statistics of the grouped results |
| KMeans.VectorizeReview | sentiment_analysis_and_text_mining_project.py:220 | the call for one review returns the TF-IDF vector of that review's own tokens |
| KMeans.VectorizeSample | sentiment_analysis_and_text_mining_project.py:219-221 | the loop returns `SampleVectors(sample)` |
| KMeans.SampleVectorsAt | sentiment_analysis_and_text_mining_project.py:219-221 | the i-th vector is the TF-IDF vector of the i-th sampled review's tokens |
| KMeans.SampleVectorsNonNegative | sentiment_analysis_and_text_mining_project.py:219-221 | with a non-negative IDF table, every sampled vector is non-negative |
| KMeans.MaxOf | sentiment_analysis_and_text_mining_project.py:234 | `max` returns an element of the list that no element exceeds |
| KMeans.IndexOf | sentiment_analysis_and_text_mining_project.py:234 | `index` returns a position holding the value, with no earlier one |
| KMeans.Similarities | sentiment_analysis_and_text_mining_project.py:233 | one cosine similarity per centroid, in centroid order |
| KMeans.BestCluster | sentiment_analysis_and_text_mining_project.py:233-234 | the chosen cluster has maximum similarity, and every earlier cluster has strictly less |
| KMeans.FirstArgMaxUnique | sentiment_analysis_and_text_mining_project.py:234 | only one position is the first position of the maximum |
| KMeans.BestClusterIsFirstArgMax | sentiment_analysis_and_text_mining_project.py:233-234 | a cluster is chosen exactly when it is the first position of the maximum similarity |
| KMeans.Clusters | sentiment_analysis_and_text_mining_project.py:231 | there is one cluster per centroid |
| KMeans.MembersExactly | sentiment_analysis_and_text_mining_project.py:231-235 | a document is in a cluster exactly when that cluster is its label |
| KMeans.ExactlyOneCluster | sentiment_analysis_and_text_mining_project.py:231-235 | every document is in its best cluster and in no other |
| KMeans.Assign | sentiment_analysis_and_text_mining_project.py:231-235 | the assignment loop returns `Clusters(docs, centroids)` |
| KMeans.UpdatedCentroids | sentiment_analysis_and_text_mining_project.py:238 | the new centroids: one per old centroid; `UpdateMeaning` states each one |
| KMeans.UpdateMeaning | sentiment_analysis_and_text_mining_project.py:238 | an empty cluster keeps its old centroid; a non-empty one gets the union of its documents' keys, each with its column sum divided by the cluster size |
| KMeans.UpdateOfUniformCluster | sentiment_analysis_and_text_mining_project.py:238 | a cluster whose documents are all one vector gets that vector as its centroid |
| KMeans.UpdatePreservesNonNegative | sentiment_analysis_and_text_mining_project.py:238 | non-negative documents and centroids give non-negative new centroids |
| KMeans.UpdateCentroids | sentiment_analysis_and_text_mining_project.py:238 | the update loop, calling `mean_vector`, returns `UpdatedCentroids` |
| KMeans.Step | sentiment_analysis_and_text_mining_project.py:231-238 | one round, assigning to the given centroids and then updating, keeps the number of centroids |
| KMeans.Run | sentiment_analysis_and_text_mining_project.py:227-244 | the rounds from a given round on, stopping when the update changes nothing or round 100 is done; `RunBounds`, `ConvergedIsFixedPoint`, `RunAssignsEveryDocument` and `RunPreservesNonNegative` state its properties |
| KMeans.Cluster | sentiment_analysis_and_text_mining_project.py:227-244 | the 100-round loop with its early exit returns the outcome of `Run` from round 0 |
| KMeans.RunBounds | sentiment_analysis_and_text_mining_project.py:227-244 | at least 1 and at most 100 rounds run; a run that does not converge runs all 100; there are k clusters and k centroids |
| KMeans.RunConverged | sentiment_analysis_and_text_mining_project.py:238-243 | on convergence the number of centroids is unchanged, the clusters are the assignment to the final centroids, and one more round gives those centroids back |
| KMeans.ConvergedIsFixedPoint | sentiment_analysis_and_text_mining_project.py:238-243 | on convergence, the clusters are the assignment to the final centroids, and updating from them gives the same centroids back |
| KMeans.RunAssignsEveryDocument | sentiment_analysis_and_text_mining_project.py:231-235 | the final clusters are the assignment to some list of k centroids, so `ExactlyOneCluster` applies to them |
| KMeans.RunPreservesNonNegative | sentiment_analysis_and_text_mining_project.py:227-244 | from non-negative documents and centroids, the final centroids are non-negative |
| KMeans.ClusterReviews | sentiment_analysis_and_text_mining_project.py:219-244 | with k = 4 initial centroids, vectorizing the sample and clustering it gives `Run` over the sample's TF-IDF vectors |

## Left out

- Loading the CSV files, concatenating them and converting the records (lines 17-30) are I/O.
  The `Details` filter and the `Stars` parse (lines 32-39) work on pandas cell values. A
  review is given as its Details string and an optional integer score.
- The `isinstance(details, str)` test at line 156 always passes for such records. The
  tokenizer's non-string case is kept (`Tokenizer.Text`).
- Downloading and parsing the lexicon (lines 136-145) is I/O. The lexicon is a given map.
- All printing is left out: lines 101-112, 184-189, 228, 242, 246-257 and 294-303. Also left
  out are the word clouds and plots (lines 259-269), the per-cluster average rating printed at
  lines 254-257, and the sort of contributions at lines 288-292. `sorted(scores_by_rating)` at
  line 185 only orders the printing. It would raise a `TypeError` if a missing rating (`None`)
  and an integer rating were both keys; the model keeps `None` as a rating like any other.
- The single calls at lines 131 and 306 apply `VectorizeTfIdf` and `ExplainDotProduct` to
  notebook globals. They are not modelled separately.
- `random.sample`, which picks the review sample and the initial centroids (lines 216-217 and
  225), is randomness. The sample and the initial centroids are inputs. `KMeans.Cluster`
  accepts any k of at least 1; `KMeans.ClusterReviews` fixes k = 4 as the notebook does.
- Floating point is left out: weights, scores and IDF values are exact reals. So
  `new_centroids == centroids` at line 241 is exact equality, with no rounding drift.
- `sqrt` and `log` are parameters. Their only assumed laws are those in `RealMath.IsSqrt` and
  `RealMath.IsLog`.
- `str.lower()` is modelled for ASCII letters only, because Unicode case mapping is not
  available. The `\w` class, the whitespace of `str.strip()` and `ENGLISH_STOP_WORDS` are
  parameters (`Tokenizer.Lexer`), because they belong to foreign libraries.
- Dictionary insertion order is not modelled: a map has no order. The sums over keys are
  proved independent of the visiting order (`SparseVector.SumRemove`).
- A k-means cluster holds the positions of its documents in the sample, where the notebook
  holds the review records themselves. The records appear in the same order, and the centroid
  update reads the same vectors.

## Findings

| source | as written | input that shows it | evidently intended | confidence | as-written member | corrected member |
|---|---|---|---|---|---|---|
| sentiment_analysis_and_text_mining_project.py:164 | each review's score is computed from `vectorize_tf(all_tokens)`, the token list of the whole corpus, so every review gets the same score | the reviews "good" (5 stars) and "bad" (1 star) with the lexicon good = 1.0, bad = -1.0, neither word being an English stop word: both score 0.0, so no rating group is formed | score each review's own `tokens` from line 159: here 1.0 for the 5-star review and -1.0 for the 1-star review, giving the groups 5 ↦ [1.0] and 1 ↦ [-1.0] | not executed | Sentiment.ScoreReviewsAsWritten, Sentiment.AsWrittenScoresHideSentiment | Sentiment.ScoreReviews, Sentiment.OwnScoresFollowReviews |
