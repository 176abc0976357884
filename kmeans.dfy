/**
 * K-means clustering of the sampled reviews' TF-IDF vectors under cosine
 * similarity: each round assigns every document to the first centroid of
 * highest similarity, then moves every centroid to the mean of its
 * cluster (an empty cluster keeps its centroid); the rounds stop when the
 * centroids no longer change, or after 100 rounds.
 */
module KMeans {
  import opened Tokenizer
  import opened SparseVector
  import opened RealMath
  import opened Vectorizer
  import opened Corpus

  /** The number of clusters of the notebook. */
  const K: nat := 4

  /** The largest number of rounds (range(100)). */
  const MaxIterations: nat := 100

  /** The TF-IDF vector of one review's Details. */
  method VectorizeReview(review: Review, idf: SparseVec, lx: Lexer) returns (tfIdf: SparseVec)
    ensures tfIdf == TfIdfOf(ReviewTokens(review, lx), idf)
  {
    tfIdf := VectorizeTfIdf(Tokenize(Str(review.details), lx), idf);
  }

  /** The TF-IDF vector of every document, in order. */
  function TfIdfVectors(docs: seq<seq<Token>>, idf: SparseVec): (vectors: seq<SparseVec>)
    ensures |vectors| == |docs|
  {
    if docs == [] then []
    else
      var n := |docs| - 1;
      TfIdfVectors(docs[..n], idf) + [TfIdfOf(docs[n], idf)]
  }

  /** The i-th vector is the TF-IDF vector of the i-th document. */
  lemma {:induction false} TfIdfVectorsAt(docs: seq<seq<Token>>, idf: SparseVec, i: nat)
    requires i < |docs|
    ensures TfIdfVectors(docs, idf)[i] == TfIdfOf(docs[i], idf)
  {
    var n := |docs| - 1;
    if i < n {
      TfIdfVectorsAt(docs[..n], idf, i);
      assert docs[..n][i] == docs[i];
    }
  }

  /** The vectors of the sampled reviews, each the TF-IDF vector of the review's Details. */
  function SampleVectors(sample: seq<Review>, idf: SparseVec, lx: Lexer): (vectors: seq<SparseVec>)
    ensures |vectors| == |sample|
  {
    TfIdfVectors(Documents(sample, lx), idf)
  }

  /** The i-th vector of the sample is the TF-IDF vector of the i-th review's tokens. */
  lemma SampleVectorsAt(sample: seq<Review>, idf: SparseVec, lx: Lexer, i: nat)
    requires i < |sample|
    ensures SampleVectors(sample, idf, lx)[i] == TfIdfOf(ReviewTokens(sample[i], lx), idf)
  {
    TfIdfVectorsAt(Documents(sample, lx), idf, i);
  }

  /** Stores the TF-IDF vector of each sampled review, one review at a time. */
  method VectorizeSample(sample: seq<Review>, idf: SparseVec, lx: Lexer) returns (vectors: seq<SparseVec>)
    ensures vectors == SampleVectors(sample, idf, lx)
  {
    vectors := [];
    ghost var docs := Documents(sample, lx);
    for i := 0 to |sample|
      invariant vectors == TfIdfVectors(docs[..i], idf)
    {
      var tfIdf := VectorizeReview(sample[i], idf, lx);
      assert docs[i] == ReviewTokens(sample[i], lx);
      TfIdfVectorsSnoc(docs, idf, i);
      vectors := vectors + [tfIdf];
    }
    assert docs[..|sample|] == docs;
  }

  /** Extending the documents by one extends the vectors by its TF-IDF vector. */
  lemma TfIdfVectorsSnoc(docs: seq<seq<Token>>, idf: SparseVec, i: nat)
    requires i < |docs|
    ensures TfIdfVectors(docs[..i + 1], idf) == TfIdfVectors(docs[..i], idf) + [TfIdfOf(docs[i], idf)]
  {
    assert docs[..i + 1][..i] == docs[..i];
  }

  /** max(xs) */
  function MaxOf(xs: seq<real>): (m: real)
    requires |xs| > 0
    ensures m in xs
    ensures forall j | 0 <= j < |xs| :: xs[j] <= m
  {
    if |xs| == 1 then xs[0]
    else
      var rest := MaxOf(xs[1..]);
      if xs[0] >= rest then xs[0] else rest
  }

  /** xs.index(v): the first position holding v. */
  function IndexOf(xs: seq<real>, v: real): (i: nat)
    requires v in xs
    ensures i < |xs| && xs[i] == v
    ensures forall j | 0 <= j < i :: xs[j] != v
  {
    if xs[0] == v then 0 else 1 + IndexOf(xs[1..], v)
  }

  /** [cosine_similarity(doc, centroid) for centroid in centroids] */
  function Similarities(doc: SparseVec, centroids: seq<SparseVec>, sqrt: real -> real): (sims: seq<real>)
    ensures |sims| == |centroids|
  {
    seq(|centroids|, c requires 0 <= c < |centroids| => CosineSimilarity(doc, centroids[c], sqrt))
  }

  /** A position of xs holding its maximum, with no maximum before it. */
  predicate IsFirstArgMax(xs: seq<real>, i: nat) {
    && i < |xs|
    && (forall j | 0 <= j < |xs| :: xs[j] <= xs[i])
    && (forall j | 0 <= j < i :: xs[j] < xs[i])
  }

  /** similarities.index(max(similarities)): the first centroid of highest similarity. */
  function BestCluster(doc: SparseVec, centroids: seq<SparseVec>, sqrt: real -> real): (best: nat)
    requires |centroids| > 0
    ensures IsFirstArgMax(Similarities(doc, centroids, sqrt), best)
  {
    var sims := Similarities(doc, centroids, sqrt);
    IndexOf(sims, MaxOf(sims))
  }

  /** There is only one first position of the maximum. */
  lemma FirstArgMaxUnique(xs: seq<real>, i: nat, j: nat)
    requires IsFirstArgMax(xs, i) && IsFirstArgMax(xs, j)
    ensures i == j
  {
    assert xs[i] == xs[j];
  }

  /** The assignment picks exactly the first centroid of highest similarity, and no other. */
  lemma BestClusterIsFirstArgMax(doc: SparseVec, centroids: seq<SparseVec>, sqrt: real -> real, c: nat)
    requires |centroids| > 0
    ensures BestCluster(doc, centroids, sqrt) == c <==> IsFirstArgMax(Similarities(doc, centroids, sqrt), c)
  {
    if IsFirstArgMax(Similarities(doc, centroids, sqrt), c) {
      FirstArgMaxUnique(Similarities(doc, centroids, sqrt), BestCluster(doc, centroids, sqrt), c);
    }
  }

  /** The best cluster of every document, document by document. */
  function Labels(docs: seq<SparseVec>, centroids: seq<SparseVec>, sqrt: real -> real): (labels: seq<nat>)
    requires |centroids| > 0
    ensures |labels| == |docs|
  {
    seq(|docs|, i requires 0 <= i < |docs| => BestCluster(docs[i], centroids, sqrt))
  }

  /** The positions, in order, whose label is c. */
  function Members(labels: seq<nat>, c: nat): (m: seq<nat>)
    ensures forall j | 0 <= j < |m| :: m[j] < |labels|
    ensures forall j, l | 0 <= j < l < |m| :: m[j] < m[l]
  {
    if labels == [] then []
    else
      var n := |labels| - 1;
      Members(labels[..n], c) + (if labels[n] == c then [n] else [])
  }

  /** clusters: for each centroid, the documents assigned to it. */
  function Clusters(docs: seq<SparseVec>, centroids: seq<SparseVec>, sqrt: real -> real): (clusters: seq<seq<nat>>)
    requires |centroids| > 0
    ensures |clusters| == |centroids|
  {
    var labels := Labels(docs, centroids, sqrt);
    seq(|centroids|, c requires 0 <= c < |centroids| => Members(labels, c))
  }

  /** Position i is a member of c exactly when its label is c. */
  lemma {:induction false} MembersExactly(labels: seq<nat>, c: nat, i: nat)
    ensures i in Members(labels, c) <==> i < |labels| && labels[i] == c
  {
    if labels != [] {
      var n := |labels| - 1;
      MembersExactly(labels[..n], c, i);
    }
  }

  /**
   * The clusters partition the documents: every document is in exactly
   * one cluster, the first of highest similarity.
   */
  lemma ExactlyOneCluster(docs: seq<SparseVec>, centroids: seq<SparseVec>, sqrt: real -> real, i: nat)
    requires |centroids| > 0 && i < |docs|
    ensures var best := BestCluster(docs[i], centroids, sqrt);
      && best < |centroids|
      && i in Clusters(docs, centroids, sqrt)[best]
      && forall c | 0 <= c < |centroids| && c != best :: i !in Clusters(docs, centroids, sqrt)[c]
  {
    var best := BestCluster(docs[i], centroids, sqrt);
    var labels := Labels(docs, centroids, sqrt);
    MembersExactly(labels, best, i);
    forall c | 0 <= c < |centroids| && c != best ensures i !in Clusters(docs, centroids, sqrt)[c] {
      MembersExactly(labels, c, i);
    }
  }

  /** Step 2: the assignment loop, appending each document to its best cluster. */
  method Assign(docs: seq<SparseVec>, centroids: seq<SparseVec>, sqrt: real -> real) returns (clusters: seq<seq<nat>>)
    requires |centroids| > 0
    ensures clusters == Clusters(docs, centroids, sqrt)
  {
    var k := |centroids|;
    ghost var labels := Labels(docs, centroids, sqrt);
    clusters := seq(k, _ => []);
    for i := 0 to |docs|
      invariant |clusters| == k
      invariant forall c | 0 <= c < k :: clusters[c] == Members(labels[..i], c)
    {
      var doc := docs[i];
      var similarities := Similarities(doc, centroids, sqrt);
      var bestCluster := IndexOf(similarities, MaxOf(similarities));
      assert labels[i] == bestCluster;
      ghost var before := clusters;
      clusters := clusters[bestCluster := clusters[bestCluster] + [i]];
      AppendMember(labels, i, before, bestCluster, clusters);
    }
    assert labels[..|docs|] == labels;
  }

  /** Appending position i to the cluster of its label extends every cluster to the labels up to i. */
  lemma AppendMember(labels: seq<nat>, i: nat, clusters: seq<seq<nat>>, c: nat, after: seq<seq<nat>>)
    requires i < |labels| && labels[i] == c && c < |clusters|
    requires forall d | 0 <= d < |clusters| :: clusters[d] == Members(labels[..i], d)
    requires after == clusters[c := clusters[c] + [i]]
    ensures |after| == |clusters|
    ensures forall d | 0 <= d < |after| :: after[d] == Members(labels[..i + 1], d)
  {
    assert labels[..i + 1][..i] == labels[..i];
  }

  /** The vectors of the documents at the given positions: [review['tf-idf'] for review in cluster]. */
  function Gather(docs: seq<SparseVec>, members: seq<nat>): (vs: seq<SparseVec>)
    requires forall j | 0 <= j < |members| :: members[j] < |docs|
    ensures |vs| == |members|
    ensures forall j | 0 <= j < |members| :: vs[j] == docs[members[j]]
  {
    seq(|members|, j requires 0 <= j < |members| => docs[members[j]])
  }

  /** A cluster list of the centroids' shape whose members are all documents. */
  predicate WellFormed(docs: seq<SparseVec>, clusters: seq<seq<nat>>, centroids: seq<SparseVec>) {
    && |clusters| == |centroids|
    && forall c, j | 0 <= c < |clusters| && 0 <= j < |clusters[c]| :: clusters[c][j] < |docs|
  }

  lemma ClustersWellFormed(docs: seq<SparseVec>, centroids: seq<SparseVec>, sqrt: real -> real)
    requires |centroids| > 0
    ensures WellFormed(docs, Clusters(docs, centroids, sqrt), centroids)
  {
  }

  /** Step 3: the mean of each non-empty cluster, the old centroid for an empty one. */
  function UpdatedCentroids(docs: seq<SparseVec>, clusters: seq<seq<nat>>, centroids: seq<SparseVec>): (next: seq<SparseVec>)
    requires WellFormed(docs, clusters, centroids)
    ensures |next| == |centroids|
  {
    seq(|centroids|, c requires 0 <= c < |centroids| =>
      if clusters[c] != [] then MeanOf(Gather(docs, clusters[c])) else centroids[c])
  }

  /**
   * The update moves every non-empty cluster's centroid to the keywise
   * mean of its documents and leaves the centroid of an empty cluster
   * where it was.
   */
  lemma UpdateMeaning(docs: seq<SparseVec>, clusters: seq<seq<nat>>, centroids: seq<SparseVec>, c: nat)
    requires WellFormed(docs, clusters, centroids) && c < |centroids|
    ensures clusters[c] == [] ==> UpdatedCentroids(docs, clusters, centroids)[c] == centroids[c]
    ensures clusters[c] != [] ==>
      var members := Gather(docs, clusters[c]);
      && UpdatedCentroids(docs, clusters, centroids)[c].Keys == KeysOf(members)
      && forall t | t in KeysOf(members) ::
           UpdatedCentroids(docs, clusters, centroids)[c][t] == ColumnSum(members, t) / |members| as real
  {
  }

  /** A cluster whose documents are all one vector gets that vector as its centroid. */
  lemma UpdateOfUniformCluster(docs: seq<SparseVec>, clusters: seq<seq<nat>>, centroids: seq<SparseVec>, c: nat, v: SparseVec)
    requires WellFormed(docs, clusters, centroids) && c < |centroids|
    requires clusters[c] != []
    requires forall j | 0 <= j < |clusters[c]| :: docs[clusters[c][j]] == v
    ensures UpdatedCentroids(docs, clusters, centroids)[c] == v
  {
    MeanOfCopies(Gather(docs, clusters[c]), v);
  }

  /** Every vector of the list has non-negative weights. */
  predicate AllNonNegative(vs: seq<SparseVec>) {
    forall i {:trigger NonNegative(vs[i])} | 0 <= i < |vs| :: NonNegative(vs[i])
  }

  /** Non-negative documents and centroids give non-negative new centroids. */
  lemma UpdatePreservesNonNegative(docs: seq<SparseVec>, clusters: seq<seq<nat>>, centroids: seq<SparseVec>)
    requires WellFormed(docs, clusters, centroids)
    requires AllNonNegative(docs) && AllNonNegative(centroids)
    ensures AllNonNegative(UpdatedCentroids(docs, clusters, centroids))
  {
    var next := UpdatedCentroids(docs, clusters, centroids);
    forall c | 0 <= c < |next| ensures NonNegative(next[c]) {
      if clusters[c] != [] {
        MeanNonNegative(Gather(docs, clusters[c]));
      }
    }
  }

  /** Step 3 as a loop: mean_vector for each non-empty cluster. */
  method UpdateCentroids(docs: seq<SparseVec>, clusters: seq<seq<nat>>, centroids: seq<SparseVec>)
    returns (newCentroids: seq<SparseVec>)
    requires WellFormed(docs, clusters, centroids)
    ensures newCentroids == UpdatedCentroids(docs, clusters, centroids)
  {
    newCentroids := [];
    for i := 0 to |clusters|
      invariant |newCentroids| == i
      invariant forall c | 0 <= c < i :: newCentroids[c] == UpdatedCentroids(docs, clusters, centroids)[c]
    {
      var cluster := clusters[i];
      var next: SparseVec;
      if cluster != [] {
        next := MeanVector(Gather(docs, cluster));
      } else {
        next := centroids[i];
      }
      newCentroids := newCentroids + [next];
    }
  }

  /** One round: the centroids after assigning the documents to the given ones. */
  function Step(docs: seq<SparseVec>, centroids: seq<SparseVec>, sqrt: real -> real): (next: seq<SparseVec>)
    requires |centroids| > 0
    ensures |next| == |centroids|
  {
    ClustersWellFormed(docs, centroids, sqrt);
    UpdatedCentroids(docs, Clusters(docs, centroids, sqrt), centroids)
  }

  lemma StepPreservesNonNegative(docs: seq<SparseVec>, centroids: seq<SparseVec>, sqrt: real -> real)
    requires |centroids| > 0
    requires AllNonNegative(docs) && AllNonNegative(centroids)
    ensures AllNonNegative(Step(docs, centroids, sqrt))
  {
    ClustersWellFormed(docs, centroids, sqrt);
    UpdatePreservesNonNegative(docs, Clusters(docs, centroids, sqrt), centroids);
  }

  /** What the loop leaves behind: the last clusters, the centroids, the rounds run and whether it converged. */
  datatype Outcome = Outcome(clusters: seq<seq<nat>>, centroids: seq<SparseVec>, iterations: nat, converged: bool)

  /**
   * The rounds from round number iteration on: assign, update, stop when
   * the centroids did not change or the last round is done.
   */
  function Run(docs: seq<SparseVec>, centroids: seq<SparseVec>, sqrt: real -> real, iteration: nat): Outcome
    requires |centroids| > 0 && iteration < MaxIterations
    decreases MaxIterations - iteration
  {
    var clusters := Clusters(docs, centroids, sqrt);
    var next := Step(docs, centroids, sqrt);
    if next == centroids then Outcome(clusters, centroids, iteration + 1, true)
    else if iteration + 1 == MaxIterations then Outcome(clusters, next, MaxIterations, false)
    else Run(docs, next, sqrt, iteration + 1)
  }

  /** The k-means loop of the notebook, from the given initial centroids. */
  method Cluster(docs: seq<SparseVec>, initial: seq<SparseVec>, sqrt: real -> real)
    returns (clusters: seq<seq<nat>>, centroids: seq<SparseVec>, iterations: nat, converged: bool)
    requires |initial| > 0
    ensures Outcome(clusters, centroids, iterations, converged) == Run(docs, initial, sqrt, 0)
  {
    centroids := initial;
    clusters := [];
    iterations := 0;
    converged := false;
    var iteration := 0;
    while iteration < MaxIterations
      invariant 0 <= iteration <= MaxIterations
      invariant |centroids| == |initial|
      invariant iteration < MaxIterations ==> Run(docs, initial, sqrt, 0) == Run(docs, centroids, sqrt, iteration)
      invariant iteration == MaxIterations ==> Outcome(clusters, centroids, iterations, converged) == Run(docs, initial, sqrt, 0)
    {
      clusters := Assign(docs, centroids, sqrt);
      ClustersWellFormed(docs, centroids, sqrt);
      var newCentroids := UpdateCentroids(docs, clusters, centroids);
      if newCentroids == centroids {
        iterations, converged := iteration + 1, true;
        return;
      }
      centroids := newCentroids;
      iteration := iteration + 1;
      if iteration == MaxIterations {
        iterations, converged := MaxIterations, false;
      }
    }
  }

  /** The loop runs at least one round and at most 100; it stops early only on convergence. */
  lemma {:induction false} RunBounds(docs: seq<SparseVec>, centroids: seq<SparseVec>, sqrt: real -> real, iteration: nat)
    requires |centroids| > 0 && iteration < MaxIterations
    ensures var out := Run(docs, centroids, sqrt, iteration);
      && iteration < out.iterations <= MaxIterations
      && (!out.converged ==> out.iterations == MaxIterations)
      && |out.centroids| == |centroids| && |out.clusters| == |centroids|
    decreases MaxIterations - iteration
  {
    var next := Step(docs, centroids, sqrt);
    if next != centroids && iteration + 1 < MaxIterations {
      RunBounds(docs, next, sqrt, iteration + 1);
    }
  }

  /** On convergence the last round changed nothing, and the clusters are those of the final centroids. */
  lemma {:induction false} RunConverged(docs: seq<SparseVec>, centroids: seq<SparseVec>, sqrt: real -> real, iteration: nat)
    requires |centroids| > 0 && iteration < MaxIterations
    ensures var out := Run(docs, centroids, sqrt, iteration);
      out.converged ==>
        && |out.centroids| == |centroids|
        && out.clusters == Clusters(docs, out.centroids, sqrt)
        && Step(docs, out.centroids, sqrt) == out.centroids
    decreases MaxIterations - iteration
  {
    var next := Step(docs, centroids, sqrt);
    if next != centroids && iteration + 1 < MaxIterations {
      RunConverged(docs, next, sqrt, iteration + 1);
    }
  }

  /**
   * On convergence the result is a fixed point: the clusters are the
   * assignment to the final centroids, and updating from them gives the
   * same centroids back.
   */
  lemma ConvergedIsFixedPoint(docs: seq<SparseVec>, centroids: seq<SparseVec>, sqrt: real -> real, iteration: nat)
    requires |centroids| > 0 && iteration < MaxIterations
    ensures var out := Run(docs, centroids, sqrt, iteration);
      out.converged ==>
        && |out.centroids| > 0
        && out.clusters == Clusters(docs, out.centroids, sqrt)
        && WellFormed(docs, out.clusters, out.centroids)
        && UpdatedCentroids(docs, out.clusters, out.centroids) == out.centroids
        && Step(docs, out.centroids, sqrt) == out.centroids
  {
    var out := Run(docs, centroids, sqrt, iteration);
    RunConverged(docs, centroids, sqrt, iteration);
    if out.converged {
      ClustersWellFormed(docs, out.centroids, sqrt);
    }
  }

  /**
   * The final clusters are an assignment of every document to exactly one
   * of the k clusters: the clusters of some centroid list of length k.
   */
  lemma {:induction false} RunAssignsEveryDocument(docs: seq<SparseVec>, centroids: seq<SparseVec>, sqrt: real -> real, iteration: nat)
    requires |centroids| > 0 && iteration < MaxIterations
    ensures exists previous: seq<SparseVec> ::
      |previous| == |centroids| && Run(docs, centroids, sqrt, iteration).clusters == Clusters(docs, previous, sqrt)
    decreases MaxIterations - iteration
  {
    var next := Step(docs, centroids, sqrt);
    if next != centroids && iteration + 1 < MaxIterations {
      RunAssignsEveryDocument(docs, next, sqrt, iteration + 1);
    } else {
      assert Run(docs, centroids, sqrt, iteration).clusters == Clusters(docs, centroids, sqrt);
    }
  }

  /** Starting from non-negative documents and centroids (as TF-IDF vectors are), every centroid stays non-negative. */
  lemma {:induction false} RunPreservesNonNegative(docs: seq<SparseVec>, centroids: seq<SparseVec>, sqrt: real -> real, iteration: nat)
    requires |centroids| > 0 && iteration < MaxIterations
    requires AllNonNegative(docs) && AllNonNegative(centroids)
    ensures AllNonNegative(Run(docs, centroids, sqrt, iteration).centroids)
    decreases MaxIterations - iteration
  {
    var out, next := Run(docs, centroids, sqrt, iteration), Step(docs, centroids, sqrt);
    StepPreservesNonNegative(docs, centroids, sqrt);
    if next == centroids {
      assert out.centroids == centroids;
    } else if iteration + 1 == MaxIterations {
      assert out.centroids == next;
    } else {
      RunPreservesNonNegative(docs, next, sqrt, iteration + 1);
      assert out.centroids == Run(docs, next, sqrt, iteration + 1).centroids;
    }
  }

  /** With a non-negative IDF table (as IdfProperties gives), every sampled document vector is non-negative. */
  lemma SampleVectorsNonNegative(sample: seq<Review>, idf: SparseVec, lx: Lexer)
    requires NonNegative(idf)
    ensures AllNonNegative(SampleVectors(sample, idf, lx))
  {
    var docs := SampleVectors(sample, idf, lx);
    forall i | 0 <= i < |docs| ensures NonNegative(docs[i]) {
      SampleVectorsAt(sample, idf, lx, i);
      TfIdfNonNegative(ReviewTokens(sample[i], lx), idf);
    }
  }

  /**
   * The clustering of the notebook: vectorize the sample with the corpus
   * IDF table, then run k-means with k = 4 from the given centroids.
   */
  method ClusterReviews(sample: seq<Review>, idf: SparseVec, lx: Lexer, initial: seq<SparseVec>, sqrt: real -> real)
    returns (outcome: Outcome)
    requires |initial| == K
    ensures outcome == Run(SampleVectors(sample, idf, lx), initial, sqrt, 0)
  {
    var docs := VectorizeSample(sample, idf, lx);
    var clusters, centroids, iterations, converged := Cluster(docs, initial, sqrt);
    outcome := Outcome(clusters, centroids, iterations, converged);
  }
}
