/**
 * Sparse vectors: Python dicts from token to weight, with absence meaning
 * weight zero. This module holds the arithmetic every later stage reuses:
 * the dot product (both the one-line generator sum and the diagnostic
 * re-definition that also reports each token's contribution), cosine
 * similarity with its zero-magnitude guard, and the mean of a list of
 * vectors.
 */
module SparseVector {
  import opened TokenOrder
  import opened RealMath

  type Token = string
  type SparseVec = map<Token, real>

  /** The weight of t in v; a missing key weighs zero. */
  function Weight(v: SparseVec, t: Token): real {
    if t in v then v[t] else 0.0
  }

  /** Sum of Weight(v, t) over the given keys, taken in lexicographic order. */
  function Sum(keys: set<Token>, v: SparseVec): real
    decreases keys
  {
    if keys == {} then 0.0
    else
      var t := Least(keys);
      Weight(v, t) + Sum(keys - {t}, v)
  }

  /** The sum of all weights of v. */
  function Total(v: SparseVec): real {
    Sum(v.Keys, v)
  }

  /** Every key may be taken out first: the sum does not depend on the order of the keys. */
  lemma {:induction false} SumRemove(keys: set<Token>, v: SparseVec, x: Token)
    requires x in keys
    ensures Sum(keys, v) == Weight(v, x) + Sum(keys - {x}, v)
    decreases |keys|
  {
    var m := Least(keys);
    if m != x {
      SumRemove(keys - {m}, v, x);
      SumRemove(keys - {x}, v, m);
      assert keys - {m} - {x} == keys - {x} - {m};
    }
  }

  /** Adding one key adds its weight. */
  lemma SumAdd(keys: set<Token>, v: SparseVec, x: Token)
    requires x !in keys
    ensures Sum(keys + {x}, v) == Sum(keys, v) + Weight(v, x)
  {
    SumRemove(keys + {x}, v, x);
    assert keys + {x} - {x} == keys;
  }

  /** Two vectors that weigh every key alike have the same sum over those keys. */
  lemma {:induction false} SumAgree(keys: set<Token>, v: SparseVec, w: SparseVec)
    requires forall t | t in keys :: Weight(v, t) == Weight(w, t)
    ensures Sum(keys, v) == Sum(keys, w)
    decreases |keys|
  {
    if keys != {} {
      SumAgree(keys - {Least(keys)}, v, w);
    }
  }

  /** Keys whose weight is zero contribute nothing. */
  lemma {:induction false} SumOfZeros(keys: set<Token>, v: SparseVec)
    requires forall t | t in keys :: Weight(v, t) == 0.0
    ensures Sum(keys, v) == 0.0
    decreases |keys|
  {
    if keys != {} {
      SumOfZeros(keys - {Least(keys)}, v);
    }
  }

  /** Summing over more keys than v holds only adds zeros. */
  lemma {:induction false} SumOverSuperset(keys: set<Token>, v: SparseVec)
    requires v.Keys <= keys
    ensures Sum(keys, v) == Total(v)
    decreases |keys|
  {
    if keys - v.Keys != {} {
      var x :| x in keys - v.Keys;
      SumRemove(keys, v, x);
      SumOverSuperset(keys - {x}, v);
    } else {
      assert keys == v.Keys;
    }
  }

  /** Overwriting the weight of one key changes the total by the difference. */
  lemma TotalUpdate(v: SparseVec, x: Token, w: real)
    ensures Total(v[x := w]) == Total(v) - Weight(v, x) + w
  {
    var v' := v[x := w];
    assert v'.Keys == v.Keys + {x};
    SumRemove(v'.Keys, v', x);
    SumAgree(v'.Keys - {x}, v', v);
    if x in v {
      assert v'.Keys == v.Keys;
      SumRemove(v.Keys, v, x);
    } else {
      assert v'.Keys - {x} == v.Keys;
    }
  }

  /** A sum of non-negative weights is non-negative, and zero only when each weight is. */
  lemma {:induction false} SumNonNegative(keys: set<Token>, v: SparseVec)
    requires forall t | t in v :: 0.0 <= v[t]
    ensures 0.0 <= Sum(keys, v)
    ensures Sum(keys, v) == 0.0 <==> forall t | t in keys :: Weight(v, t) == 0.0
    decreases |keys|
  {
    if keys != {} {
      var m := Least(keys);
      SumNonNegative(keys - {m}, v);
    }
  }

  /** Multiplies every weight of v by c. */
  function Scale(c: real, v: SparseVec): (r: SparseVec)
    ensures r.Keys == v.Keys
  {
    map t | t in v :: c * v[t]
  }

  lemma {:induction false} SumScale(keys: set<Token>, c: real, v: SparseVec)
    ensures Sum(keys, Scale(c, v)) == c * Sum(keys, v)
    decreases |keys|
  {
    if keys != {} {
      var m := Least(keys);
      SumScale(keys - {m}, c, v);
      assert Weight(Scale(c, v), m) == c * Weight(v, m);
    }
  }

  /** The tokens present in both vectors, each with the product of its two weights. */
  function Hadamard(a: SparseVec, b: SparseVec): (p: SparseVec)
    ensures p.Keys == a.Keys * b.Keys
  {
    map t | t in a && t in b :: a[t] * b[t]
  }

  /**
   * sparse_dot_product: the sum of a[t] * b[t] over the tokens t of a that
   * are also in b.
   */
  function Dot(a: SparseVec, b: SparseVec): real {
    Sum(a.Keys, Hadamard(a, b))
  }

  /** Only the shared tokens count: the dot product is the total of the pointwise products. */
  lemma DotSharedTokens(a: SparseVec, b: SparseVec)
    ensures Dot(a, b) == Total(Hadamard(a, b))
    ensures (forall t | t in a :: t !in b) ==> Dot(a, b) == 0.0
  {
    SumOverSuperset(a.Keys, Hadamard(a, b));
    if forall t | t in a :: t !in b {
      SumOfZeros(a.Keys, Hadamard(a, b));
    }
  }

  /** Dropping from a the tokens that b lacks does not change the dot product. */
  lemma DotRestrict(a: SparseVec, b: SparseVec)
    ensures Dot(a, b) == Dot(map t | t in a && t in b :: a[t], b)
  {
    var a' := map t | t in a && t in b :: a[t];
    var h, h' := Hadamard(a, b), Hadamard(a', b);
    assert h'.Keys == h.Keys;
    forall t | t in h' ensures h'[t] == h[t] {
      assert a'[t] == a[t];
    }
    assert h' == h;
    DotSharedTokens(a, b);
    DotSharedTokens(a', b);
  }

  lemma DotSymmetric(a: SparseVec, b: SparseVec)
    ensures Dot(a, b) == Dot(b, a)
  {
    assert Hadamard(a, b) == Hadamard(b, a);
    DotSharedTokens(a, b);
    DotSharedTokens(b, a);
  }

  /** The dot product of a vector with itself is non-negative, and zero exactly when every weight is. */
  lemma DotSelf(v: SparseVec)
    ensures 0.0 <= Dot(v, v)
    ensures Dot(v, v) == 0.0 <==> IsZero(v)
  {
    var p := Hadamard(v, v);
    forall t | t in p ensures 0.0 <= p[t] {
      assert p[t] == v[t] * v[t];
    }
    SumNonNegative(v.Keys, p);
    if Dot(v, v) == 0.0 {
      forall t | t in v ensures v[t] == 0.0 {
        calc { v[t] * v[t]; == Weight(p, t); == 0.0; }
        SquareZero(v[t]);
      }
    }
  }

  lemma SquareZero(x: real)
    requires x * x == 0.0
    ensures x == 0.0
  {
    if x < 0.0 {
      calc { 0.0; == x * x; == (-x) * (-x); > 0.0; }
    } else if 0.0 < x {
      calc { 0.0; == x * x; > 0.0; }
    }
  }

  lemma MulAssociative(c: real, x: real, y: real)
    ensures (c * x) * y == c * (x * y)
  {
  }

  lemma HadamardScaleAt(c: real, a: SparseVec, b: SparseVec, t: Token)
    requires t in a && t in b
    ensures t in Hadamard(Scale(c, a), b) && t in Scale(c, Hadamard(a, b))
    ensures Hadamard(Scale(c, a), b)[t] == Scale(c, Hadamard(a, b))[t]
  {
    calc {
      Hadamard(Scale(c, a), b)[t];
      Scale(c, a)[t] * b[t];
      { assert Scale(c, a)[t] == c * a[t]; }
      (c * a[t]) * b[t];
      { MulAssociative(c, a[t], b[t]); }
      c * (a[t] * b[t]);
      { assert Hadamard(a, b)[t] == a[t] * b[t]; }
      c * Hadamard(a, b)[t];
      Scale(c, Hadamard(a, b))[t];
    }
  }

  lemma HadamardScale(c: real, a: SparseVec, b: SparseVec)
    ensures Hadamard(Scale(c, a), b) == Scale(c, Hadamard(a, b))
  {
    var h', sh := Hadamard(Scale(c, a), b), Scale(c, Hadamard(a, b));
    forall t | t in h' ensures h'[t] == sh[t] {
      HadamardScaleAt(c, a, b, t);
    }
    assert h'.Keys == sh.Keys;
  }

  /** Scaling the first vector by c scales the dot product by c. */
  lemma DotScale(c: real, a: SparseVec, b: SparseVec)
    ensures Dot(Scale(c, a), b) == c * Dot(a, b)
  {
    var h := Hadamard(a, b);
    HadamardScale(c, a, b);
    SumScale(a.Keys, c, h);
    calc {
      Dot(Scale(c, a), b);
      == Sum(Scale(c, a).Keys, Hadamard(Scale(c, a), b));
      == { assert Scale(c, a).Keys == a.Keys; }
      Sum(a.Keys, Scale(c, h));
      == c * Sum(a.Keys, h);
      == c * Dot(a, b);
    }
  }

  /** Vectors with non-negative weights have a non-negative dot product. */
  lemma DotNonNegative(a: SparseVec, b: SparseVec)
    requires NonNegative(a) && NonNegative(b)
    ensures 0.0 <= Dot(a, b)
  {
    SumNonNegative(a.Keys, Hadamard(a, b));
  }

  /** Away from the reweighted token, the products are those of a. */
  lemma HadamardAtOther(a: SparseVec, b: SparseVec, x: Token, w: real, t: Token)
    requires t != x
    ensures t in Hadamard(a[x := w], b) <==> t in Hadamard(a, b)
    ensures t in Hadamard(a, b) ==> Hadamard(a[x := w], b)[t] == Hadamard(a, b)[t]
  {
    var a' := a[x := w];
    if t in a && t in b {
      assert a'[t] == a[t];
    }
  }

  /** Reweighting a token of a that b also holds changes only the product stored for that token. */
  lemma HadamardUpdateShared(a: SparseVec, b: SparseVec, x: Token, w: real)
    requires x in b
    ensures x in Hadamard(a[x := w], b)
    ensures Hadamard(a[x := w], b) == Hadamard(a, b)[x := Hadamard(a[x := w], b)[x]]
  {
    var h, h' := Hadamard(a, b), Hadamard(a[x := w], b);
    assert x in h';
    var e := h[x := h'[x]];
    forall t | t in h' && t != x ensures h'[t] == e[t] {
      HadamardAtOther(a, b, x, w, t);
    }
    forall t | t != x ensures t in h' <==> t in e {
      HadamardAtOther(a, b, x, w, t);
    }
    assert h'.Keys == e.Keys;
  }

  /** Reweighting a token b does not hold changes no product. */
  lemma HadamardUpdateUnshared(a: SparseVec, b: SparseVec, x: Token, w: real)
    requires x !in b
    ensures Hadamard(a[x := w], b) == Hadamard(a, b)
  {
    var h, h' := Hadamard(a, b), Hadamard(a[x := w], b);
    forall t | t in h' ensures h'[t] == h[t] {
      assert t in b;
      HadamardAtOther(a, b, x, w, t);
    }
    forall t | t != x ensures t in h' <==> t in h {
      HadamardAtOther(a, b, x, w, t);
    }
    assert x !in h' && x !in h;
    assert h'.Keys == h.Keys;
  }

  /** Reweighting one token of a changes the dot product by the change in that token's product. */
  lemma DotReweigh(a: SparseVec, b: SparseVec, x: Token, w: real)
    ensures Dot(a[x := w], b) == Dot(a, b) - Weight(Hadamard(a, b), x) + Weight(Hadamard(a[x := w], b), x)
  {
    var h, h' := Hadamard(a, b), Hadamard(a[x := w], b);
    SumOverSuperset(a[x := w].Keys, h');
    SumOverSuperset(a.Keys, h);
    if x in b {
      HadamardUpdateShared(a, b, x, w);
      TotalUpdate(h, x, h'[x]);
    } else {
      HadamardUpdateUnshared(a, b, x, w);
      assert x !in h;
    }
  }

  lemma IncrementArithmetic(u: real, v: real, y: real, p: real, q: real)
    requires v == u + 1.0 && p == v * y && q == u * y
    ensures p == q + y
  {
  }

  lemma HadamardIncrementHeld(a: SparseVec, b: SparseVec, x: Token)
    requires x in a && x in b
    ensures Hadamard(a[x := a[x] + 1.0], b)[x] == Hadamard(a, b)[x] + b[x]
  {
    var a' := a[x := a[x] + 1.0];
    var p, q := Hadamard(a', b)[x], Hadamard(a, b)[x];
    assert p == a'[x] * b[x];
    assert q == a[x] * b[x];
    IncrementArithmetic(a[x], a'[x], b[x], p, q);
  }

  lemma HadamardIncrementNew(a: SparseVec, b: SparseVec, x: Token)
    requires x !in a && x in b
    ensures Hadamard(a[x := 1.0], b)[x] == b[x]
  {
    var a' := a[x := 1.0];
    var p := Hadamard(a', b)[x];
    assert p == a'[x] * b[x];
    IncrementArithmetic(0.0, a'[x], b[x], p, 0.0);
  }

  /** One more occurrence of x in a adds x's weight in b to x's product. */
  lemma HadamardIncrement(a: SparseVec, b: SparseVec, x: Token)
    ensures Weight(Hadamard(a[x := Weight(a, x) + 1.0], b), x) == Weight(Hadamard(a, b), x) + Weight(b, x)
  {
    if x in b {
      if x in a {
        HadamardIncrementHeld(a, b, x);
      } else {
        HadamardIncrementNew(a, b, x);
        assert Weight(a, x) + 1.0 == 1.0;
        assert x !in Hadamard(a, b);
      }
    } else {
      assert x !in Hadamard(a, b) && x !in Hadamard(a[x := Weight(a, x) + 1.0], b);
    }
  }

  /**
   * Counting one more occurrence of x in a (its weight goes up by one)
   * adds x's weight in b to the dot product.
   */
  lemma DotIncrement(a: SparseVec, b: SparseVec, x: Token)
    ensures Dot(a[x := Weight(a, x) + 1.0], b) == Dot(a, b) + Weight(b, x)
  {
    DotReweigh(a, b, x, Weight(a, x) + 1.0);
    HadamardIncrement(a, b, x);
  }

  /** A vector carrying no weight: every stored weight is zero (the empty vector included). */
  predicate IsZero(v: SparseVec) {
    forall t | t in v :: v[t] == 0.0
  }

  predicate NonNegative(v: SparseVec) {
    forall t | t in v :: 0.0 <= v[t]
  }

  /** One row of the diagnostic report: the two weights and their product. */
  datatype Contribution = Contribution(frequency: real, weight: real, contribution: real)

  /**
   * The diagnostic re-definition of sparse_dot_product: walks the tokens of
   * vec1, records the contribution of every token also in vec2, and returns
   * the same total as Dot.
   */
  method ExplainDotProduct(vec1: SparseVec, vec2: SparseVec)
    returns (total: real, contributions: map<Token, Contribution>)
    ensures total == Dot(vec1, vec2)
    ensures contributions.Keys == vec1.Keys * vec2.Keys
    ensures forall t | t in contributions ::
      contributions[t] == Contribution(vec1[t], vec2[t], vec1[t] * vec2[t])
  {
    ghost var products := Hadamard(vec1, vec2);
    contributions := map[];
    total := 0.0;
    var rest := vec1.Keys;
    while rest != {}
      invariant rest <= vec1.Keys
      invariant total == Sum(vec1.Keys - rest, products)
      invariant contributions.Keys == (vec1.Keys - rest) * vec2.Keys
      invariant forall t | t in contributions ::
        contributions[t] == Contribution(vec1[t], vec2[t], vec1[t] * vec2[t])
      decreases rest
    {
      var token :| token in rest;
      SumAdd(vec1.Keys - rest, products, token);
      if token in vec2 {
        var freq := vec1[token];
        var weight := vec2[token];
        var product := freq * weight;
        contributions := contributions[token := Contribution(freq, weight, product)];
        total := total + product;
      }
      assert vec1.Keys - (rest - {token}) == (vec1.Keys - rest) + {token};
      rest := rest - {token};
    }
    assert vec1.Keys - rest == vec1.Keys;
  }

  /** The magnitude of a vector, sqrt(dot(v, v)). */
  function Magnitude(v: SparseVec, sqrt: real -> real): real {
    sqrt(Dot(v, v))
  }

  lemma MagnitudeZero(v: SparseVec, sqrt: real -> real)
    requires IsSqrt(sqrt)
    ensures 0.0 <= Magnitude(v, sqrt)
    ensures Magnitude(v, sqrt) == 0.0 <==> IsZero(v)
  {
    DotSelf(v);
    SqrtZeroIff(sqrt, Dot(v, v));
  }

  /**
   * cosine_similarity: the dot product divided by the product of the two
   * magnitudes, or exactly 0.0 when either magnitude is zero.
   */
  function CosineSimilarity(vec1: SparseVec, vec2: SparseVec, sqrt: real -> real): real {
    var dot := Dot(vec1, vec2);
    var mag1 := Magnitude(vec1, sqrt);
    var mag2 := Magnitude(vec2, sqrt);
    if mag1 == 0.0 || mag2 == 0.0 then 0.0 else dot / (mag1 * mag2)
  }

  /** A vector without weight is similar to nothing, on either side. */
  lemma CosineOfZeroVector(a: SparseVec, b: SparseVec, sqrt: real -> real)
    requires IsSqrt(sqrt)
    requires IsZero(a) || IsZero(b)
    ensures CosineSimilarity(a, b, sqrt) == 0.0
  {
    MagnitudeZero(a, sqrt);
    MagnitudeZero(b, sqrt);
  }

  /** A vector with weight is perfectly similar to itself. */
  lemma CosineSelf(v: SparseVec, sqrt: real -> real)
    requires IsSqrt(sqrt)
    requires !IsZero(v)
    ensures CosineSimilarity(v, v, sqrt) == 1.0
  {
    DotSelf(v);
    MagnitudeZero(v, sqrt);
    var m := Magnitude(v, sqrt);
    assert m * m == Dot(v, v) && m != 0.0;
    calc {
      CosineSimilarity(v, v, sqrt);
      == Dot(v, v) / (m * m);
      == Dot(v, v) / Dot(v, v);
      == 1.0;
    }
  }

  lemma CosineSymmetric(a: SparseVec, b: SparseVec, sqrt: real -> real)
    ensures CosineSimilarity(a, b, sqrt) == CosineSimilarity(b, a, sqrt)
  {
    DotSymmetric(a, b);
  }

  /** Vectors with non-negative weights (TF-IDF vectors among them) have a non-negative similarity. */
  lemma CosineNonNegative(a: SparseVec, b: SparseVec, sqrt: real -> real)
    requires IsSqrt(sqrt)
    requires NonNegative(a) && NonNegative(b)
    ensures 0.0 <= CosineSimilarity(a, b, sqrt)
  {
    DotNonNegative(a, b);
    MagnitudeZero(a, sqrt);
    MagnitudeZero(b, sqrt);
    var m1, m2 := Magnitude(a, sqrt), Magnitude(b, sqrt);
    if m1 != 0.0 && m2 != 0.0 {
      assert 0.0 < m1 * m2;
    }
  }

  /** The union of the keys of a list of vectors. */
  function KeysOf(vs: seq<SparseVec>): set<Token> {
    if vs == [] then {} else KeysOf(vs[..|vs| - 1]) + vs[|vs| - 1].Keys
  }

  /** The last vector that holds a token of KeysOf(vs). */
  function HolderOf(vs: seq<SparseVec>, t: Token): (i: nat)
    requires t in KeysOf(vs)
    ensures i < |vs| && t in vs[i]
  {
    var n := |vs| - 1;
    if t in vs[n] then n else HolderOf(vs[..n], t)
  }

  lemma {:induction false} KeysOfCovers(vs: seq<SparseVec>, i: nat)
    requires i < |vs|
    ensures vs[i].Keys <= KeysOf(vs)
  {
    var n := |vs| - 1;
    if i < n {
      KeysOfCovers(vs[..n], i);
      assert vs[..n][i] == vs[i];
    }
  }

  /** KeysOf is the union: a token is in it exactly when some vector holds it. */
  lemma KeysOfUnion(vs: seq<SparseVec>)
    ensures forall i | 0 <= i < |vs| :: vs[i].Keys <= KeysOf(vs)
    ensures forall t | t in KeysOf(vs) :: exists i :: 0 <= i < |vs| && t in vs[i]
  {
    forall i | 0 <= i < |vs| ensures vs[i].Keys <= KeysOf(vs) {
      KeysOfCovers(vs, i);
    }
    forall t | t in KeysOf(vs) ensures exists i :: 0 <= i < |vs| && t in vs[i] {
      var i := HolderOf(vs, t);
      assert t in vs[i];
    }
  }

  /** The weight of t summed over a list of vectors, missing keys counting zero. */
  function ColumnSum(vs: seq<SparseVec>, t: Token): real {
    if vs == [] then 0.0
    else ColumnSum(vs[..|vs| - 1], t) + Weight(vs[|vs| - 1], t)
  }

  /** A token that no vector holds has column sum zero. */
  lemma {:induction false} ColumnSumOutside(vs: seq<SparseVec>, t: Token)
    requires t !in KeysOf(vs)
    ensures ColumnSum(vs, t) == 0.0
  {
    if vs != [] {
      ColumnSumOutside(vs[..|vs| - 1], t);
    }
  }

  /**
   * The keywise mean of a list of vectors: every key of some vector, with
   * its column sum divided by the number of vectors. The mean of no
   * vectors is the empty vector (there is then no key to divide).
   */
  function MeanOf(vs: seq<SparseVec>): SparseVec {
    map t | t in KeysOf(vs) :: ColumnSum(vs, t) / (|vs| as real)
  }

  /** Running sums of a list of vectors, as mean_vector keeps them in summed. */
  ghost predicate IsRunningSum(summed: SparseVec, vs: seq<SparseVec>) {
    && summed.Keys == KeysOf(vs)
    && forall key | key in summed :: summed[key] == ColumnSum(vs, key)
  }

  /** Folding one more vector into the running sums. */
  lemma RunningSumStep(vs: seq<SparseVec>, v: SparseVec, before: SparseVec, after: SparseVec)
    requires IsRunningSum(before, vs)
    requires after.Keys == before.Keys + v.Keys
    requires forall key | key in after :: after[key] == Weight(before, key) + Weight(v, key)
    ensures IsRunningSum(after, vs + [v])
  {
    var vs' := vs + [v];
    assert vs'[..|vs'| - 1] == vs;
    forall key | key in after ensures after[key] == ColumnSum(vs', key) {
      if key !in before {
        ColumnSumOutside(vs, key);
      }
    }
  }

  /** mean_vector: accumulates the keywise sums, then divides each by the count. */
  method MeanVector(vectors: seq<SparseVec>) returns (mean: SparseVec)
    ensures mean == MeanOf(vectors)
  {
    var summed: SparseVec := map[];
    var i := 0;
    while i < |vectors|
      invariant 0 <= i <= |vectors|
      invariant IsRunningSum(summed, vectors[..i])
    {
      var vec := vectors[i];
      ghost var before := summed;
      var rest := vec.Keys;
      while rest != {}
        invariant rest <= vec.Keys
        invariant summed.Keys == before.Keys + (vec.Keys - rest)
        invariant forall key | key in summed ::
          summed[key] == Weight(before, key) + (if key in vec && key !in rest then vec[key] else 0.0)
        decreases rest
      {
        var key :| key in rest;
        summed := summed[key := (if key in summed then summed[key] else 0.0) + vec[key]];
        rest := rest - {key};
      }
      assert vectors[..i + 1] == vectors[..i] + [vec];
      RunningSumStep(vectors[..i], vec, before, summed);
      i := i + 1;
    }
    assert vectors[..i] == vectors;
    var count := |vectors|;
    mean := map key | key in summed :: summed[key] / count as real;
  }

  lemma AddOneMore(k: real, w: real, prev: real)
    requires prev == k * w
    ensures prev + w == (k + 1.0) * w
  {
  }

  lemma {:induction false} ColumnSumOfCopies(vs: seq<SparseVec>, v: SparseVec, t: Token)
    requires forall i | 0 <= i < |vs| :: vs[i] == v
    ensures ColumnSum(vs, t) == |vs| as real * Weight(v, t)
  {
    if vs != [] {
      var n := |vs| - 1;
      ColumnSumOfCopies(vs[..n], v, t);
      AddOneMore(n as real, Weight(v, t), ColumnSum(vs[..n], t));
    }
  }

  lemma DivideBack(k: real, w: real, s: real)
    requires k > 0.0 && s == k * w
    ensures s / k == w
  {
  }

  /** The mean of copies of one vector is that vector; in particular, the mean of [v] is v. */
  lemma MeanOfCopies(vs: seq<SparseVec>, v: SparseVec)
    requires vs != []
    requires forall i | 0 <= i < |vs| :: vs[i] == v
    ensures MeanOf(vs) == v
  {
    var mean := MeanOf(vs);
    KeysOfUnion(vs);
    assert mean.Keys == v.Keys;
    forall t | t in mean ensures mean[t] == v[t] {
      var k, total := |vs| as real, ColumnSum(vs, t);
      assert mean[t] == total / k;
      ColumnSumOfCopies(vs, v, t);
      DivideBack(k, Weight(v, t), total);
    }
  }

  lemma {:induction false} ColumnSumNonNegative(vs: seq<SparseVec>, t: Token)
    requires forall i | 0 <= i < |vs| :: NonNegative(vs[i])
    ensures 0.0 <= ColumnSum(vs, t)
  {
    if vs != [] {
      ColumnSumNonNegative(vs[..|vs| - 1], t);
    }
  }

  /** The mean of non-negative vectors is non-negative. */
  lemma MeanNonNegative(vs: seq<SparseVec>)
    requires forall i | 0 <= i < |vs| :: NonNegative(vs[i])
    ensures NonNegative(MeanOf(vs))
  {
    var mean := MeanOf(vs);
    forall t | t in mean ensures 0.0 <= mean[t] {
      ColumnSumNonNegative(vs, t);
      assert vs != [];
    }
  }
}
