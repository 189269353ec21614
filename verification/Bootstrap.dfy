/**
 Bootstrap resampling (src/pilot/evaluate.ts): indices drawn from 64-bit digests without bias, and the
 percentile interval over the replicate statistics.
 */
module Bootstrap {
  import opened Prelude
  import opened Sorting

  const TWO_64: nat := 0x1_0000_0000_0000_0000
  /** The first value that is rejected. */
  function RejectionLimit(n: nat): nat
    requires n > 0
  {
    (TWO_64 / n) * n
  }

  // ---- No bias -------------------------------------------------------------------------

  /** The accepted values below `q * n` that stand for index `i`. */
  ghost function Preimages(q: nat, n: nat, i: nat): set<nat>
    requires i < n
  {
    set v: nat | v < q * n && v % n == i
  }

  lemma BlockResidue(q: nat, n: nat, v: nat, i: nat)
    requires i < n && q * n <= v < q * n + n
    ensures v % n == i <==> v == q * n + i
  {
    ResidueOf(q, n, v - q * n);
  }

  lemma ResidueOf(q: nat, n: nat, r: nat)
    requires r < n
    ensures (q * n + r) % n == r && (q * n + r) / n == q
  {
    var v := q * n + r;
    assert v == (v / n) * n + v % n;
    SameQuotient(q, v / n, n, r, v % n);
  }

  lemma SameQuotient(a: int, b: int, n: int, r: int, s: int)
    requires n > 0 && 0 <= r < n && 0 <= s < n && a * n + r == b * n + s
    ensures a == b && r == s
  {
    Apart(a, b, n);
    Apart(b, a, n);
  }

  lemma Apart(a: int, b: int, n: int)
    requires n > 0
    ensures a < b ==> b * n >= a * n + n
    ensures a == b ==> b * n == a * n
  {
    if a < b {
      var d := b - a - 1;
      assert b * n == (a + 1 + d) * n == a * n + n + d * n;
      NonNegativeProduct(d, n);
    }
  }

  lemma NonNegativeProduct(d: int, n: int)
    requires d >= 0 && n >= 0
    ensures d * n >= 0
  {
  }

  lemma {:induction false} PreimageCount(q: nat, n: nat, i: nat)
    requires i < n
    ensures |Preimages(q, n, i)| == q
  {
    if q == 0 {
      assert Preimages(0, n, i) == {};
    } else {
      PreimageCount(q - 1, n, i);
      PreimageStep(q - 1, n, i);
    }
  }

  lemma PreimageStep(q: nat, n: nat, i: nat)
    requires i < n
    ensures Preimages(q + 1, n, i) == Preimages(q, n, i) + {q * n + i} && q * n + i !in Preimages(q, n, i)
  {
    assert (q + 1) * n == q * n + n;
    var now, before := Preimages(q + 1, n, i), Preimages(q, n, i) + {q * n + i};
    forall v: nat ensures v in now <==> v in before {
      if q * n <= v < q * n + n { BlockResidue(q, n, v, i); }
      ResidueOf(q, n, i);
    }
  }

  /**
   For every population size, each index has exactly the same number of accepted 64-bit values, and fewer
   values than the population size are rejected.
   */
  lemma Unbiased(n: nat, i: nat)
    requires i < n
    ensures |set v: nat | v < RejectionLimit(n) && v % n == i| == TWO_64 / n
    ensures 0 <= TWO_64 - RejectionLimit(n) < n
  {
    PreimageCount(TWO_64 / n, n, i);
    assert Preimages(TWO_64 / n, n, i) == set v: nat | v < RejectionLimit(n) && v % n == i;
    LimitClose(TWO_64, n);
  }

  lemma LimitClose(m: nat, n: nat)
    requires n > 0
    ensures 0 <= m - (m / n) * n < n
  {
    assert m == (m / n) * n + m % n;
  }

  // ---- Drawing -------------------------------------------------------------------------

  /** The first 64 bits of the digest for a replicate, a draw and a nonce. */
  type Digest = (nat, nat, nat) -> nat

  predicate Accepted(digest: Digest, n: nat, replicate: nat, draw: nat, nonce: nat)
    requires n > 0
  {
    digest(replicate, draw, nonce) < RejectionLimit(n)
  }

  /** Drawing stops: some nonce below the bound is accepted. */
  predicate Stops(digest: Digest, n: nat, replicate: nat, draw: nat, bound: nat)
    requires n > 0
  {
    exists nonce | 0 <= nonce < bound :: Accepted(digest, n, replicate, draw, nonce)
  }

  /** The index drawn: the first accepted value, reduced. */
  ghost predicate Draws(digest: Digest, n: nat, replicate: nat, draw: nat, index: int)
    requires n > 0
  {
    exists nonce: nat ::
      && Accepted(digest, n, replicate, draw, nonce) && index == digest(replicate, draw, nonce) % n
      && forall earlier: nat | earlier < nonce :: !Accepted(digest, n, replicate, draw, earlier)
  }

  lemma DrawUnique(digest: Digest, n: nat, replicate: nat, draw: nat, i: int, j: int)
    requires n > 0 && Draws(digest, n, replicate, draw, i) && Draws(digest, n, replicate, draw, j)
    ensures i == j && 0 <= i < n
  {
    var a: nat :| Accepted(digest, n, replicate, draw, a) && i == digest(replicate, draw, a) % n
                  && forall earlier: nat | earlier < a :: !Accepted(digest, n, replicate, draw, earlier);
    var b: nat :| Accepted(digest, n, replicate, draw, b) && j == digest(replicate, draw, b) % n
                  && forall earlier: nat | earlier < b :: !Accepted(digest, n, replicate, draw, earlier);
    assert a == b;
  }

  /** What a draw gives: the first of its values that lies under the largest multiple of the size, reduced. */
  lemma DrawIs(digest: Digest, n: nat, replicate: nat, draw: nat, index: int)
    requires n > 0
    ensures Draws(digest, n, replicate, draw, index) <==>
              exists nonce: nat ::
                && digest(replicate, draw, nonce) < 18446744073709551616 / n * n && index == digest(replicate, draw, nonce) % n
                && forall earlier: nat | earlier < nonce :: digest(replicate, draw, earlier) >= 18446744073709551616 / n * n
  {
  }

  method DrawIndex(digest: Digest, n: nat, replicate: nat, draw: nat, ghost bound: nat) returns (index: nat)
    requires n > 0 && Stops(digest, n, replicate, draw, bound)
    ensures index < n && Draws(digest, n, replicate, draw, index)
  {
    hide RejectionLimit;
    var nonce := 0;
    while !Accepted(digest, n, replicate, draw, nonce)
      invariant nonce < bound
      invariant forall earlier: nat | earlier < nonce :: !Accepted(digest, n, replicate, draw, earlier)
      decreases bound - nonce
    {
      nonce := nonce + 1;
    }
    index := digest(replicate, draw, nonce) % n;
  }

  predicate ValidRequest(populationSize: int, iterations: int) {
    0 < populationSize <= MAX_SAFE_INTEGER && 1 <= iterations <= MAX_SAFE_INTEGER
  }

  /** Replicate `r` has one drawn index per member of the population. */
  ghost predicate IsReplicate(digest: Digest, n: nat, r: nat, sample: seq<nat>)
    requires n > 0
  {
    |sample| == n && forall d | 0 <= d < n :: sample[d] < n && Draws(digest, n, r, d, sample[d])
  }

  /** The digest fixes the replicate: every draw has one first accepted value. */
  lemma ReplicateDetermined(digest: Digest, n: nat, r: nat, a: seq<nat>, b: seq<nat>)
    requires n > 0 && IsReplicate(digest, n, r, a) && IsReplicate(digest, n, r, b)
    ensures a == b
  {
    hide Draws;
    forall d | 0 <= d < n ensures a[d] == b[d] {
      DrawUnique(digest, n, r, d, a[d], b[d]);
    }
  }

  /** `deterministicBootstrapIndices`; `bound` only says that every draw stops. */
  method DeterministicBootstrapIndices(digest: Digest, populationSize: int, iterations: int, ghost bound: nat)
    returns (r: Result<seq<seq<nat>>>)
    requires ValidRequest(populationSize, iterations) ==>
               forall replicate: nat, draw: nat | replicate < iterations && draw < populationSize ::
                 Stops(digest, populationSize, replicate, draw, bound)
    ensures r.Ok? <==> ValidRequest(populationSize, iterations)
    ensures r.Ok? ==> |r.value| == iterations
    ensures r.Ok? ==> forall k | 0 <= k < iterations :: IsReplicate(digest, populationSize, k, r.value[k])
  {
    hide Stops, Draws;
    if populationSize <= 0 || populationSize > MAX_SAFE_INTEGER { return Err("BOOTSTRAP_POPULATION_INVALID"); }
    if iterations < 1 || iterations > MAX_SAFE_INTEGER { return Err("BOOTSTRAP_ITERATIONS_INVALID"); }
    var n: nat := populationSize;
    var replicates: seq<seq<nat>> := [];
    var replicate: nat := 0;
    while replicate < iterations
      invariant 0 <= replicate == |replicates| <= iterations
      invariant forall k | 0 <= k < replicate :: IsReplicate(digest, n, k, replicates[k])
    {
      var sample: seq<nat> := [];
      var draw: nat := 0;
      while draw < n
        invariant 0 <= draw == |sample| <= n
        invariant forall d | 0 <= d < draw :: sample[d] < n && Draws(digest, n, replicate, d, sample[d])
      {
        var index := DrawIndex(digest, n, replicate, draw, bound);
        sample := sample + [index];
        draw := draw + 1;
      }
      replicates := replicates + [sample];
      replicate := replicate + 1;
    }
    r := Ok(replicates);
  }

  // ---- Percentile interval ---------------------------------------------------------------

  datatype Interval = Interval(lower: real, upper: real)

  predicate RealLe(a: real, b: real) { a <= b }

  function Alpha(confidence: real): real { (1.0 - confidence) / 2.0 }

  function Floor(x: real): int { x.Floor }
  function Ceil(x: real): int { -((-x).Floor) }

  function LowerAt(share: real, span: real): int { Floor(share * span) }
  function UpperAt(share: real, span: real): int { Ceil(share * span) }

  function LowerIndex(confidence: real, count: nat): int { LowerAt(Alpha(confidence), (count - 1) as real) }
  function UpperIndex(confidence: real, count: nat): int { UpperAt(1.0 - Alpha(confidence), (count - 1) as real) }

  lemma Scaled(a: real, b: real, m: real)
    requires a <= b && m >= 0.0
    ensures a * m <= b * m
    ensures 0.0 * m == 0.0 && 1.0 * m == m
  {
    assert (b - a) * m >= 0.0;
  }

  lemma SharesInBounds(a: real, b: real, m: real, last: nat)
    requires 0.0 <= a <= b <= 1.0 && m == last as real
    ensures 0 <= LowerAt(a, m) <= UpperAt(b, m) <= last
  {
    Scaled(0.0, a, m);
    Scaled(a, b, m);
    Scaled(b, 1.0, m);
    FloorCeil(a * m, b * m, last);
  }

  lemma SharesMonotone(a: real, b: real, m: real)
    requires a <= b && m >= 0.0
    ensures LowerAt(a, m) <= LowerAt(b, m) && UpperAt(a, m) <= UpperAt(b, m)
  {
    Scaled(a, b, m);
  }

  /** Both indices fall in the sequence, the lower one first. */
  lemma IndicesInBounds(confidence: real, count: nat)
    requires 0.0 <= confidence <= 1.0 && count > 0
    ensures 0 <= LowerIndex(confidence, count) <= UpperIndex(confidence, count) < count
  {
    hide LowerAt, UpperAt;
    SharesInBounds(Alpha(confidence), 1.0 - Alpha(confidence), (count - 1) as real, count - 1);
  }

  /** A higher confidence only moves the indices apart. */
  lemma WiderConfidence(c: real, d: real, count: nat)
    requires 0.0 <= c <= d <= 1.0 && count > 0
    ensures LowerIndex(d, count) <= LowerIndex(c, count) && UpperIndex(c, count) <= UpperIndex(d, count)
  {
    hide LowerAt, UpperAt;
    SharesMonotone(Alpha(d), Alpha(c), (count - 1) as real);
    SharesMonotone(1.0 - Alpha(c), 1.0 - Alpha(d), (count - 1) as real);
  }

  lemma FloorCeil(x: real, y: real, m: nat)
    requires 0.0 <= x <= y <= m as real
    ensures 0 <= Floor(x) <= Ceil(y) <= m
  {
  }

  function Values(statistics: seq<Option<real>>): (r: seq<real>)
    requires forall i | 0 <= i < |statistics| :: statistics[i].Some?
    ensures |r| == |statistics| && forall i | 0 <= i < |r| :: r[i] == statistics[i].value
  {
    seq(|statistics|, i requires 0 <= i < |statistics| => statistics[i].value)
  }

  predicate Complete(statistics: seq<Option<real>>) {
    statistics != [] && forall i | 0 <= i < |statistics| :: statistics[i].Some?
  }

  /** `percentileInterval`; a missing statistic, or none at all, gives no interval. */
  function PercentileInterval(statistics: seq<Option<real>>, confidence: real): (r: Option<Interval>)
    requires 0.0 < confidence < 1.0
    ensures r.Some? <==> Complete(statistics)
    ensures r.Some? ==> r.value.lower <= r.value.upper
    ensures r.Some? ==> r.value.lower in Values(statistics) && r.value.upper in Values(statistics)
  {
    if !Complete(statistics) then None
    else
      var ordered := Sort(Values(statistics), RealLe);
      SortPermutes(Values(statistics), RealLe);
      SortSorts(Values(statistics), RealLe);
      IndicesInBounds(confidence, |ordered|);
      var lower, upper := LowerIndex(confidence, |ordered|), UpperIndex(confidence, |ordered|);
      assert lower < upper ==> RealLe(ordered[lower], ordered[upper]);
      assert ordered[lower] in ordered && ordered[upper] in ordered;
      Some(Interval(ordered[lower], ordered[upper]))
  }

  /**
   The interval leaves out half of what the confidence leaves at each end: its ends are the statistics, in order, at those
   shares of the way from the first to the last, rounded outward.
   */
  lemma IntervalIs(statistics: seq<Option<real>>, confidence: real, ordered: seq<real>) returns (lower: nat, upper: nat)
    requires 0.0 < confidence < 1.0 && Complete(statistics) && multiset(ordered) == multiset(Values(statistics))
    requires forall i, j | 0 <= i < j < |ordered| :: ordered[i] <= ordered[j]
    ensures lower <= upper < |ordered| == |statistics|
    ensures PercentileInterval(statistics, confidence) == Some(Interval(ordered[lower], ordered[upper]))
    ensures var tail, last := (1.0 - confidence) / 2.0, (|ordered| - 1) as real;
            && lower as real <= tail * last < lower as real + 1.0
            && upper as real - 1.0 < (1.0 - tail) * last <= upper as real
  {
    hide *;
    IntervalAt(statistics, confidence, ordered);
    IndicesInBounds(confidence, |ordered|);
    IndicesAre(confidence, |ordered|);
    lower, upper := LowerIndex(confidence, |ordered|), UpperIndex(confidence, |ordered|);
  }

  lemma IntervalAt(statistics: seq<Option<real>>, confidence: real, ordered: seq<real>)
    requires 0.0 < confidence < 1.0 && Complete(statistics) && multiset(ordered) == multiset(Values(statistics))
    requires forall i, j | 0 <= i < j < |ordered| :: ordered[i] <= ordered[j]
    ensures |ordered| == |statistics| > 0
    ensures 0 <= LowerIndex(confidence, |ordered|) <= UpperIndex(confidence, |ordered|) < |ordered|
    ensures PercentileInterval(statistics, confidence) ==
            Some(Interval(ordered[LowerIndex(confidence, |ordered|)], ordered[UpperIndex(confidence, |ordered|)]))
  {
    hide LowerIndex, UpperIndex, Sort;
    var values := Values(statistics);
    SameMembers(ordered, values);
    SortedAs(ordered, values);
    hide Values;
    IndicesInBounds(confidence, |ordered|);
  }

  lemma IndicesAre(confidence: real, count: nat)
    requires count > 0
    ensures var tail, last := (1.0 - confidence) / 2.0, (count - 1) as real;
            && LowerIndex(confidence, count) as real <= tail * last < LowerIndex(confidence, count) as real + 1.0
            && UpperIndex(confidence, count) as real - 1.0 < (1.0 - tail) * last <= UpperIndex(confidence, count) as real
  {
  }

  lemma SortedAs(ordered: seq<real>, values: seq<real>)
    requires multiset(ordered) == multiset(values) && forall i, j | 0 <= i < j < |ordered| :: ordered[i] <= ordered[j]
    ensures Sort(values, RealLe) == ordered
  {
    SortPermutes(values, RealLe);
    SortSorts(values, RealLe);
    SortedUnique(ordered, Sort(values, RealLe), RealLe);
  }

  /** A higher confidence gives an interval that contains the lower one's. */
  lemma IntervalWidens(statistics: seq<Option<real>>, c: real, d: real)
    requires 0.0 < c <= d < 1.0 && Complete(statistics)
    ensures var a, b := PercentileInterval(statistics, c).value, PercentileInterval(statistics, d).value;
            b.lower <= a.lower && a.upper <= b.upper
  {
    hide LowerIndex, UpperIndex, Sort;
    var ordered := Sort(Values(statistics), RealLe);
    SortPermutes(Values(statistics), RealLe);
    SortSorts(Values(statistics), RealLe);
    WiderConfidence(c, d, |ordered|);
    IndicesInBounds(c, |ordered|);
    IndicesInBounds(d, |ordered|);
    var i, j := LowerIndex(d, |ordered|), LowerIndex(c, |ordered|);
    var k, l := UpperIndex(c, |ordered|), UpperIndex(d, |ordered|);
    assert i < j ==> RealLe(ordered[i], ordered[j]);
    assert k < l ==> RealLe(ordered[k], ordered[l]);
  }
}
