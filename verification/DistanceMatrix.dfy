/** The flat matrix of Jaccard distances between segments. */
module DistanceMatrix {
  import opened Bytes
  import opened Segments
  import Jaccard

  type Counts = map<Fingerprint, nat>

  /** Where row `a`, column `b` of an n by n matrix is stored. */
  function Cell(n: nat, a: nat, b: nat): (c: nat)
    requires a < n && b < n
    ensures c < n * n
  {
    CellFits(n, a, b);
    a * n + b
  }

  lemma {:induction false} CellFits(n: nat, a: nat, b: nat)
    requires a < n && b < n
    ensures 0 <= a * n + b < n * n
  {
    assert (n - 1 - a) * n >= 0;
    assert (n - 1 - a) * n == n * n - n - a * n;
  }

  lemma {:induction false} CellInjective(n: nat, a: nat, b: nat, c: nat, d: nat)
    requires a < n && b < n && c < n && d < n && Cell(n, a, b) == Cell(n, c, d)
    ensures a == c && b == d
  {
    RowGap(n, a, c);
    RowGap(n, c, a);
  }

  lemma {:induction false} RowGap(n: nat, a: nat, c: nat)
    ensures a < c ==> a * n + n <= c * n
  {
    if a < c {
      var k := c - a - 1;
      assert k * n >= 0;
      assert c * n == (a + 1 + k) * n == a * n + n + k * n;
    }
  }

  /** What a floating-point division gives: zero over zero is not a number. */
  datatype Number = Finite(value: real) | NotANumber

  function Quotient(x: nat, y: nat): (q: Number)
    requires y == 0 ==> x == 0
  {
    if y == 0 then NotANumber else Finite(x as real / y as real)
  }

  /** Segments 0 .. n-1 are all there. */
  ghost predicate Present(counts: map<nat, Counts>, n: nat) {
    forall i: nat :: i < n ==> i in counts
  }

  /** They are all there and none is empty. */
  ghost predicate Complete(counts: map<nat, Counts>, n: nat) {
    Present(counts, n) && forall i: nat :: i < n ==> counts[i].Keys != {}
  }

  /** Two empty sets have no distance. */
  ghost function SetDistance(a: set<Fingerprint>, b: set<Fingerprint>): Number {
    if a + b == {} then NotANumber else Finite(Jaccard.Distance(a, b))
  }

  ghost function SegmentDistance(counts: map<nat, Counts>, n: nat, a: nat, b: nat): Number
    requires Present(counts, n) && a < n && b < n
  {
    SetDistance(counts[a].Keys, counts[b].Keys)
  }

  lemma {:induction false} SetDistanceSymmetric(a: set<Fingerprint>, b: set<Fingerprint>)
    ensures SetDistance(a, b) == SetDistance(b, a)
  {
    assert a + b == b + a;
    if a + b != {} { Jaccard.DistanceBasics(a, b); }
  }

  /** Row i is finished up to column j, and all smaller rows and columns are finished. */
  predicate Reached(i: nat, j: nat, a: nat, b: nat) {
    a < i || b < i || (a == i && b < j) || (b == i && a < j)
  }

  ghost predicate FilledTo(m: seq<Number>, counts: map<nat, Counts>, n: nat, i: nat, j: nat)
    requires Present(counts, n) && |m| == n * n
  {
    forall a: nat, b: nat {:trigger Reached(i, j, a, b)} :: a < n && b < n && Reached(i, j, a, b) ==>
      m[Cell(n, a, b)] == SegmentDistance(counts, n, a, b)
  }

  /** Writing a distance into both mirrored cells advances the filled part by one column. */
  lemma {:induction false} FilledStep(m: seq<Number>, m': seq<Number>, counts: map<nat, Counts>, n: nat, i: nat, j: nat)
    requires Present(counts, n) && |m| == |m'| == n * n && i <= j < n && FilledTo(m, counts, n, i, j)
    requires var d := SegmentDistance(counts, n, i, j); m' == m[Cell(n, i, j) := d][Cell(n, j, i) := d]
    ensures FilledTo(m', counts, n, i, j + 1)
  {
    forall a: nat, b: nat | a < n && b < n && Reached(i, j + 1, a, b)
      ensures m'[Cell(n, a, b)] == SegmentDistance(counts, n, a, b)
    {
      if Cell(n, a, b) == Cell(n, i, j) {
        CellInjective(n, a, b, i, j);
      }
      if Cell(n, a, b) == Cell(n, j, i) {
        CellInjective(n, a, b, j, i);
        SetDistanceSymmetric(counts[a].Keys, counts[b].Keys);
      }
      assert Reached(i, j, a, b) || (a == i && b == j) || (a == j && b == i);
    }
  }

  lemma {:induction false} FilledRow(m: seq<Number>, counts: map<nat, Counts>, n: nat, i: nat)
    requires Present(counts, n) && |m| == n * n && i < n && FilledTo(m, counts, n, i, n)
    ensures FilledTo(m, counts, n, i + 1, i + 1)
  {
    forall a: nat, b: nat | a < n && b < n && Reached(i + 1, i + 1, a, b)
      ensures m[Cell(n, a, b)] == SegmentDistance(counts, n, a, b)
    {
      assert Reached(i, n, a, b);
    }
  }

  method AddKey(merge: Counts, k: Fingerprint) returns (more: Counts)
    ensures more.Keys == merge.Keys + {k}
  {
    more := merge[k := 1];
  }

  lemma {:induction false} MergeStep<T>(a: set<T>, b: set<T>, done: set<T>, rest: set<T>, k: T)
    requires done + rest == b && k in rest
    ensures a + done + {k} == a + (done + {k}) && (done + {k}) + (rest - {k}) == b && |rest - {k}| < |rest|
  {
  }

  /** The keys of both maps. */
  method Merge(a: Counts, b: Counts) returns (merge: Counts)
    ensures merge.Keys == a.Keys + b.Keys
  {
    merge := a;
    var rest := b.Keys;
    ghost var done := {};
    while |rest| > 0
      invariant done + rest == b.Keys && merge.Keys == a.Keys + done
      decreases |rest|
    {
      var k :| k in rest;
      MergeStep(a.Keys, b.Keys, done, rest, k);
      merge := AddKey(merge, k);
      rest := rest - {k};
      done := done + {k};
    }
  }

  /** One minus the shared keys, counted by inclusion and exclusion on the map sizes, over the merged keys. */
  method MapDistance(a: Counts, b: Counts) returns (d: Number)
    ensures d == SetDistance(a.Keys, b.Keys)
  {
    var merge := Merge(a, b);
    Jaccard.InclusionExclusion(a.Keys, b.Keys);
    assert |merge| == |merge.Keys| && |a| == |a.Keys| && |b| == |b.Keys|;
    var shared := Quotient(|a| + |b| - |merge|, |merge|);
    d := if shared.Finite? then Finite(1.0 - shared.value) else NotANumber;
  }

  /** Every cell holds the distance of its two segments. */
  ghost predicate Distances(m: seq<Number>, counts: map<nat, Counts>, n: nat) {
    && Present(counts, n) && |m| == n * n
    && forall a: nat, b: nat :: a < n && b < n ==> m[Cell(n, a, b)] == SegmentDistance(counts, n, a, b)
  }

  lemma {:induction false} FilledAll(m: seq<Number>, counts: map<nat, Counts>, n: nat)
    requires Present(counts, n) && |m| == n * n && FilledTo(m, counts, n, n, n)
    ensures Distances(m, counts, n)
  {
    forall a: nat, b: nat | a < n && b < n ensures m[Cell(n, a, b)] == SegmentDistance(counts, n, a, b) {
      assert Reached(n, n, a, b);
    }
  }

  /** One distance, written into both mirrored cells. */
  method FillCells(dist: array<Number>, counts: map<nat, Counts>, n: nat, i: nat, j: nat)
    requires Present(counts, n) && i <= j < n && dist.Length == n * n && FilledTo(dist[..], counts, n, i, j)
    modifies dist
    ensures FilledTo(dist[..], counts, n, i, j + 1)
  {
    ghost var before := dist[..];
    var d := MapDistance(counts[i], counts[j]);
    dist[Cell(n, i, j)] := d;
    dist[Cell(n, j, i)] := d;
    FilledStep(before, dist[..], counts, n, i, j);
  }

  /** port2cluster: the whole matrix, symmetric cells at once. */
  method Port2Cluster(counts: map<nat, Counts>, n: nat) returns (dist: array<Number>)
    requires Present(counts, n)
    ensures fresh(dist) && Distances(dist[..], counts, n)
  {
    dist := new Number[n * n](_ => Finite(0.0));
    for i: nat := 0 to n
      invariant FilledTo(dist[..], counts, n, i, i)
    {
      for j: nat := i to n
        invariant FilledTo(dist[..], counts, n, i, j)
      {
        FillCells(dist, counts, n, i, j);
      }
      FilledRow(dist[..], counts, n, i);
    }
    FilledAll(dist[..], counts, n);
  }

  /** All cells are numbers, and they are those of a bounded semimetric with the triangle inequality. */
  ghost predicate MetricMatrix(m: seq<Number>, n: nat)
    requires |m| == n * n
  {
    && (forall a: nat, b: nat :: a < n && b < n ==> m[Cell(n, a, b)].Finite?)
    && (forall a: nat :: a < n ==> m[Cell(n, a, a)].value == 0.0)
    && (forall a: nat, b: nat :: a < n && b < n ==>
          m[Cell(n, a, b)] == m[Cell(n, b, a)] && 0.0 <= m[Cell(n, a, b)].value <= 1.0)
    && (forall a: nat, b: nat, c: nat :: a < n && b < n && c < n ==>
          m[Cell(n, a, c)].value <= m[Cell(n, a, b)].value + m[Cell(n, b, c)].value)
  }

  lemma {:induction false} DistancesAreMetric(m: seq<Number>, counts: map<nat, Counts>, n: nat)
    requires Complete(counts, n) && Distances(m, counts, n)
    ensures MetricMatrix(m, n)
  {
    forall a: nat, b: nat | a < n && b < n
      ensures m[Cell(n, a, b)] == Finite(Jaccard.Distance(counts[a].Keys, counts[b].Keys))
    {
      assert counts[a].Keys + counts[b].Keys != {};
    }
    forall a: nat | a < n ensures m[Cell(n, a, a)].value == 0.0 {
      Jaccard.DistanceBasics(counts[a].Keys, counts[a].Keys);
    }
    forall a: nat, b: nat | a < n && b < n
      ensures m[Cell(n, a, b)] == m[Cell(n, b, a)] && 0.0 <= m[Cell(n, a, b)].value <= 1.0
    {
      Jaccard.DistanceBasics(counts[a].Keys, counts[b].Keys);
    }
    forall a: nat, b: nat, c: nat | a < n && b < n && c < n
      ensures m[Cell(n, a, c)].value <= m[Cell(n, a, b)].value + m[Cell(n, b, c)].value
    {
      Jaccard.Triangle(counts[a].Keys, counts[b].Keys, counts[c].Keys);
    }
  }

  /** The diagonal divides by zero exactly at an empty segment, so the matrix is a metric exactly without any. */
  lemma {:induction false} MetricExactlyWhenComplete(m: seq<Number>, counts: map<nat, Counts>, n: nat)
    requires Distances(m, counts, n)
    ensures forall a: nat :: a < n ==> (m[Cell(n, a, a)] == NotANumber <==> counts[a].Keys == {})
    ensures MetricMatrix(m, n) <==> Complete(counts, n)
  {
    forall a: nat | a < n ensures m[Cell(n, a, a)] == NotANumber <==> counts[a].Keys == {} {
      assert counts[a].Keys + counts[a].Keys == counts[a].Keys;
    }
    if Complete(counts, n) { DistancesAreMetric(m, counts, n); }
  }

  /** The counts recorded for the segments of a stream are complete iff the stream starts with a chunk that fits. */
  lemma {:induction false} RecordsComplete(stream: seq<Chunk>)
    ensures Complete(Records(SegmentsOf(stream)), |SegmentsOf(stream)|) <==> stream != [] && stream[0].size <= SEG_SIZE
  {
    SegmentationTheorem(stream);
    CompleteIffNonEmpty(SegmentsOf(stream));
  }

  lemma {:induction false} CompleteIffNonEmpty(segs: seq<seq<Chunk>>)
    ensures Present(Records(segs), |segs|)
    ensures forall i: nat :: i < |segs| ==> (Records(segs)[i].Keys == {} <==> segs[i] == [])
    ensures Complete(Records(segs), |segs|) <==> NonEmpty(segs)
  {
    forall i: nat | i < |segs| ensures i in Records(segs) && (Records(segs)[i].Keys == {} <==> segs[i] == []) {
      HistogramKeys(segs[i]);
      assert Records(segs)[i] == Histogram(Keys(segs[i]));
    }
  }

  lemma {:induction false} HistogramKeys(seg: seq<Chunk>)
    ensures Histogram(Keys(seg)).Keys == {} <==> seg == []
  {
    if seg != [] { assert Keys(seg)[0] in Histogram(Keys(seg)).Keys; }
  }

  /** A single chunk that is larger than a segment leaves an empty segment before it, whose own distance is 0/0. */
  lemma {:induction false} OversizedFirstChunk(c: Chunk)
    requires c.size > SEG_SIZE
    ensures SegmentsOf([c]) == [[], [c]] && Present(Records(SegmentsOf([c])), 2)
    ensures SegmentDistance(Records(SegmentsOf([c])), 2, 0, 0) == NotANumber
    ensures SegmentDistance(Records(SegmentsOf([c])), 2, 0, 1) == Finite(1.0)
  {
    var segs := SegmentsOf([c]);
    OversizedCut(c);
    CompleteIffNonEmpty(segs);
    EmptyDistances(Records(segs)[0].Keys, Records(segs)[1].Keys);
  }

  lemma {:induction false} OversizedCut(c: Chunk)
    requires c.size > SEG_SIZE
    ensures SegmentsOf([c]) == [[], [c]]
  {
    assert [c][1..] == [];
    assert Cut([c], []) == [[c]];
  }

  lemma {:induction false} EmptyDistances(a: set<Fingerprint>, b: set<Fingerprint>)
    requires a == {} && b != {}
    ensures SetDistance(a, a) == NotANumber && SetDistance(a, b) == Finite(1.0)
  {
    assert a * b == {} && a + b == b;
  }

  /** From a stream to its distance matrix: a metric exactly if the stream starts with a chunk that fits. */
  method StreamDistances(stream: seq<Chunk>) returns (n: nat, dist: array<Number>)
    ensures n == |SegmentsOf(stream)| && Distances(dist[..], Records(SegmentsOf(stream)), n)
    ensures MetricMatrix(dist[..], n) <==> stream != [] && stream[0].size <= SEG_SIZE
  {
    var slicer := new Slicer();
    slicer.ReadHashes(stream);
    RecordsComplete(stream);
    n := slicer.segCount;
    dist := Port2Cluster(slicer.countMap, n);
    MetricExactlyWhenComplete(dist[..], slicer.countMap, n);
  }
}
