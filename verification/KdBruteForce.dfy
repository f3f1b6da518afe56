/** The reference: scan all rows, keep the eligible distances, sort them. */
module KdBruteForce {
  import opened Sets
  import opened Reals
  import opened KdGeometry
  import opened KdHeap
  import opened KdShape
  import opened KdSearch

  /** What a scan notes about one row. */
  datatype Mark = Mark(eligible: bool, dist: real)

  function MarkOf(q: Request, r: Row): Mark
    requires |r.xy| >= |q.x|
  {
    Mark(Eligible(q, r), DistTo(q, r))
  }

  function Profile(q: Request, a: seq<Row>): (p: seq<Mark>)
    requires forall i :: 0 <= i < |a| ==> |a[i].xy| >= |q.x|
    ensures |p| == |a| && forall i :: 0 <= i < |a| ==> p[i] == MarkOf(q, a[i])
  {
    seq(|a|, i requires 0 <= i < |a| => MarkOf(q, a[i]))
  }

  /** Distances of the eligible rows, in row order. */
  function Kept(p: seq<Mark>): seq<real> {
    if p == [] then []
    else Kept(p[..|p| - 1]) + if p[|p| - 1].eligible then [p[|p| - 1].dist] else []
  }

  predicate Sorted(s: seq<real>) {
    forall i, j :: 0 <= i < j < |s| ==> s[i] <= s[j]
  }

  function Insert(v: real, s: seq<real>): seq<real> {
    if s == [] then [v]
    else if v <= s[0] then [v] + s
    else [s[0]] + Insert(v, s[1..])
  }

  lemma {:induction false} InsertKeeps(v: real, s: seq<real>)
    ensures multiset(Insert(v, s)) == multiset(s) + multiset{v}
  {
    if s != [] && v > s[0] {
      InsertKeeps(v, s[1..]);
      assert s == [s[0]] + s[1..];
    }
  }

  lemma {:induction false} InsertSorts(v: real, s: seq<real>)
    requires Sorted(s)
    ensures Sorted(Insert(v, s))
    ensures Insert(v, s) != [] && Insert(v, s)[0] == if s == [] || v <= s[0] then v else s[0]
  {
    if s != [] && v > s[0] {
      InsertSorts(v, s[1..]);
    }
  }

  /** Insertion sort. */
  function Sort(s: seq<real>): seq<real> {
    if s == [] then [] else Insert(s[|s| - 1], Sort(s[..|s| - 1]))
  }

  lemma {:induction false} SortCorrect(s: seq<real>)
    ensures multiset(Sort(s)) == multiset(s) && Sorted(Sort(s))
  {
    if s != [] {
      var k := |s| - 1;
      SortCorrect(s[..k]);
      InsertKeeps(s[k], Sort(s[..k]));
      InsertSorts(s[k], Sort(s[..k]));
      assert s == s[..k] + [s[k]];
    }
  }

  /** All eligible distances in ascending order: what a brute-force scan finds. */
  function BruteForce(q: Request, a: seq<Row>): (b: seq<real>)
    requires forall i :: 0 <= i < |a| ==> |a[i].xy| >= |q.x|
    ensures Sorted(b) && multiset(b) == multiset(Kept(Profile(q, a)))
  {
    SortCorrect(Kept(Profile(q, a)));
    Sort(Kept(Profile(q, a)))
  }

  /** How many values are below `v` (or equal to it, if not `strict`). */
  function Count(s: seq<real>, v: real, strict: bool): nat {
    if s == [] then 0
    else
      var k := |s| - 1;
      Count(s[..k], v, strict) + if s[k] < v || (!strict && s[k] == v) then 1 else 0
  }

  lemma {:induction false} CountConcat(s: seq<real>, t: seq<real>, v: real, strict: bool)
    ensures Count(s + t, v, strict) == Count(s, v, strict) + Count(t, v, strict)
  {
    if t == [] {
      assert s + t == s;
    } else {
      var k := |t| - 1;
      assert (s + t)[..|s| + k] == s + t[..k];
      CountConcat(s, t[..k], v, strict);
    }
  }

  /** Taking one element out of a sequence. */
  lemma {:induction false} CountWithout(t: seq<real>, j: int, v: real, strict: bool)
    requires 0 <= j < |t|
    ensures multiset(t[..j] + t[j + 1..]) == multiset(t) - multiset{t[j]}
    ensures Count(t, v, strict) == Count(t[..j] + t[j + 1..], v, strict) + Count([t[j]], v, strict)
  {
    assert t == t[..j] + [t[j]] + t[j + 1..];
    CountConcat(t[..j] + [t[j]], t[j + 1..], v, strict);
    CountConcat(t[..j], [t[j]], v, strict);
    CountConcat(t[..j], t[j + 1..], v, strict);
  }

  /** Counting does not depend on the order. */
  lemma {:induction false} CountPerm(s: seq<real>, t: seq<real>, v: real, strict: bool)
    requires multiset(s) == multiset(t)
    ensures Count(s, v, strict) == Count(t, v, strict) && |s| == |t|
  {
    assert |multiset(s)| == |s| && |multiset(t)| == |t|;
    if s != [] {
      assert s[0] in multiset(s);
      var j :| 0 <= j < |t| && t[j] == s[0];
      CountWithout(s, 0, v, strict);
      CountWithout(t, j, v, strict);
      CountPerm(s[..0] + s[1..], t[..j] + t[j + 1..], v, strict);
    }
  }

  /** In a sorted sequence the count locates a value. */
  lemma {:induction false} CountSorted(s: seq<real>, v: real, strict: bool, i: int)
    requires Sorted(s) && 0 <= i < |s|
    ensures Count(s, v, strict) <= i ==> (if strict then v <= s[i] else v < s[i])
    ensures Count(s, v, strict) > i ==> (if strict then s[i] < v else s[i] <= v)
  {
    var k := |s| - 1;
    CountBounds(s[..k], v, strict);
    if i < k {
      CountSorted(s[..k], v, strict, i);
    } else if Count(s, v, strict) <= i && k > 0 {
      CountSorted(s[..k], v, strict, k - 1);
    }
  }

  lemma {:induction false} CountBounds(s: seq<real>, v: real, strict: bool)
    ensures Count(s, v, strict) <= |s|
  {
    if s != [] {
      CountBounds(s[..|s| - 1], v, strict);
    }
  }

  predicate Below(m: Mark, v: real, strict: bool) {
    m.eligible && (m.dist < v || (!strict && m.dist == v))
  }

  /** Row numbers of eligible rows whose distance is below `v` (or equal to it, if not `strict`). */
  ghost function Near(p: seq<Mark>, v: real, strict: bool): (s: set<int>)
    ensures forall i :: i in s <==> 0 <= i < |p| && Below(p[i], v, strict)
  {
    set i | 0 <= i < |p| && Below(p[i], v, strict)
  }

  lemma {:induction false} CountIsNear(p: seq<Mark>, v: real, strict: bool)
    ensures Count(Kept(p), v, strict) == |Near(p, v, strict)|
  {
    if p == [] {
      assert Near(p, v, strict) == {};
    } else {
      var k := |p| - 1;
      CountIsNear(p[..k], v, strict);
      CountConcat(Kept(p[..k]), if p[k].eligible then [p[k].dist] else [], v, strict);
      if Below(p[k], v, strict) {
        assert Near(p, v, strict) == Near(p[..k], v, strict) + {k};
      } else {
        assert Near(p, v, strict) == Near(p[..k], v, strict);
      }
    }
  }

  ghost function AllEligible(p: seq<Mark>): (s: set<int>)
    ensures forall i :: i in s <==> 0 <= i < |p| && p[i].eligible
  {
    set i | 0 <= i < |p| && p[i].eligible
  }

  lemma {:induction false} EligibleCount(p: seq<Mark>)
    ensures |Kept(p)| == |AllEligible(p)|
  {
    if p == [] {
      assert AllEligible(p) == {};
    } else {
      var k := |p| - 1;
      EligibleCount(p[..k]);
      if p[k].eligible {
        assert AllEligible(p) == AllEligible(p[..k]) + {k};
      } else {
        assert AllEligible(p) == AllEligible(p[..k]);
      }
    }
  }

  /** What a query promises about its results: eligible rows, each once, with their distances, none beyond `top`;
      and an eligible row may be missing only if k neighbours are returned and its distance is at least `reach`.
      `k == 0` means that nothing may be missing. */
  ghost predicate Answers(p: seq<Mark>, k: nat, res: seq<Neighbor>, top: real, reach: real) {
    && (k > 0 ==> |res| <= k)
    && (forall m :: 0 <= m < |res| ==>
          0 <= res[m].idx < |p| && p[res[m].idx] == Mark(true, res[m].dist) && res[m].dist <= top)
    && (forall m, m' :: 0 <= m < m' < |res| ==> res[m].idx != res[m'].idx)
    && (forall i :: 0 <= i < |p| && p[i].eligible && i !in Indices(res) ==> k > 0 && |res| == k && reach <= p[i].dist)
  }

  ghost function Indices(res: seq<Neighbor>): (s: set<int>)
    ensures forall i :: i in s <==> exists m :: 0 <= m < |res| && res[m].idx == i
  {
    set m | 0 <= m < |res| :: res[m].idx
  }

  lemma {:induction false} IndicesSize(res: seq<Neighbor>)
    requires forall m, m' :: 0 <= m < m' < |res| ==> res[m].idx != res[m'].idx
    ensures |Indices(res)| == |res|
  {
    if |res| == 0 {
      assert Indices(res) == {};
    } else {
      var k := |res| - 1;
      IndicesSize(res[..k]);
      forall i ensures i in Indices(res) <==> i in Indices(res[..k]) + {res[k].idx} {
        if i in Indices(res[..k]) {
          var m :| 0 <= m < k && res[..k][m].idx == i;
          assert res[m].idx == i;
        }
        if i in Indices(res) {
          var m :| 0 <= m < |res| && res[m].idx == i;
          assert m < k ==> res[..k][m].idx == i;
        }
      }
      assert Indices(res) == Indices(res[..k]) + {res[k].idx};
    }
  }

  lemma {:induction false} AscendingAt(res: seq<Neighbor>, i: int, m: int)
    requires Ascending(res) && 0 <= i < |res| && 0 <= m < |res|
    ensures i <= m ==> res[i].dist <= res[m].dist
  {
  }

  /** At most `i` eligible rows are nearer than the i-th result allows. */
  lemma {:induction false} FewAreNearer(p: seq<Mark>, k: nat, res: seq<Neighbor>, top: real, reach: real, i: int,
                                        v: real)
    requires Answers(p, k, res, top, reach) && Ascending(res) && 0 <= i < |res|
    requires v <= reach && v <= res[i].dist
    ensures |Near(p, v, true)| <= i
  {
    var near, first := Near(p, v, true), Indices(res[..i]);
    forall j | j in near ensures j in first {
      assert j in Indices(res);
      var m :| 0 <= m < |res| && res[m].idx == j;
      AscendingAt(res, i, m);
      assert m < i;
      assert res[..i][m].idx == j;
    }
    IndicesSize(res[..i]);
    SubsetSize(near, first);
  }

  /** At least `i + 1` eligible rows are as near as the i-th result. */
  lemma {:induction false} EnoughAreNear(p: seq<Mark>, k: nat, res: seq<Neighbor>, top: real, reach: real, i: int)
    requires Answers(p, k, res, top, reach) && Ascending(res) && 0 <= i < |res|
    ensures |Near(p, res[i].dist, false)| > i
  {
    var near, first := Near(p, res[i].dist, false), Indices(res[..i + 1]);
    forall j | j in first ensures j in near {
      var m :| 0 <= m <= i && res[..i + 1][m].idx == j;
      assert res[m].dist <= res[i].dist;
    }
    IndicesSize(res[..i + 1]);
    SubsetSize(first, near);
  }

  /** The number of results: everything eligible, or k if there is more. */
  lemma {:induction false} ResultCount(p: seq<Mark>, k: nat, res: seq<Neighbor>, top: real, reach: real)
    requires Answers(p, k, res, top, reach)
    ensures |res| == if k == 0 || |Kept(p)| <= k then |Kept(p)| else k
  {
    EligibleCount(p);
    IndicesSize(res);
    forall i | i in Indices(res) ensures i in AllEligible(p) {
      var m :| 0 <= m < |res| && res[m].idx == i;
    }
    SubsetSize(Indices(res), AllEligible(p));
    if exists i :: i in AllEligible(p) && i !in Indices(res) {
      var i :| i in AllEligible(p) && i !in Indices(res);
      assert p[i].eligible;
      SubsetSize(Indices(res) + {i}, AllEligible(p));
    } else {
      assert AllEligible(p) == Indices(res);
    }
  }

  lemma {:induction false} NearestMarks(p: seq<Mark>, k: nat, res: seq<Neighbor>, top: real, reach: real, b: seq<real>,
                                        i: int, v: real)
    requires Answers(p, k, res, top, reach) && Ascending(res) && Sorted(b) && multiset(b) == multiset(Kept(p))
    requires 0 <= i < |res| && v <= reach && v <= res[i].dist
    ensures i < |b| && v <= b[i] <= res[i].dist
  {
    var u := res[i].dist;
    CountPerm(b, Kept(p), u, false);
    CountPerm(b, Kept(p), v, true);
    CountIsNear(p, u, false);
    CountIsNear(p, v, true);
    FewAreNearer(p, k, res, top, reach, i, v);
    EnoughAreNear(p, k, res, top, reach, i);
    CountBounds(b, u, false);
    CountSorted(b, u, false, i);
    CountSorted(b, v, true, i);
  }

  /** Results are eligible rows, each once, with their distances. */
  ghost predicate Genuine(p: seq<Mark>, res: seq<Neighbor>) {
    && (forall m :: 0 <= m < |res| ==> 0 <= res[m].idx < |p| && p[res[m].idx] == Mark(true, res[m].dist))
    && (forall m, m' :: 0 <= m < m' < |res| ==> res[m].idx != res[m'].idx)
  }

  /** The i-th result lies between the true i-th smallest distance and the reach of the search. */
  ghost predicate Bracketed(res: seq<Neighbor>, b: seq<real>, reach: real) {
    |res| <= |b| && forall i :: 0 <= i < |res| ==> Min(res[i].dist, reach) <= b[i] <= res[i].dist
  }

  /** Exactly min(k, number of eligible rows) results come back, and each is bracketed by the brute-force scan. */
  lemma {:induction false} NearestTheorem(p: seq<Mark>, k: nat, res: seq<Neighbor>, top: real, reach: real,
                                          b: seq<real>)
    requires Answers(p, k, res, top, reach) && Ascending(res) && Sorted(b) && multiset(b) == multiset(Kept(p))
    ensures |res| == if k == 0 || |b| <= k then |b| else k
    ensures Bracketed(res, b, reach)
  {
    ResultCount(p, k, res, top, reach);
    CountPerm(b, Kept(p), 0.0, true);
    forall i | 0 <= i < |res| ensures Min(res[i].dist, reach) <= b[i] <= res[i].dist {
      NearestMarks(p, k, res, top, reach, b, i, Min(res[i].dist, reach));
    }
  }

  /** `x`, the returned distance, is at most 1/f times `y`, the true one, and equal to it for f = 1. */
  predicate Within(x: real, f: real, y: real) {
    x * f <= y <= x && (f == 1.0 ==> x == y)
  }

  /** Dividing by 1/(1+eps): the returned distance is at most (1+eps) times the true one. */
  lemma {:induction false} WithinEps(x: real, e: real, y: real)
    requires e > 0.0 && Within(x, 1.0 / e, y)
    ensures x <= Times(y, e)
  {
    assert x * (1.0 / e) * e == x;
    ScaledMono(x * (1.0 / e), y, e);
  }

  lemma {:induction false} BracketIsWithin(x: real, top: real, f: real, y: real)
    requires 0.0 <= x <= top && 0.0 < f <= 1.0 && Min(x, Times(top, f)) <= y <= x
    ensures Within(x, f, y)
  {
    ScaledBelow(x, f);
    ScaledMono(x, top, f);
  }

  /** The (1+eps) guarantee: with approxf = 1/(1+eps), or its square for the squared 2-norm, no returned distance
      exceeds the true one of the same rank by more than that factor. */
  lemma {:induction false} ApproximationTheorem(res: seq<Neighbor>, b: seq<real>, top: real, f: real)
    requires Bracketed(res, b, Times(top, f)) && 0.0 < f <= 1.0
    requires forall i :: 0 <= i < |res| ==> 0.0 <= res[i].dist <= top
    ensures forall i :: 0 <= i < |res| ==> Within(res[i].dist, f, b[i])
  {
    forall i | 0 <= i < |res| ensures Within(res[i].dist, f, b[i]) {
      BracketIsWithin(res[i].dist, top, f, b[i]);
    }
  }

  lemma {:induction false} InIndices(res: seq<Neighbor>, e: Neighbor)
    ensures e in multiset(res) ==> e.idx in Indices(res)
  {
  }

  lemma {:induction false} HeldIsGenuine(q: Request, a: seq<Row>, h: seq<Neighbor>, e: Neighbor)
    requires Legal(q, a) && Heap(h) && Tracks(q, a, h, Range(0, |a|)) && e in multiset(h)
    ensures 0 <= e.idx < |a| && Profile(q, a)[e.idx] == Mark(true, e.dist) && multiset(h)[e] == 1
    ensures |h| > 0 && e.dist <= h[0].dist
  {
    assert Held(q, a, h, Range(0, |a|), e);
    var k :| 0 <= k < |h| && h[k] == e;
    RootIsFarthest(h, k);
  }

  lemma {:induction false} MissingIsBeaten(q: Request, a: seq<Row>, h: seq<Neighbor>, seen: set<int>, i: int)
    requires Tracks(q, a, h, seen) && i in seen && 0 <= i < |a| && |a[i].xy| >= |q.x|
    ensures Eligible(q, a[i]) && Entry(q, a, i) !in multiset(h) ==> Beaten(q, a, h, i)
  {
    assert Settled(q, a, h, i);
  }

  function Times(x: real, f: real): real { x * f }

  lemma {:induction false} BeatenIsFar(q: Request, a: seq<Row>, h: seq<Neighbor>, i: int, top: real)
    requires 0 <= i < |a| && |a[i].xy| >= |q.x| && (|h| > 0 ==> top == h[0].dist)
    ensures Beaten(q, a, h, i) ==> Full(q, h) && Times(top, q.approxf) <= DistTo(q, a[i])
  {
  }

  lemma {:induction false} MissingIsFar(q: Request, a: seq<Row>, h: seq<Neighbor>, i: int, top: real)
    requires Legal(q, a) && Tracks(q, a, h, Range(0, |a|)) && 0 <= i < |a| && (|h| > 0 ==> top == h[0].dist)
    ensures Profile(q, a)[i].eligible && Entry(q, a, i) !in multiset(h) ==>
              q.kneeded > 0 && |h| == q.kneeded && Times(top, q.approxf) <= Profile(q, a)[i].dist
  {
    MissingIsBeaten(q, a, h, Range(0, |a|), i);
    BeatenIsFar(q, a, h, i, top);
  }

  /** The heap a search ends with, in any order, answers the query. */
  lemma {:induction false} SearchAnswers(q: Request, a: seq<Row>, h: seq<Neighbor>, res: seq<Neighbor>, top: real)
    requires Legal(q, a) && (|h| > 0 ==> top == h[0].dist)
    ensures Heap(h) && Tracks(q, a, h, Range(0, |a|)) && multiset(res) == multiset(h)
            ==> Answers(Profile(q, a), q.kneeded, res, top, Times(top, q.approxf))
  {
    if Heap(h) && Tracks(q, a, h, Range(0, |a|)) && multiset(res) == multiset(h) {
      var p := Profile(q, a);
      assert |multiset(res)| == |multiset(h)|;
      forall m | 0 <= m < |res|
        ensures 0 <= res[m].idx < |p| && p[res[m].idx] == Mark(true, res[m].dist) && res[m].dist <= top
      {
        assert res[m] in multiset(res);
        HeldIsGenuine(q, a, h, res[m]);
      }
      forall m, m' | 0 <= m < m' < |res| ensures res[m].idx != res[m'].idx {
        assert res[m] in multiset(res) && res[m'] in multiset(res);
        HeldIsGenuine(q, a, h, res[m]);
        HeldIsGenuine(q, a, h, res[m']);
        if res[m] == res[m'] { OccursTwice(res, m, m'); }
      }
      forall i | 0 <= i < |p|
        ensures p[i].eligible && i !in Indices(res) ==>
          q.kneeded > 0 && |res| == q.kneeded && Times(top, q.approxf) <= p[i].dist
      {
        InIndices(res, Entry(q, a, i));
        MissingIsFar(q, a, h, i, top);
      }
    }
  }

  lemma {:induction false} KeptConcat(p: seq<Mark>, r: seq<Mark>)
    ensures Kept(p + r) == Kept(p) + Kept(r)
  {
    if r == [] {
      assert p + r == p;
    } else {
      assert (p + r)[..|p + r| - 1] == p + r[..|r| - 1];
      KeptConcat(p, r[..|r| - 1]);
    }
  }

  ghost function KeptOne(m: Mark): multiset<real> {
    if m.eligible then multiset{m.dist} else multiset{}
  }

  function Without<T>(s: seq<T>, j: int): (r: seq<T>)
    requires 0 <= j < |s|
    ensures |r| == |s| - 1
  {
    s[..j] + s[j + 1..]
  }

  lemma {:induction false} KeptWithout(p: seq<Mark>, j: int)
    requires 0 <= j < |p|
    ensures multiset(Kept(p)) == multiset(Kept(Without(p, j))) + KeptOne(p[j])
  {
    assert p == p[..j] + [p[j]] + p[j + 1..];
    KeptConcat(p[..j] + [p[j]], p[j + 1..]);
    KeptConcat(p[..j], [p[j]]);
    KeptConcat(p[..j], p[j + 1..]);
  }

  lemma {:induction false} MultisetWithout<T>(s: seq<T>, j: int)
    requires 0 <= j < |s|
    ensures multiset(s) == multiset(Without(s, j)) + multiset{s[j]}
  {
    assert s == s[..j] + [s[j]] + s[j + 1..];
  }

  lemma {:induction false} CancelOne<T>(x: multiset<T>, y: multiset<T>, e: T)
    requires x + multiset{e} == y + multiset{e}
    ensures x == y
  {
    assert x == x + multiset{e} - multiset{e};
  }

  lemma {:induction false} ScanWithout(q: Request, c: seq<Row>, j: int)
    requires 0 <= j < |c| && forall i :: 0 <= i < |c| ==> |c[i].xy| >= |q.x|
    ensures forall i :: 0 <= i < |Without(c, j)| ==> |Without(c, j)[i].xy| >= |q.x|
    ensures multiset(Kept(Profile(q, c)))
         == multiset(Kept(Profile(q, Without(c, j)))) + KeptOne(MarkOf(q, c[j]))
  {
    KeptWithout(Profile(q, c), j);
    ProfileWithout(q, c, j, Without(c, j), Profile(q, c));
  }

  lemma {:induction false} ProfileWithout(q: Request, c: seq<Row>, j: int, d: seq<Row>, p: seq<Mark>)
    requires 0 <= j < |c| && d == Without(c, j)
    requires forall i :: 0 <= i < |c| ==> |c[i].xy| >= |q.x|
    requires forall i :: 0 <= i < |d| ==> |d[i].xy| >= |q.x|
    requires p == Profile(q, c)
    ensures Profile(q, d) == Without(p, j)
  {
    var r := Profile(q, d);
    forall i | 0 <= i < |d| ensures r[i] == Without(p, j)[i] {
      assert d[i] == if i < j then c[i] else c[i + 1];
    }
  }

  /** Sequences with the same entries can be peeled from the back of one of them. */
  lemma {:induction false} PeelPerm<T>(a: seq<T>, c: seq<T>) returns (j: int)
    requires a != [] && multiset(a) == multiset(c)
    ensures 0 <= j < |c| && c[j] == a[|a| - 1] && multiset(Without(a, |a| - 1)) == multiset(Without(c, j))
  {
    var k := |a| - 1;
    assert a[k] in multiset(c);
    j :| 0 <= j < |c| && c[j] == a[k];
    MultisetWithout(a, k);
    MultisetWithout(c, j);
    CancelOne(multiset(Without(a, k)), multiset(Without(c, j)), a[k]);
  }

  /** The eligible distances do not depend on the order of the rows. */
  lemma {:induction false} KeptPerm(q: Request, a: seq<Row>, c: seq<Row>)
    requires multiset(a) == multiset(c) && forall i :: 0 <= i < |a| ==> |a[i].xy| >= |q.x|
    requires forall i :: 0 <= i < |c| ==> |c[i].xy| >= |q.x|
    ensures multiset(Kept(Profile(q, a))) == multiset(Kept(Profile(q, c)))
  {
    if a == [] {
      assert |multiset(c)| == |c|;
    } else {
      var j := PeelPerm(a, c);
      ScanWithout(q, a, |a| - 1);
      ScanWithout(q, c, j);
      KeptPerm(q, Without(a, |a| - 1), Without(c, j));
    }
  }

  lemma {:induction false} SortedUnique(s: seq<real>, t: seq<real>)
    requires Sorted(s) && Sorted(t) && multiset(s) == multiset(t)
    ensures s == t
  {
    CountPerm(s, t, 0.0, true);
    forall i | 0 <= i < |s| ensures s[i] == t[i] {
      CountPerm(s, t, s[i], true);
      CountPerm(s, t, t[i], true);
      CountSorted(s, s[i], true, i);
      CountSorted(t, s[i], true, i);
      CountSorted(s, t[i], true, i);
      CountSorted(t, t[i], true, i);
    }
  }

  /** The scan does not depend on the order of the rows, so it may run over the input. */
  lemma {:induction false} BruteForcePerm(q: Request, a: seq<Row>, c: seq<Row>)
    requires multiset(a) == multiset(c) && forall i :: 0 <= i < |a| ==> |a[i].xy| >= |q.x|
    requires forall i :: 0 <= i < |c| ==> |c[i].xy| >= |q.x|
    ensures BruteForce(q, a) == BruteForce(q, c)
  {
    KeptPerm(q, a, c);
    SortedUnique(BruteForce(q, a), BruteForce(q, c));
  }
}
