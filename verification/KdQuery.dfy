/** Nearest-neighbour and box queries: branch-and-bound over the packed tree. */
module KdQuery {
  import opened Reals
  import opened KdGeometry
  import opened KdHeap
  import opened KdShape
  import opened KdBuild
  import opened KdNode
  import opened KdBoxScan
  import opened KdSearch
  import opened KdBruteForce
  import opened KdMeaning

  lemma {:induction false} FoldSnoc(norm: Norm, gaps: seq<real>, j: int, v: real)
    requires 0 <= j < |gaps| && gaps[j] == Abs(v)
    ensures Fold(norm, gaps[..j + 1]) ==
      match norm
      case Infinity => Max(Fold(norm, gaps[..j]), Abs(v))
      case One => Fold(norm, gaps[..j]) + Abs(v)
      case Two => Fold(norm, gaps[..j]) + Sqr(v)
  {
    assert gaps[..j + 1][..j] == gaps[..j];
    assert Sqr(Abs(v)) == Sqr(v);
  }

  /** The distance loops of the three norms. */
  method PointDist(norm: Norm, p: Point, x: Point) returns (r: real)
    requires |p| >= |x|
    ensures r == Dist(norm, p, x)
  {
    r := 0.0;
    ghost var g := PointGaps(p, x);
    for j := 0 to |x|
      invariant r == Fold(norm, g[..j])
    {
      FoldSnoc(norm, g, j, p[j] - x[j]);
      match norm {
        case Infinity => r := Max(r, Abs(p[j] - x[j]));
        case One => r := r + Abs(p[j] - x[j]);
        case Two => r := r + Sqr(p[j] - x[j]);
      }
    }
    assert g[..|x|] == g;
  }

  /** The sets of rows that the heap `h` is right for. */
  ghost function Rights(q: Request, a: seq<Row>, h: seq<Neighbor>): (r: iset<set<int>>)
    ensures forall seen :: seen in r <==> seen <= Range(0, |a|) && Legal(q, a) && Heap(h) && Tracks(q, a, h, seen)
  {
    iset seen: set<int> | seen <= Range(0, |a|) && Legal(q, a) && Heap(h) && Tracks(q, a, h, seen)
  }

  ghost predicate Good(q: Request, a: seq<Row>, h: seq<Neighbor>, seen: set<int>) {
    seen in Rights(q, a, h)
  }

  /** A box at distance `cd` lies beyond the radius, or k neighbours are held that it cannot improve. */
  ghost predicate OutOfReach(q: Request, h: seq<Neighbor>, cd: real) {
    || (q.rneeded != 0.0 && cd > q.rneeded)
    || (Full(q, h) && |h| > 0 && cd > h[0].dist * q.approxf)
  }

  /** Going from `h` to `h2` deals with rows [i, j): whatever rows `h` was right for, `h2` is right for these as
      well. */
  ghost predicate Advances(q: Request, a: seq<Row>, h: seq<Neighbor>, h2: seq<Neighbor>, i: int, j: int) {
    forall seen {:trigger Apart(seen, i, j)} ::
      Good(q, a, h, seen) && Apart(seen, i, j) ==> Good(q, a, h2, seen + Range(i, j))
  }

  ghost predicate Apart(seen: set<int>, i: int, j: int) {
    seen !! Range(i, j)
  }

  lemma {:induction false} AdvanceTwice(q: Request, a: seq<Row>, h: seq<Neighbor>, h1: seq<Neighbor>, h2: seq<Neighbor>,
                     i1: int, j1: int, i2: int, j2: int, seen: set<int>, mid: set<int>, all: set<int>)
    requires Advances(q, a, h, h1, i1, j1) && Advances(q, a, h1, h2, i2, j2)
    requires Apart(seen, i1, j1) && mid == seen + Range(i1, j1)
    requires Apart(mid, i2, j2) && all == mid + Range(i2, j2)
    ensures Good(q, a, h, seen) ==> Good(q, a, h2, all)
  {
  }

  /** Dealing with two adjacent ranges, in either order, deals with both. */
  lemma {:induction false} AdvancesJoin(q: Request, a: seq<Row>, h: seq<Neighbor>, h1: seq<Neighbor>, h2: seq<Neighbor>,
                                        i: int, j: int, k: int)
    requires i <= j <= k
    ensures Advances(q, a, h, h1, i, j) && Advances(q, a, h1, h2, j, k) ==> Advances(q, a, h, h2, i, k)
    ensures Advances(q, a, h, h1, j, k) && Advances(q, a, h1, h2, i, j) ==> Advances(q, a, h, h2, i, k)
  {
    var inOrder := Advances(q, a, h, h1, i, j) && Advances(q, a, h1, h2, j, k);
    var reversed := Advances(q, a, h, h1, j, k) && Advances(q, a, h1, h2, i, j);
    forall seen | (inOrder || reversed) && Good(q, a, h, seen) && Apart(seen, i, k)
      ensures Good(q, a, h2, seen + Range(i, k))
    {
      RangesJoin(seen, i, j, k);
      if inOrder {
        AdvanceTwice(q, a, h, h1, h2, i, j, j, k, seen, seen + Range(i, j), seen + Range(i, k));
      } else {
        AdvanceTwice(q, a, h, h1, h2, j, k, i, j, seen, seen + Range(j, k), seen + Range(i, k));
      }
    }
  }

  lemma {:induction false} RangesSplit(i: int, j: int, k: int)
    requires i <= j <= k
    ensures Range(i, k) == Range(i, j) + Range(j, k) && Range(i, j) !! Range(j, k)
  {
  }

  lemma {:induction false} RangesJoin(seen: set<int>, i: int, j: int, k: int)
    requires i <= j <= k && Apart(seen, i, k)
    ensures seen + Range(i, k) == seen + Range(i, j) + Range(j, k) == seen + Range(j, k) + Range(i, j)
    ensures Apart(seen, i, j) && Apart(seen, j, k)
    ensures Apart(seen + Range(i, j), j, k) && Apart(seen + Range(j, k), i, j)
  {
    RangesSplit(i, j, k);
    SetsJoin(seen, Range(i, j), Range(j, k));
  }

  lemma {:induction false} SetsJoin(u: set<int>, v: set<int>, w: set<int>)
    requires u !! (v + w) && v !! w
    ensures u + (v + w) == u + v + w == u + w + v
    ensures u !! v && u !! w && (u + v) !! w && (u + w) !! v
  {
  }

  /** Rows of a box that lies beyond the radius, or beyond the reach of k held neighbours, can be skipped. */
  lemma {:induction false} PruneIsSafe(q: Request, a: seq<Row>, h: seq<Neighbor>, t: Tree, lo: Point, hi: Point)
    requires Fits(a, t, lo, hi) && |lo| == |q.x| && OutOfReach(q, h, BoxDist(q.norm, lo, hi, q.x))
    ensures Advances(q, a, h, h, Lo(t), Hi(t))
  {
    forall i | i in Range(Lo(t), Hi(t)) ensures Hopeless(q, a, h, i) {
      PrunedIsHopeless(q, a, h, t, lo, hi, i);
    }
    forall seen {:trigger Apart(seen, Lo(t), Hi(t))} | Apart(seen, Lo(t), Hi(t))
      ensures Good(q, a, h, seen) ==> Good(q, a, h, seen + Range(Lo(t), Hi(t)))
    {
      SkippedStaysGood(q, a, h, seen, Lo(t), Hi(t));
    }
  }

  lemma {:induction false} SkippedStaysGood(q: Request, a: seq<Row>, h: seq<Neighbor>, seen: set<int>, i: int, j: int)
    requires forall k :: k in Range(i, j) ==> Hopeless(q, a, h, k)
    ensures Good(q, a, h, seen) ==> Good(q, a, h, seen + Range(i, j))
  {
    if Good(q, a, h, seen) {
      TracksSkip(q, a, h, seen, Range(i, j));
    }
  }

  lemma {:induction false} PrunedIsHopeless(q: Request, a: seq<Row>, h: seq<Neighbor>, t: Tree, lo: Point, hi: Point,
                                            i: int)
    requires Fits(a, t, lo, hi) && |lo| == |q.x| && OutOfReach(q, h, BoxDist(q.norm, lo, hi, q.x))
    requires Lo(t) <= i < Hi(t)
    ensures Hopeless(q, a, h, i)
  {
    assert InBox(a[i].xy, lo, hi);
    BoxDistIsLowerBound(q.norm, lo, hi, q.x, a[i].xy);
  }

  /** The heap after row `i` has been offered to it. */
  ghost function Considered(q: Request, a: seq<Row>, h: seq<Neighbor>, i: int): (r: seq<Neighbor>)
    requires 0 <= i < |a| && |a[i].xy| >= |q.x|
    ensures |r| <= |h| + 1
  {
    var e := Entry(q, a, i);
    if !Eligible(q, a[i]) then h
    else if !Full(q, h) then SiftedUp(h + [e], |h|)
    else if |h| > 0 && e.dist < h[0].dist then SiftedDown(h[0 := e], 0)
    else h
  }

  lemma {:induction false} ConsideredReplaces(q: Request, a: seq<Row>, h: seq<Neighbor>, seen: set<int>, i: int)
    requires Legal(q, a) && Heap(h) && Tracks(q, a, h, seen) && i !in seen && 0 <= i < |a| && |h| > 0
    requires Eligible(q, a[i]) && Full(q, h) && Entry(q, a, i).dist < h[0].dist
    ensures Heap(Considered(q, a, h, i)) && Tracks(q, a, Considered(q, a, h, i), seen + {i})
  {
    var e, h' := Entry(q, a, i), Considered(q, a, h, i);
    ReplacedTopIsHeap(h, e);
    ReplacedTopIsNearer(h, h', e);
    assert h == [h[0]] + h[1..];
    TracksReplace(q, a, h, h', seen, i);
  }

  lemma {:induction false} ConsideredIgnores(q: Request, a: seq<Row>, h: seq<Neighbor>, seen: set<int>, i: int)
    requires Legal(q, a) && Heap(h) && Tracks(q, a, h, seen) && 0 <= i < |a| && |h| > 0
    requires Full(q, h) && Entry(q, a, i).dist >= h[0].dist
    ensures Tracks(q, a, h, seen + {i})
  {
    assert h[0] in multiset(h) && Held(q, a, h, seen, h[0]);
    DistNonNegative(q, a[h[0].idx]);
    FartherIsBeaten(q, a, h, i);
    TracksSkip(q, a, h, seen, {i});
  }

  lemma {:induction false} ConsideredCorrect(q: Request, a: seq<Row>, h: seq<Neighbor>, seen: set<int>, i: int)
    requires Legal(q, a) && Heap(h) && Tracks(q, a, h, seen) && i !in seen && 0 <= i < |a|
    ensures Heap(Considered(q, a, h, i)) && Tracks(q, a, Considered(q, a, h, i), seen + {i})
  {
    var e := Entry(q, a, i);
    if !Eligible(q, a[i]) {
      TracksSkip(q, a, h, seen, {i});
    } else if !Full(q, h) {
      PushedIsHeap(h, e);
      TracksPush(q, a, h, Considered(q, a, h, i), seen, i);
    } else if e.dist < h[0].dist {
      ConsideredReplaces(q, a, h, seen, i);
    } else {
      ConsideredIgnores(q, a, h, seen, i);
    }
  }

  lemma {:induction false} ConsideredAdvances(q: Request, a: seq<Row>, h: seq<Neighbor>, i: int, j: int)
    requires 0 <= i < |a| && Wide(a, |q.x|) && j == i + 1
    ensures Advances(q, a, h, Considered(q, a, h, i), i, j)
  {
    assert i in Range(i, j) && Range(i, j) == {i};
    forall seen | Good(q, a, h, seen) && Apart(seen, i, j)
      ensures Good(q, a, Considered(q, a, h, i), seen + Range(i, j))
    {
      ConsideredCorrect(q, a, h, seen, i);
    }
  }

  lemma {:induction false} AdvancesNowhere(q: Request, a: seq<Row>, h: seq<Neighbor>, i: int)
    ensures Advances(q, a, h, h, i, i)
  {
    forall seen ensures seen + Range(i, i) == seen { }
  }

  /** The heap after rows [i1, i2) have been offered to it. */
  ghost function Scanned(q: Request, a: seq<Row>, h: seq<Neighbor>, i1: int, i2: int): (r: seq<Neighbor>)
    requires 0 <= i1 <= i2 <= |a| && Wide(a, |q.x|)
    ensures |r| <= |h| + (i2 - i1)
    decreases i2 - i1
  {
    if i1 == i2 then h else Considered(q, a, Scanned(q, a, h, i1, i2 - 1), i2 - 1)
  }

  lemma {:induction false} ScannedAdvances(q: Request, a: seq<Row>, h: seq<Neighbor>, i1: int, i2: int)
    requires 0 <= i1 <= i2 <= |a| && Wide(a, |q.x|)
    ensures Advances(q, a, h, Scanned(q, a, h, i1, i2), i1, i2)
    decreases i2 - i1
  {
    if i1 == i2 {
      AdvancesNowhere(q, a, h, i1);
    } else {
      var h1, h2 := Scanned(q, a, h, i1, i2 - 1), Scanned(q, a, h, i1, i2);
      ScannedAdvances(q, a, h, i1, i2 - 1);
      ConsideredAdvances(q, a, h1, i2 - 1, i2);
      AdvancesJoin(q, a, h, h1, h2, i1, i2 - 1, i2);
    }
  }

  /** The search as a function on the tree: the nearer child first, each child only if it is within reach.
      No pruned box holds a row that is needed. */
  ghost function Searched(q: Request, a: seq<Row>, t: Tree, lo: Point, hi: Point, h: seq<Neighbor>): (r: seq<Neighbor>)
    requires Fits(a, t, lo, hi) && |lo| == |q.x|
    ensures |r| <= |h| + (Hi(t) - Lo(t)) && Advances(q, a, h, r, Lo(t), Hi(t))
    decreases t, 0
  {
    match t
    case Leaf(_, _) =>
      ScannedAdvances(q, a, h, Lo(t), Hi(t));
      Scanned(q, a, h, Lo(t), Hi(t))
    case Split(d, s, l, r) =>
      FitsChildren(a, t, lo, hi);
      if q.x[d] <= s then
        var h1 := Visited(q, a, l, lo, hi[d := s], h);
        var h2 := Visited(q, a, r, lo[d := s], hi, h1);
        AdvancesJoin(q, a, h, h1, h2, Lo(t), Lo(r), Hi(t));
        h2
      else
        var h1 := Visited(q, a, r, lo[d := s], hi, h);
        var h2 := Visited(q, a, l, lo, hi[d := s], h1);
        AdvancesJoin(q, a, h, h1, h2, Lo(t), Lo(r), Hi(t));
        h2
  }

  ghost function Visited(q: Request, a: seq<Row>, t: Tree, lo: Point, hi: Point, h: seq<Neighbor>): (r: seq<Neighbor>)
    requires Fits(a, t, lo, hi) && |lo| == |q.x|
    ensures |r| <= |h| + (Hi(t) - Lo(t)) && Advances(q, a, h, r, Lo(t), Hi(t))
    decreases t, 1
  {
    if OutOfReach(q, h, BoxDist(q.norm, lo, hi, q.x)) then
      PruneIsSafe(q, a, h, t, lo, hi);
      h
    else Searched(q, a, t, lo, hi, h)
  }

  /** Distance from a point to a box, dimension by dimension. */
  method DistToBox(norm: Norm, lo: Point, hi: Point, q: Point) returns (cd: real)
    requires |lo| == |hi| == |q|
    ensures cd == BoxDist(norm, lo, hi, q)
  {
    cd := 0.0;
    ghost var g := BoxGaps(lo, hi, q);
    for i := 0 to |q|
      invariant cd == Fold(norm, g[..i])
    {
      assert g[..i + 1][..i] == g[..i];
      FoldMono(norm, g[..i], g[..i]);
      var vx, vmin, vmax := q[i], lo[i], hi[i];
      if vx < vmin {
        match norm {
          case Infinity => cd := Max(cd, vmin - vx);
          case One => cd := cd + vmin - vx;
          case Two => cd := cd + Sqr(vmin - vx);
        }
      } else if vx > vmax {
        match norm {
          case Infinity => cd := Max(cd, vx - vmax);
          case One => cd := cd + vx - vmax;
          case Two => cd := cd + Sqr(vx - vmax);
        }
      }
    }
    assert g[..|q|] == g;
  }

  /** A search of the whole tree from an empty heap ends with a heap that is right for all rows. */
  lemma {:induction false} WholeSearch(q: Request, a: seq<Row>, t: Tree, lo: Point, hi: Point)
    requires Legal(q, a) && Fits(a, t, lo, hi) && |lo| == |q.x| && Lo(t) == 0 && Hi(t) == |a|
    ensures var h := Searched(q, a, t, lo, hi, []);
            Heap(h) && Tracks(q, a, h, Range(0, |a|)) && |h| <= |a|
  {
    var h := Searched(q, a, t, lo, hi, []);
    assert Good(q, a, [], {}) && Apart({}, 0, |a|);
    assert Advances(q, a, [], h, 0, |a|);
    assert {} + Range(0, |a|) == Range(0, |a|);
  }

  class RequestBuffer {
    var x: Point
    var kneeded: nat
    var rneeded: real
    var selfmatch: bool
    var approxf: real
    var kcur: nat
    // distances and row indices of the neighbours found so far
    var found: array<Neighbor>
    var curboxmin: Point
    var curboxmax: Point
    var curdist: real
    // the box of a box query
    var boxmin: Point
    var boxmax: Point

    ghost function Query(norm: Norm): Request
      reads this
    {
      Request(norm, x, kneeded, rneeded, selfmatch, approxf)
    }

    /** `curdist` is the exact distance from the query point to the current box. */
    ghost predicate BoxExact(norm: Norm)
      reads this
    {
      |x| == |curboxmin| == |curboxmax| && curdist == BoxDist(norm, curboxmin, curboxmax, x)
    }

    /** Offers row `i` to the result heap. */
    method Consider(kdt: KdTree, i: int)
      requires 0 <= i < kdt.rows.Length && |kdt.rows[i].xy| >= |x|
      requires kcur <= found.Length && (kneeded > 0 ==> kcur <= kneeded)
      requires kcur < kneeded || kneeded == 0 ==> kcur < found.Length
      modifies `kcur, found
      ensures kcur <= found.Length
      ensures found[..kcur] == Considered(Query(kdt.norm), kdt.rows[..], old(found[..kcur]), i)
    {
      var ptdist := PointDist(kdt.norm, kdt.rows[i].xy, x);
      if ptdist == 0.0 && !selfmatch {
        return;
      }
      if rneeded == 0.0 || ptdist <= rneeded {
        if kcur < kneeded || kneeded == 0 {
          Push(found, kcur, Neighbor(ptdist, i));
          kcur := kcur + 1;
        } else if ptdist < found[0].dist {
          if kneeded == 1 {
            found[0] := Neighbor(ptdist, i);
          } else {
            ReplaceTop(found, kneeded, Neighbor(ptdist, i));
          }
        }
      }
    }

    /** Offers the rows of a leaf. */
    method ScanLeaf(kdt: KdTree, i1: int, i2: int)
      requires 0 <= i1 <= i2 <= kdt.rows.Length && Wide(kdt.rows[..], |x|)
      requires kcur + (i2 - i1) <= found.Length && (kneeded > 0 ==> kcur <= kneeded)
      modifies `kcur, found
      ensures kcur <= found.Length && (kneeded > 0 ==> kcur <= kneeded)
      ensures found[..kcur] == Scanned(Query(kdt.norm), kdt.rows[..], old(found[..kcur]), i1, i2)
    {
      for i := i1 to i2
        invariant kcur + (i2 - i) <= found.Length && (kneeded > 0 ==> kcur <= kneeded)
        invariant found[..kcur] == Scanned(Query(kdt.norm), kdt.rows[..], old(found[..kcur]), i1, i)
      {
        ghost var rows, h := kdt.rows[..], found[..kcur];
        Consider(kdt, i);
        assert kdt.rows[..] == rows && found[..kcur] == Considered(Query(kdt.norm), rows, h, i);
      }
    }

    /** Moves one face of the current box to `s` and updates `curdist`; returns the old position of the face. */
    method NarrowBox(norm: Norm, updatemin: bool, d: int, s: real) returns (v: real)
      requires BoxExact(norm) && 0 <= d < |x| && curboxmin[d] <= s <= curboxmax[d]
      modifies `curboxmin, `curboxmax, `curdist
      ensures BoxExact(norm) && v == if updatemin then old(curboxmin)[d] else old(curboxmax)[d]
      ensures curboxmin == if updatemin then old(curboxmin)[d := s] else old(curboxmin)
      ensures curboxmax == if updatemin then old(curboxmax) else old(curboxmax)[d := s]
    {
      var t1 := x[d];
      if updatemin {
        v := curboxmin[d];
        RaiseLower(norm, curboxmin, curboxmax, x, d, s);
        if t1 <= s {
          match norm {
            case Infinity => curdist := Max(curdist, s - t1);
            case One => curdist := curdist - Max(v - t1, 0.0) + s - t1;
            case Two => curdist := curdist - Sqr(Max(v - t1, 0.0)) + Sqr(s - t1);
          }
        }
        curboxmin := curboxmin[d := s];
      } else {
        v := curboxmax[d];
        LowerUpper(norm, curboxmin, curboxmax, x, d, s);
        if t1 >= s {
          match norm {
            case Infinity => curdist := Max(curdist, t1 - s);
            case One => curdist := curdist - Max(t1 - v, 0.0) + t1 - s;
            case Two => curdist := curdist - Sqr(Max(t1 - v, 0.0)) + Sqr(t1 - s);
          }
        }
        curboxmax := curboxmax[d := s];
      }
    }

    /** Whether a box at distance `curdist` can still contribute. */
    method Promising(ghost q: Request) returns (todive: bool)
      requires q == Query(q.norm) && kcur <= found.Length
      ensures todive <==> !OutOfReach(q, found[..kcur], curdist)
    {
      if rneeded != 0.0 && curdist > rneeded {
        todive := false;
      } else if kcur < kneeded || kneeded == 0 {
        todive := true;
      } else {
        todive := curdist <= found[0].dist * approxf;
      }
    }

    /** Visits one child of a split node: narrows the box, dives unless the box is out of reach, restores the box. */
    method VisitChild(kdt: KdTree, offs: int, updatemin: bool, d: int, s: real,
                      ghost p: int, ghost t: Tree, ghost lo: Point, ghost hi: Point)
      requires BoxExact(kdt.norm) && 0 <= d < |x| && curboxmin[d] <= s <= curboxmax[d]
      requires lo == (if updatemin then curboxmin[d := s] else curboxmin)
      requires hi == (if updatemin then curboxmax else curboxmax[d := s])
      requires Coded(kdt.nodes, kdt.splits, offs, p, t) && Fits(kdt.rows[..], t, lo, hi)
      requires kcur + (Hi(t) - Lo(t)) <= found.Length && (kneeded > 0 ==> kcur <= kneeded)
      modifies `kcur, found, `curboxmin, `curboxmax, `curdist
      ensures curboxmin == old(curboxmin) && curboxmax == old(curboxmax) && curdist == old(curdist)
      ensures kcur <= found.Length && (kneeded > 0 ==> kcur <= kneeded)
      ensures found[..kcur] == Visited(Query(kdt.norm), kdt.rows[..], t, lo, hi, old(found[..kcur]))
      decreases t, 2
    {
      var prevdist := curdist;
      var v := NarrowBox(kdt.norm, updatemin, d, s);
      var todive := Promising(Query(kdt.norm));
      if todive {
        QueryNnRec(kdt, offs, p, t);
      }
      RestoreBox(updatemin, d, v, prevdist);
    }

    /** Puts the moved face and the distance back. */
    method RestoreBox(updatemin: bool, d: int, v: real, prevdist: real)
      requires 0 <= d < |curboxmin| == |curboxmax|
      modifies `curboxmin, `curboxmax, `curdist
      ensures curdist == prevdist
      ensures curboxmin == if updatemin then old(curboxmin)[d := v] else old(curboxmin)
      ensures curboxmax == if updatemin then old(curboxmax) else old(curboxmax)[d := v]
    {
      if updatemin {
        curboxmin := curboxmin[d := v];
      } else {
        curboxmax := curboxmax[d := v];
      }
      curdist := prevdist;
    }

    /** Searches the subtree at `offs`. The flat vectors, the saved and restored box and the incremental
        distance compute what `Searched` computes on the tree. */
    method QueryNnRec(kdt: KdTree, offs: int, ghost p: int, ghost t: Tree)
      requires BoxExact(kdt.norm)
      requires Coded(kdt.nodes, kdt.splits, offs, p, t) && Fits(kdt.rows[..], t, curboxmin, curboxmax)
      requires kcur + (Hi(t) - Lo(t)) <= found.Length && (kneeded > 0 ==> kcur <= kneeded)
      modifies `kcur, found, `curboxmin, `curboxmax, `curdist
      ensures curboxmin == old(curboxmin) && curboxmax == old(curboxmax) && curdist == old(curdist)
      ensures kcur <= found.Length && (kneeded > 0 ==> kcur <= kneeded)
      ensures found[..kcur] == Searched(Query(kdt.norm), kdt.rows[..], t, curboxmin, curboxmax, old(found[..kcur]))
      decreases t, 1
    {
      if kdt.nodes[offs] > 0 {
        var i1 := kdt.nodes[offs + 1];
        var i2 := i1 + kdt.nodes[offs];
        ScanLeaf(kdt, i1, i2);
      } else if kdt.nodes[offs] == 0 {
        VisitBoth(kdt, offs, p, t);
      }
    }

    /** A split node: the child with the better chances first. */
    method VisitBoth(kdt: KdTree, offs: int, ghost p: int, ghost t: Tree)
      requires BoxExact(kdt.norm) && t.Split?
      requires Coded(kdt.nodes, kdt.splits, offs, p, t) && Fits(kdt.rows[..], t, curboxmin, curboxmax)
      requires kcur + (Hi(t) - Lo(t)) <= found.Length && (kneeded > 0 ==> kcur <= kneeded)
      modifies `kcur, found, `curboxmin, `curboxmax, `curdist
      ensures curboxmin == old(curboxmin) && curboxmax == old(curboxmax) && curdist == old(curdist)
      ensures kcur <= found.Length && (kneeded > 0 ==> kcur <= kneeded)
      ensures found[..kcur] == Searched(Query(kdt.norm), kdt.rows[..], t, curboxmin, curboxmax, old(found[..kcur]))
      decreases t, 0
    {
      CodedChildren(kdt.nodes, kdt.splits, offs, p, t);
      FitsChildren(kdt.rows[..], t, curboxmin, curboxmax);
      var d := kdt.nodes[offs + 1];
      var s := kdt.splits[kdt.nodes[offs + 2]];
      ghost var p1, p2 := p + 1, p + 1 + SplitCells(t.left);
      ghost var lo, hi := curboxmin, curboxmax;
      var bestisleft := x[d] <= s;
      if bestisleft {
        VisitChild(kdt, kdt.nodes[offs + 3], false, d, s, p1, t.left, lo, hi[t.d := t.s]);
        VisitChild(kdt, kdt.nodes[offs + 4], true, d, s, p2, t.right, lo[t.d := t.s], hi);
      } else {
        VisitChild(kdt, kdt.nodes[offs + 4], true, d, s, p2, t.right, lo[t.d := t.s], hi);
        VisitChild(kdt, kdt.nodes[offs + 3], false, d, s, p1, t.left, lo, hi[t.d := t.s]);
      }
    }

    /** A buffer for queries to one tree. */
    constructor (kdt: KdTree)
      ensures found.Length == kdt.n && fresh(found) && kcur == 0
    {
      x, curboxmin, curboxmax, curdist, boxmin, boxmax := [], [], [], 0.0, [], [];
      kneeded, rneeded, selfmatch, approxf, kcur := 0, 0.0, false, 1.0, 0;
      found := new Neighbor[kdt.n](_ => Neighbor(0.0, 0));
    }

    /** Stores the query point, starts from the box of the whole tree, and computes the distance to it. */
    method InitBox(kdt: KdTree, point: Point)
      requires |kdt.boxmin| == |kdt.boxmax| == kdt.nx <= |point|
      modifies `x, `curboxmin, `curboxmax, `curdist
      ensures x == point[..kdt.nx] && curboxmin == kdt.boxmin && curboxmax == kdt.boxmax && BoxExact(kdt.norm)
    {
      x, curboxmin, curboxmax := point[..kdt.nx], kdt.boxmin, kdt.boxmax;
      curdist := DistToBox(kdt.norm, curboxmin, curboxmax, x);
    }

    /** Runs the search from the root. */
    method SearchFromRoot(kdt: KdTree)
      requires kdt.Valid() && kdt.n > 0 && found.Length >= kdt.n && kcur == 0
      requires BoxExact(kdt.norm) && curboxmin == kdt.boxmin && curboxmax == kdt.boxmax
      modifies `kcur, found, `curboxmin, `curboxmax, `curdist
      ensures kcur <= found.Length && Fits(kdt.rows[..], kdt.tree, kdt.boxmin, kdt.boxmax)
      ensures found[..kcur] == Searched(Query(kdt.norm), kdt.rows[..], kdt.tree, kdt.boxmin, kdt.boxmax, [])
    {
      assert found[..kcur] == [];
      QueryNnRec(kdt, 0, 0, kdt.tree);
    }

    /** Searches the whole tree and sorts the results by popping the heap. */
    method SearchAll(kdt: KdTree, ghost q: Request) returns (ghost top: real)
      requires kdt.Valid() && kdt.n > 0 && found.Length >= kdt.n && kcur == 0
      requires BoxExact(kdt.norm) && curboxmin == kdt.boxmin && curboxmax == kdt.boxmax
      requires q == Query(kdt.norm) && Legal(q, kdt.rows[..])
      modifies `kcur, found, `curboxmin, `curboxmax, `curdist
      ensures kcur <= kdt.n && Ascending(found[..kcur])
      ensures Answers(Profile(q, kdt.rows[..]), q.kneeded, found[..kcur], top, Times(top, q.approxf))
    {
      SearchFromRoot(kdt);
      ghost var h := found[..kcur];
      WholeSearch(q, kdt.rows[..], kdt.tree, kdt.boxmin, kdt.boxmax);
      top := if |h| > 0 then h[0].dist else 0.0;
      SortResults(q, kdt.rows[..], h, top);
    }

    /** Pops the heap empty, which leaves the results in ascending order. */
    method SortResults(ghost q: Request, ghost a: seq<Row>, ghost h: seq<Neighbor>, ghost top: real)
      requires kcur <= found.Length && h == found[..kcur] && Legal(q, a)
      requires Heap(h) && Tracks(q, a, h, Range(0, |a|)) && (|h| > 0 ==> top == h[0].dist)
      modifies found
      ensures Ascending(found[..kcur]) && Answers(Profile(q, a), q.kneeded, found[..kcur], top, Times(top, q.approxf))
    {
      Drain(found, kcur);
      SearchAnswers(q, a, h, found[..kcur], top);
    }

    /** The search for a request whose parameters are set. */
    method Answer(kdt: KdTree, point: Point, ghost q: Request)
      requires kdt.Valid() && kdt.n > 0 && found.Length >= kdt.n && kcur == 0 && |point| >= kdt.nx
      requires q == Request(kdt.norm, point[..kdt.nx], kneeded, rneeded, selfmatch, approxf)
      requires 0.0 < approxf <= 1.0 && rneeded >= 0.0
      modifies `x, `kcur, found, `curboxmin, `curboxmax, `curdist
      ensures kcur <= kdt.n && NearestResults(q, kdt.rows[..], found[..kcur])
      ensures kneeded == 0 ==> AllFound(q, kdt.rows[..], found[..kcur])
    {
      InitBox(kdt, point);
      ghost var top := SearchAll(kdt, q);
      AnswersAreNearest(q, kdt.rows[..], found[..kcur], top);
    }

    /** K-NN query, exact for `eps == 0`. The result buffer holds the neighbours by ascending distance
        (squared for the 2-norm). */
    method QueryAknn(kdt: KdTree, point: Point, k: nat, selfmatch: bool, eps: real) returns (result: nat)
      requires kdt.Valid() && found.Length >= kdt.n
      requires k > 0 && eps >= 0.0 && |point| >= kdt.nx
      modifies `x, `kneeded, `rneeded, `selfmatch, `approxf, `kcur, found, `curboxmin, `curboxmax, `curdist
      ensures result == kcur <= kdt.n
      ensures NearestResults(KnnRequest(kdt.norm, point[..kdt.nx], if k < kdt.n then k else kdt.n, selfmatch, eps),
                             kdt.rows[..], found[..kcur])
      ensures NearEnough(Slack(kdt.norm, eps), found[..kcur],
                         BruteForce(KnnRequest(kdt.norm, point[..kdt.nx],
                                               if k < kdt.n then k else kdt.n, selfmatch, eps), kdt.rows[..]))
      ensures ListsNearest(kdt.norm, kdt.rows[..], point[..kdt.nx], k, selfmatch,
                           if kdt.norm.Two? then (1.0 + eps) * (1.0 + eps) else 1.0 + eps, found[..kcur])
    {
      ghost var q := KnnRequest(kdt.norm, point[..kdt.nx], if k < kdt.n then k else kdt.n, selfmatch, eps);
      ApproxFactorRange(kdt.norm, eps);
      SlackIs(kdt.norm, eps);
      if kdt.n == 0 {
        kcur := 0;
        NothingToFind(q, kdt.rows[..], found[..kcur]);
        NearestMeans(q, kdt.rows[..], found[..kcur], k, eps);
        return 0;
      }
      kneeded := if k < kdt.n then k else kdt.n;
      rneeded := 0.0;
      this.selfmatch := selfmatch;
      approxf := ApproxFactor(kdt.norm, eps);
      kcur := 0;
      Answer(kdt, point, q);
      NearestMeans(q, kdt.rows[..], found[..kcur], k, eps);
      result := kcur;
    }

    /** R-NN query: all eligible rows within radius `r`. */
    method QueryRnn(kdt: KdTree, point: Point, r: real, selfmatch: bool) returns (result: nat)
      requires kdt.Valid() && found.Length >= kdt.n
      requires r > 0.0 && |point| >= kdt.nx
      modifies `x, `kneeded, `rneeded, `selfmatch, `approxf, `kcur, found, `curboxmin, `curboxmax, `curdist
      ensures result == kcur <= kdt.n
      ensures NearestResults(RnnRequest(kdt.norm, point[..kdt.nx], r, selfmatch), kdt.rows[..], found[..kcur])
      ensures AllFound(RnnRequest(kdt.norm, point[..kdt.nx], r, selfmatch), kdt.rows[..], found[..kcur])
      ensures ListsRadius(kdt.norm, kdt.rows[..], point[..kdt.nx], r, selfmatch, found[..kcur])
      ensures Measured(kdt.norm, kdt.rows[..], point[..kdt.nx], selfmatch, found[..kcur])
    {
      ghost var q := RnnRequest(kdt.norm, point[..kdt.nx], r, selfmatch);
      if kdt.n == 0 {
        kcur := 0;
        NothingToFind(q, kdt.rows[..], found[..kcur]);
        RadiusMeans(kdt.norm, point[..kdt.nx], r, selfmatch, kdt.rows[..], found[..kcur]);
        return 0;
      }
      kneeded := 0;
      if !kdt.norm.Two? {
        rneeded := r;
      } else {
        rneeded := Sqr(r);
      }
      this.selfmatch := selfmatch;
      approxf := 1.0;
      kcur := 0;
      Answer(kdt, point, q);
      RadiusMeans(kdt.norm, point[..kdt.nx], r, selfmatch, kdt.rows[..], found[..kcur]);
      result := kcur;
    }

    method ListLeaf(kdt: KdTree, i1: int, i2: int)
      requires 0 <= i1 <= i2 <= kdt.rows.Length && |boxmin| == |boxmax| && Wide(kdt.rows[..], |boxmin|)
      requires kcur + (i2 - i1) <= found.Length
      modifies `kcur, found
      ensures kcur <= found.Length
      ensures found[..kcur] == old(found[..kcur]) + Inside(kdt.rows[..], i1, i2, boxmin, boxmax)
    {
      for i := i1 to i2
        invariant kcur + (i2 - i) <= found.Length
        invariant found[..kcur] == old(found[..kcur]) + Inside(kdt.rows[..], i1, i, boxmin, boxmax)
      {
        var inbox := RowInBox(kdt.rows[i].xy, boxmin, boxmax);
        if inbox {
          found[kcur] := Neighbor(0.0, i);
          kcur := kcur + 1;
        }
      }
    }

    /** Appends the rows of the subtree at `offs` that lie in the query box. The root is left at once if the current
        box and the query box do not meet; the caller starts with the query box as current box, so they always do. */
    method QueryBoxRec(kdt: KdTree, offs: int, ghost p: int, ghost t: Tree)
      requires |boxmin| == |boxmax| == |curboxmin| == |curboxmax|
      requires offs == 0 ==> IsBox(boxmin, boxmax) && curboxmin == boxmin && curboxmax == boxmax
      requires Coded(kdt.nodes, kdt.splits, offs, p, t)
      requires Separates(t, kdt.rows[..], |boxmin|) && Wide(kdt.rows[..], |boxmin|)
      requires kcur + (Hi(t) - Lo(t)) <= found.Length
      modifies `kcur, found, `curboxmin, `curboxmax
      ensures curboxmin == old(curboxmin) && curboxmax == old(curboxmax)
      ensures kcur <= found.Length && kcur <= old(kcur) + (Hi(t) - Lo(t))
      ensures found[..kcur] == old(found[..kcur]) + Descended(kdt.rows[..], t, boxmin, boxmax)
      decreases t, 2
    {
      if offs == 0 {
        var miss := BoxesMiss(boxmin, boxmax, curboxmin, curboxmax);
        if miss {
          return;
        }
      }
      if kdt.nodes[offs] > 0 {
        var i1 := kdt.nodes[offs + 1];
        var i2 := i1 + kdt.nodes[offs];
        ListLeaf(kdt, i1, i2);
      } else if kdt.nodes[offs] == 0 {
        QueryBoxSplit(kdt, offs, p, t);
      }
    }

    /** A split node: the left child, then the right one, each if it meets the query box. */
    method QueryBoxSplit(kdt: KdTree, offs: int, ghost p: int, ghost t: Tree)
      requires |boxmin| == |boxmax| == |curboxmin| == |curboxmax| && t.Split?
      requires Coded(kdt.nodes, kdt.splits, offs, p, t)
      requires Separates(t, kdt.rows[..], |boxmin|) && Wide(kdt.rows[..], |boxmin|)
      requires kcur + (Hi(t) - Lo(t)) <= found.Length
      modifies `kcur, found, `curboxmin, `curboxmax
      ensures curboxmin == old(curboxmin) && curboxmax == old(curboxmax)
      ensures kcur <= found.Length && kcur <= old(kcur) + (Hi(t) - Lo(t))
      ensures found[..kcur] == old(found[..kcur]) + Descended(kdt.rows[..], t, boxmin, boxmax)
      decreases t, 1
    {
      ghost var rows := kdt.rows[..];
      DescendedSplit(rows, t, boxmin, boxmax, found[..kcur]);
      QueryBoxLeft(kdt, offs, p, t, rows);
      QueryBoxRight(kdt, offs, p, t, rows);
    }

    method QueryBoxLeft(kdt: KdTree, offs: int, ghost p: int, ghost t: Tree, ghost rows: seq<Row>)
      requires |boxmin| == |boxmax| == |curboxmin| == |curboxmax| && t.Split?
      requires Coded(kdt.nodes, kdt.splits, offs, p, t)
      requires rows == kdt.rows[..] && Separates(t, rows, |boxmin|) && Wide(rows, |boxmin|)
      requires kcur <= found.Length && kcur + (Hi(t.left) - Lo(t.left)) <= found.Length
      modifies `kcur, found, `curboxmin, `curboxmax
      ensures rows == kdt.rows[..]
      ensures curboxmin == old(curboxmin) && curboxmax == old(curboxmax)
      ensures kcur <= found.Length && kcur <= old(kcur) + (Hi(t.left) - Lo(t.left))
      ensures found[..kcur] == old(found[..kcur]) + LeftPart(rows, t, boxmin, boxmax)
      decreases t, 0
    {
      CodedChildren(kdt.nodes, kdt.splits, offs, p, t);
      var d := kdt.nodes[offs + 1];
      var s := kdt.splits[kdt.nodes[offs + 2]];
      QueryBoxChild(kdt, kdt.nodes[offs + 3], s >= boxmin[d], false, d, s, p + 1, t.left, rows);
    }

    method QueryBoxRight(kdt: KdTree, offs: int, ghost p: int, ghost t: Tree, ghost rows: seq<Row>)
      requires |boxmin| == |boxmax| == |curboxmin| == |curboxmax| && t.Split?
      requires Coded(kdt.nodes, kdt.splits, offs, p, t)
      requires rows == kdt.rows[..] && Separates(t, rows, |boxmin|) && Wide(rows, |boxmin|)
      requires kcur <= found.Length && kcur + (Hi(t.right) - Lo(t.right)) <= found.Length
      modifies `kcur, found, `curboxmin, `curboxmax
      ensures rows == kdt.rows[..]
      ensures curboxmin == old(curboxmin) && curboxmax == old(curboxmax)
      ensures kcur <= found.Length && kcur <= old(kcur) + (Hi(t.right) - Lo(t.right))
      ensures found[..kcur] == old(found[..kcur]) + RightPart(rows, t, boxmin, boxmax)
      decreases t, 0
    {
      CodedChildren(kdt.nodes, kdt.splits, offs, p, t);
      var d := kdt.nodes[offs + 1];
      var s := kdt.splits[kdt.nodes[offs + 2]];
      QueryBoxChild(kdt, kdt.nodes[offs + 4], s <= boxmax[d], true, d, s, p + 1 + SplitCells(t.left), t.right, rows);
    }

    /** If the child meets the query box: narrows the current box, descends, and restores the box. */
    method QueryBoxChild(kdt: KdTree, offs: int, meets: bool, updatemin: bool, d: int, s: real,
                         ghost p: int, ghost t: Tree, ghost rows: seq<Row>)
      requires |boxmin| == |boxmax| == |curboxmin| == |curboxmax| && 0 <= d < |boxmin| && offs > 0
      requires Coded(kdt.nodes, kdt.splits, offs, p, t)
      requires rows == kdt.rows[..] && Separates(t, rows, |boxmin|) && Wide(rows, |boxmin|)
      requires kcur + (Hi(t) - Lo(t)) <= found.Length
      modifies `kcur, found, `curboxmin, `curboxmax
      ensures rows == kdt.rows[..]
      ensures curboxmin == old(curboxmin) && curboxmax == old(curboxmax)
      ensures kcur <= found.Length && kcur <= old(kcur) + (Hi(t) - Lo(t))
      ensures found[..kcur] == old(found[..kcur]) + DescendedIf(meets, rows, t, boxmin, boxmax)
      decreases t, 3
    {
      if meets {
        ghost var h := found[..kcur];
        var v := NarrowCurrent(updatemin, d, s);
        assert found[..kcur] == h && rows == kdt.rows[..];
        QueryBoxRec(kdt, offs, p, t);
        ghost var h' := found[..kcur];
        assert h' == h + Descended(rows, t, boxmin, boxmax);
        var _ := NarrowCurrent(updatemin, d, v);
        assert found[..kcur] == h';
      }
    }

    /** Moves one face of the current box, and returns its old position. */
    method NarrowCurrent(updatemin: bool, d: int, s: real) returns (v: real)
      requires 0 <= d < |curboxmin| == |curboxmax|
      modifies `curboxmin, `curboxmax
      ensures v == if updatemin then old(curboxmin)[d] else old(curboxmax)[d]
      ensures curboxmin == if updatemin then old(curboxmin)[d := s] else old(curboxmin)
      ensures curboxmax == if updatemin then old(curboxmax) else old(curboxmax)[d := s]
    {
      if updatemin {
        v := curboxmin[d];
        curboxmin := curboxmin[d := s];
      } else {
        v := curboxmax[d];
        curboxmax := curboxmax[d := s];
      }
    }

    /** Box query: exactly the rows inside the box, each once. An inverted box gives no results. */
    method QueryBox(kdt: KdTree, lo: Point, hi: Point) returns (result: nat)
      requires kdt.Valid() && kdt.n > 0 && found.Length >= kdt.n
      requires |lo| >= kdt.nx && |hi| >= kdt.nx
      modifies `kcur, found, `curboxmin, `curboxmax, `boxmin, `boxmax
      ensures result == kcur <= kdt.n
      ensures found[..kcur] == Inside(kdt.rows[..], 0, kdt.n, lo[..kdt.nx], hi[..kdt.nx])
    {
      for j := 0 to kdt.nx
        invariant forall k :: 0 <= k < j ==> lo[k] <= hi[k]
      {
        if lo[j] > hi[j] {
          kcur := 0;
          InsideInverted(kdt.rows[..], 0, kdt.n, lo[..kdt.nx], hi[..kdt.nx], j);
          return 0;
        }
      }
      boxmin, boxmax, curboxmin, curboxmax := lo[..kdt.nx], hi[..kdt.nx], lo[..kdt.nx], hi[..kdt.nx];
      kcur := 0;
      assert found[..kcur] == [];
      QueryBoxRec(kdt, 0, 0, kdt.tree);
      result := kcur;
    }
  }

  /** The factor by which a returned distance may exceed the true one: 1+eps, squared for the squared 2-norm. */
  function Slack(norm: Norm, eps: real): (f: real)
    requires eps >= 0.0
    ensures f >= 1.0
  {
    SqrMono(1.0, 1.0 + eps);
    if norm.Two? then Sqr(1.0 + eps) else 1.0 + eps
  }

  function ApproxFactor(norm: Norm, eps: real): real
    requires eps >= 0.0
  {
    1.0 / Slack(norm, eps)
  }

  lemma {:induction false} ApproxFactorRange(norm: Norm, eps: real)
    requires eps >= 0.0
    ensures 0.0 < ApproxFactor(norm, eps) <= 1.0
    ensures eps == 0.0 ==> ApproxFactor(norm, eps) == 1.0
  {
    assert ApproxFactor(norm, eps) * Slack(norm, eps) == 1.0;
  }

  /** No result is farther than its true rank allows. */
  ghost predicate NearEnough(factor: real, res: seq<Neighbor>, b: seq<real>) {
    |res| <= |b| && forall i :: 0 <= i < |res| ==> res[i].dist <= Times(b[i], factor)
  }

  lemma {:induction false} NearestAreNearEnough(q: Request, a: seq<Row>, res: seq<Neighbor>, eps: real)
    requires eps >= 0.0 && q.approxf == ApproxFactor(q.norm, eps) && NearestResults(q, a, res)
    ensures NearEnough(Slack(q.norm, eps), res, BruteForce(q, a))
  {
    forall i | 0 <= i < |res| ensures res[i].dist <= Times(BruteForce(q, a)[i], Slack(q.norm, eps)) {
      WithinEps(res[i].dist, Slack(q.norm, eps), BruteForce(q, a)[i]);
    }
  }

  /** Every eligible row is among the results. */
  ghost predicate AllFound(q: Request, a: seq<Row>, res: seq<Neighbor>) {
    Legal(q, a) && forall i :: 0 <= i < |a| && Eligible(q, a[i]) ==> i in Indices(res)
  }

  function KnnRequest(norm: Norm, x: Point, kneeded: nat, selfmatch: bool, eps: real): Request
    requires eps >= 0.0
  {
    Request(norm, x, kneeded, 0.0, selfmatch, ApproxFactor(norm, eps))
  }

  function RnnRequest(norm: Norm, x: Point, r: real, selfmatch: bool): Request {
    Request(norm, x, 0, if norm.Two? then Sqr(r) else r, selfmatch, 1.0)
  }

  /** The results agree with a brute-force scan of all rows: as many as asked for and available, genuine rows by
      ascending distance, and the i-th one within the approximation factor of the true i-th smallest distance,
      equal to it when the factor is 1. */
  ghost predicate NearestResults(q: Request, a: seq<Row>, res: seq<Neighbor>) {
    && Legal(q, a) && Ascending(res) && Genuine(Profile(q, a), res)
    && |res| == (if q.kneeded == 0 || |BruteForce(q, a)| <= q.kneeded then |BruteForce(q, a)| else q.kneeded)
    && forall i :: 0 <= i < |res| ==> Within(res[i].dist, q.approxf, BruteForce(q, a)[i])
  }

  lemma {:induction false} NothingToFind(q: Request, a: seq<Row>, res: seq<Neighbor>)
    requires Legal(q, a) && a == [] && res == []
    ensures NearestResults(q, a, res)
  {
    assert Profile(q, a) == [];
  }

  lemma {:induction false} AnswersAreNearest(q: Request, a: seq<Row>, res: seq<Neighbor>, top: real)
    requires Legal(q, a) && Ascending(res)
    ensures Answers(Profile(q, a), q.kneeded, res, top, Times(top, q.approxf)) ==>
      NearestResults(q, a, res) && (q.kneeded == 0 ==> AllFound(q, a, res))
  {
    if Answers(Profile(q, a), q.kneeded, res, top, Times(top, q.approxf)) {
      assert forall i :: 0 <= i < |a| && Eligible(q, a[i]) ==> Profile(q, a)[i].eligible;
      NearestTheorem(Profile(q, a), q.kneeded, res, top, Times(top, q.approxf), BruteForce(q, a));
      ResultsInRange(q, a, res, top);
      ApproximationTheorem(res, BruteForce(q, a), top, q.approxf);
    }
  }

  lemma {:induction false} ResultsInRange(q: Request, a: seq<Row>, res: seq<Neighbor>, top: real)
    requires Legal(q, a) && Answers(Profile(q, a), q.kneeded, res, top, Times(top, q.approxf))
    ensures forall i :: 0 <= i < |res| ==> 0.0 <= res[i].dist <= top
  {
    forall i | 0 <= i < |res| ensures 0.0 <= res[i].dist <= top {
      assert Profile(q, a)[res[i].idx] == Mark(true, res[i].dist);
      DistNonNegative(q, a[res[i].idx]);
    }
  }

  /** Every result is an admitted row with its distance. */
  ghost predicate Measured(norm: Norm, a: seq<Row>, x: Point, selfmatch: bool, res: seq<Neighbor>) {
    forall m :: 0 <= m < |res| ==>
      && res[m].idx in Admitted(a, x, selfmatch) && |a[res[m].idx].xy| >= |x|
      && IsDistance(norm, a[res[m].idx].xy, x, res[m].dist)
  }

  /** The m-th distance lies between the m-th smallest one of the admitted rows and a multiple of that. */
  ghost predicate RankedWithin(norm: Norm, a: seq<Row>, x: Point, selfmatch: bool, dists: seq<real>, factor: real) {
    && (forall i :: 0 <= i < |a| ==> |a[i].xy| >= |x|)
    && Sorted(dists) && forall m :: 0 <= m < |dists| ==> RankWithin(norm, a, x, selfmatch, dists[m], m, factor)
  }

  ghost predicate RankWithin(norm: Norm, a: seq<Row>, x: Point, selfmatch: bool, d: real, m: nat, factor: real)
    requires forall i :: 0 <= i < |a| ==> |a[i].xy| >= |x|
  {
    exists v :: HasRank(norm, a, x, selfmatch, v, m) && v <= d <= Times(v, factor)
  }

  lemma {:induction false} BoundedRanks(q: Request, a: seq<Row>, b: seq<real>, dists: seq<real>, k: nat, factor: real)
    requires (forall i :: 0 <= i < |a| ==> |a[i].xy| >= |q.x|) && q.rneeded == 0.0 && Sorted(dists)
    requires b == BruteForce(q, a) && Bounded(b, dists, k, factor)
    ensures RankedWithin(q.norm, a, q.x, q.selfmatch, dists, factor)
  {
    ScanRanks(q, a);
    forall m | 0 <= m < |dists| ensures RankWithin(q.norm, a, q.x, q.selfmatch, dists[m], m, factor) {
      assert HasRank(q.norm, a, q.x, q.selfmatch, b[m], m);
    }
  }

  lemma {:induction false} GenuineMeans(q: Request, a: seq<Row>, res: seq<Neighbor>)
    requires Legal(q, a) && Genuine(Profile(q, a), res)
    ensures Measured(q.norm, a, q.x, q.selfmatch, res)
  {
    forall m | 0 <= m < |res|
      ensures res[m].idx in Admitted(a, q.x, q.selfmatch) && IsDistance(q.norm, a[res[m].idx].xy, q.x, res[m].dist)
    {
      var p := a[res[m].idx].xy;
      assert Profile(q, a)[res[m].idx] == Mark(true, res[m].dist);
      DistIsDistance(q.norm, p, q.x);
      DistZero(q.norm, p, q.x);
    }
  }

  lemma {:induction false} NearestBounded(q: Request, a: seq<Row>, res: seq<Neighbor>, k: nat, factor: real)
    requires NearestResults(q, a, res) && NearEnough(factor, res, BruteForce(q, a))
    requires k > 0 && q.kneeded == if k < |a| then k else |a|
    ensures Bounded(BruteForce(q, a), DistsOf(res), k, factor) && Sorted(DistsOf(res))
  {
    var b := BruteForce(q, a);
    CountPerm(b, Kept(Profile(q, a)), 0.0, true);
    KeptSize(Profile(q, a));
    forall i | 0 <= i < |res| ensures b[i] <= res[i].dist {
      assert Within(res[i].dist, q.approxf, b[i]);
    }
  }

  /** What k-NN results mean, in terms of coordinates and ranks: as many as asked for and admitted, measured, and each
      within a factor of its rank. */
  ghost predicate ListsNearest(norm: Norm, a: seq<Row>, x: Point, k: nat, selfmatch: bool, factor: real,
                               res: seq<Neighbor>) {
    && ObeysSelfmatch(a, x, selfmatch, DistsOf(res), k)
    && Measured(norm, a, x, selfmatch, res)
    && RankedWithin(norm, a, x, selfmatch, DistsOf(res), factor)
  }

  lemma {:induction false} SlackIs(norm: Norm, eps: real)
    requires eps >= 0.0
    ensures Slack(norm, eps) == if norm.Two? then (1.0 + eps) * (1.0 + eps) else 1.0 + eps
  {
  }

  lemma {:induction false} NearestMeans(q: Request, a: seq<Row>, res: seq<Neighbor>, k: nat, eps: real)
    requires eps >= 0.0 && q.approxf == ApproxFactor(q.norm, eps) && q.rneeded == 0.0
    requires k > 0 && (q.kneeded == if k < |a| then k else |a|) && NearestResults(q, a, res)
    ensures NearEnough(Slack(q.norm, eps), res, BruteForce(q, a))
    ensures ListsNearest(q.norm, a, q.x, k, q.selfmatch, Slack(q.norm, eps), res)
  {
    NearestAreNearEnough(q, a, res, eps);
    ResultsObey(q, a, res, k, Slack(q.norm, eps));
    GenuineMeans(q, a, res);
  }

  lemma {:induction false} ResultsObey(q: Request, a: seq<Row>, res: seq<Neighbor>, k: nat, factor: real)
    requires NearestResults(q, a, res) && NearEnough(factor, res, BruteForce(q, a)) && q.rneeded == 0.0
    requires k > 0 && q.kneeded == if k < |a| then k else |a|
    ensures ObeysSelfmatch(a, q.x, q.selfmatch, DistsOf(res), k)
    ensures RankedWithin(q.norm, a, q.x, q.selfmatch, DistsOf(res), factor)
  {
    NearestBounded(q, a, res, k, factor);
    ScanObeys(q, a, BruteForce(q, a), DistsOf(res), k, factor);
    BoundedRanks(q, a, BruteForce(q, a), DistsOf(res), k, factor);
  }

  /** The results are exactly the admitted rows within the radius. */
  ghost predicate ListsRadius(norm: Norm, a: seq<Row>, x: Point, r: real, selfmatch: bool, res: seq<Neighbor>) {
    forall i :: 0 <= i < |a| ==>
      |a[i].xy| >= |x|
      && (i in Indices(res) <==> WithinRadius(norm, a[i].xy, x, r) && (selfmatch || !Same(a[i].xy, x)))
  }

  /** Eligible for an R-NN query are the admitted rows within the radius. */
  lemma {:induction false} EligibleMeans(norm: Norm, x: Point, r: real, selfmatch: bool, row: Row)
    requires |row.xy| >= |x| && r > 0.0
    ensures Eligible(RnnRequest(norm, x, r, selfmatch), row)
      <==> WithinRadius(norm, row.xy, x, r) && (selfmatch || !Same(row.xy, x))
  {
    DistZero(norm, row.xy, x);
    RadiusIsDistance(norm, row.xy, x, r);
    PositiveProduct(r, r, Sqr(r));
  }

  lemma {:induction false} RadiusMeans(norm: Norm, x: Point, r: real, selfmatch: bool, a: seq<Row>, res: seq<Neighbor>)
    requires r > 0.0 && NearestResults(RnnRequest(norm, x, r, selfmatch), a, res)
    requires AllFound(RnnRequest(norm, x, r, selfmatch), a, res)
    ensures ListsRadius(norm, a, x, r, selfmatch, res) && Measured(norm, a, x, selfmatch, res)
  {
    var q := RnnRequest(norm, x, r, selfmatch);
    GenuineMeans(q, a, res);
    forall i | 0 <= i < |a|
      ensures i in Indices(res) <==> WithinRadius(norm, a[i].xy, x, r) && (selfmatch || !Same(a[i].xy, x))
    {
      EligibleMeans(norm, x, r, selfmatch, a[i]);
      if i in Indices(res) {
        var m :| 0 <= m < |res| && res[m].idx == i;
        assert Profile(q, a)[i] == Mark(true, res[m].dist);
      }
    }
  }

  /** The input rows as a scan sees them, without the tree. */
  function InputRows(xy: seq<seq<real>>, tags: seq<int>, n: nat): (r: seq<Row>)
    requires |xy| >= n && |tags| >= n
    ensures |r| == n && forall i :: 0 <= i < n ==> r[i] == Row(xy[i], tags[i])
  {
    seq(n, i requires 0 <= i < n => Row(xy[i], tags[i]))
  }

  lemma {:induction false} StoredMark(q: Request, row: seq<real>, tag: int, nx: nat, ny: nat)
    requires |row| >= nx + ny && |q.x| == nx
    ensures MarkOf(q, Stored(row, tag, nx, ny)) == MarkOf(q, Row(row, tag))
  {
    assert PointGaps(Stored(row, tag, nx, ny).xy, q.x) == PointGaps(row, q.x);
  }

  /** A scan of the rearranged, widened rows of the tree finds what a scan of the input finds. */
  lemma {:induction false} TreeScanIsInputScan(q: Request, xy: seq<seq<real>>, tags: seq<int>, n: nat, nx: nat, ny: nat,
                                               a: seq<Row>)
    requires |xy| >= n && |tags| >= n && (forall i :: 0 <= i < n ==> |xy[i]| >= nx + ny) && |q.x| == nx
    requires multiset(a) == multiset(StoredRows(xy, tags, n, nx, ny)) && Wide(a, nx)
    ensures BruteForce(q, a) == BruteForce(q, InputRows(xy, tags, n))
  {
    var c, d := StoredRows(xy, tags, n, nx, ny), InputRows(xy, tags, n);
    BruteForcePerm(q, a, c);
    forall i | 0 <= i < n ensures Profile(q, c)[i] == Profile(q, d)[i] {
      StoredMark(q, xy[i], tags[i], nx, ny);
    }
    assert Profile(q, c) == Profile(q, d);
  }

  /** With factor 1 the results are the head of the brute-force list. */
  lemma {:induction false} ExactDistances(q: Request, a: seq<Row>, res: seq<Neighbor>, k: nat, b: seq<real>)
    requires Legal(q, a) && q.approxf == 1.0 && k > 0 && q.kneeded == (if k < |a| then k else |a|)
      && b == BruteForce(q, a)
    ensures NearestResults(q, a, res) ==> DistsOf(res) == if |b| <= k then b else b[..k]
  {
    if NearestResults(q, a, res) {
      CountPerm(b, Kept(Profile(q, a)), 0.0, true);
      KeptSize(Profile(q, a));
      forall i | 0 <= i < |res| ensures res[i].dist == b[i] {
        assert Within(res[i].dist, q.approxf, b[i]);
      }
    }
  }

  lemma {:induction false} KeptSize(p: seq<Mark>)
    ensures |Kept(p)| <= |p|
  {
    if p != [] { KeptSize(p[..|p| - 1]); }
  }

  /** The scan does not look at the number of neighbours wanted, nor at the approximation factor. */
  lemma {:induction false} LimitIrrelevant(q: Request, a: seq<Row>, q': Request)
    requires (forall i :: 0 <= i < |a| ==> |a[i].xy| >= |q.x|)
    requires q' == q.(kneeded := q'.kneeded, approxf := q'.approxf)
    ensures BruteForce(q, a) == BruteForce(q', a)
  {
    assert Profile(q, a) == Profile(q', a);
  }

  function DistsOf(res: seq<Neighbor>): (d: seq<real>)
    ensures |d| == |res| && forall i :: 0 <= i < |res| ==> d[i] == res[i].dist
  {
    seq(|res|, i requires 0 <= i < |res| => res[i].dist)
  }

  /** The eligible distances of the input rows in ascending order, by scanning. */
  function ScanInput(xy: seq<seq<real>>, tags: seq<int>, n: nat, norm: Norm, x: Point, selfmatch: bool): seq<real>
    requires |xy| >= n && |tags| >= n && forall i :: 0 <= i < n ==> |xy[i]| >= |x|
  {
    BruteForce(Request(norm, x, 0, 0.0, selfmatch, 1.0), InputRows(xy, tags, n))
  }

  lemma {:induction false} TreeScan(q: Request, xy: seq<seq<real>>, tags: seq<int>, n: nat, nx: nat, ny: nat,
                                    a: seq<Row>)
    requires |xy| >= n && |tags| >= n && (forall i :: 0 <= i < n ==> |xy[i]| >= nx + ny) && |q.x| == nx
    requires multiset(a) == multiset(StoredRows(xy, tags, n, nx, ny)) && Wide(a, nx)
    requires q.rneeded == 0.0
    ensures BruteForce(q, a) == ScanInput(xy, tags, n, q.norm, q.x, q.selfmatch)
  {
    TreeScanIsInputScan(q, xy, tags, n, nx, ny, a);
    LimitIrrelevant(q, InputRows(xy, tags, n), Request(q.norm, q.x, 0, 0.0, q.selfmatch, 1.0));
  }

  lemma {:induction false} ResultsAreScan(xy: seq<seq<real>>, tags: seq<int>, n: nat, nx: nat, ny: nat, norm: Norm,
                                          x: Point, k: nat, selfmatch: bool, a: seq<Row>, res: seq<Neighbor>)
    requires |xy| >= n && |tags| >= n && (forall i :: 0 <= i < n ==> |xy[i]| >= nx + ny) && |x| == nx && k > 0
    requires |a| == n && multiset(a) == multiset(StoredRows(xy, tags, n, nx, ny)) && Wide(a, nx)
    ensures NearestResults(KnnRequest(norm, x, if k < n then k else n, selfmatch, 0.0), a, res) ==>
              var b := ScanInput(xy, tags, n, norm, x, selfmatch);
              DistsOf(res) == if |b| <= k then b else b[..k]
  {
    var q := KnnRequest(norm, x, if k < n then k else n, selfmatch, 0.0);
    ApproxFactorRange(norm, 0.0);
    TreeScan(q, xy, tags, n, nx, ny, a);
    ExactDistances(q, a, res, k, ScanInput(xy, tags, n, norm, x, selfmatch));
  }
}
