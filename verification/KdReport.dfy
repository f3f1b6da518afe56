/** What the queries of a tree built from an input report about that input. */
module KdReport {
  import opened Reals
  import opened KdGeometry
  import opened KdHeap
  import opened KdShape
  import opened KdBuild
  import opened KdSearch
  import opened KdBruteForce
  import opened KdMeaning
  import opened KdBoxScan
  import opened KdQuery

  // ---------------------------------------------------------------- rows by scanning

  /** What a caller gets of a row: its original coordinates and its tag. */
  datatype Hit = Hit(xy: seq<real>, tag: int)

  /** The rows that pass a test, as the caller gets them. */
  ghost function HitsOf(a: seq<Row>, keep: Row -> bool, value: Row -> Hit): multiset<Hit> {
    if a == [] then multiset{}
    else HitsOf(a[..|a| - 1], keep, value) + OneHit(a[|a| - 1], keep, value)
  }

  ghost function OneHit(r: Row, keep: Row -> bool, value: Row -> Hit): multiset<Hit> {
    if keep(r) then multiset{value(r)} else multiset{}
  }

  lemma {:induction false} AddSwap(x: multiset<Hit>, y: multiset<Hit>, z: multiset<Hit>)
    ensures x + y + z == x + z + y
  {
  }

  lemma {:induction false} HitsSnoc(a: seq<Row>, keep: Row -> bool, value: Row -> Hit, front: seq<Row>, last: Row)
    requires a == front + [last]
    ensures HitsOf(a, keep, value) == HitsOf(front, keep, value) + OneHit(last, keep, value)
  {
    assert a[..|a| - 1] == front;
  }

  lemma {:induction false} WithoutSnoc(a: seq<Row>, j: int)
    requires 0 <= j < |a| - 1
    ensures Without(a, j) == Without(a[..|a| - 1], j) + [a[|a| - 1]]
  {
  }

  lemma {:induction false} HitsWithout(a: seq<Row>, keep: Row -> bool, value: Row -> Hit, j: int)
    requires 0 <= j < |a|
    ensures HitsOf(a, keep, value) == HitsOf(Without(a, j), keep, value) + OneHit(a[j], keep, value)
  {
    var k := |a| - 1;
    if j == k {
      assert Without(a, j) == a[..k];
    } else {
      var less := Without(a[..k], j);
      HitsWithout(a[..k], keep, value, j);
      WithoutSnoc(a, j);
      HitsSnoc(Without(a, j), keep, value, less, a[k]);
      AddSwap(HitsOf(less, keep, value), OneHit(a[j], keep, value), OneHit(a[k], keep, value));
    }
  }

  /** They do not depend on the order of the rows. */
  lemma {:induction false} HitsPerm(a: seq<Row>, c: seq<Row>, keep: Row -> bool, value: Row -> Hit)
    requires multiset(a) == multiset(c)
    ensures HitsOf(a, keep, value) == HitsOf(c, keep, value)
  {
    if a == [] {
      assert |multiset(c)| == |c|;
    } else {
      var j := PeelPerm(a, c);
      HitsWithout(a, keep, value, |a| - 1);
      HitsWithout(c, keep, value, j);
      HitsPerm(Without(a, |a| - 1), Without(c, j), keep, value);
    }
  }

  /** Rows of two kinds of which the same pass, with the same value. */
  ghost predicate Alike(r: Row, keep: Row -> bool, value: Row -> Hit, r': Row, keep': Row -> bool, value': Row -> Hit) {
    keep(r) == keep'(r') && value(r) == value'(r')
  }

  lemma {:induction false} HitsAlike(a: seq<Row>, keep: Row -> bool, value: Row -> Hit,
                                     c: seq<Row>, keep': Row -> bool, value': Row -> Hit)
    requires |a| == |c| && forall i :: 0 <= i < |a| ==> Alike(a[i], keep, value, c[i], keep', value')
    ensures HitsOf(a, keep, value) == HitsOf(c, keep', value')
  {
    if a != [] {
      var k := |a| - 1;
      assert Alike(a[k], keep, value, c[k], keep', value');
      forall i | 0 <= i < k ensures Alike(a[..k][i], keep, value, c[..k][i], keep', value') { }
      HitsAlike(a[..k], keep, value, c[..k], keep', value');
    }
  }

  /** The rows with a given value that pass. */
  ghost function Passing(a: seq<Row>, keep: Row -> bool, value: Row -> Hit, v: Hit): (s: set<int>)
    ensures forall i :: i in s <==> 0 <= i < |a| && keep(a[i]) && value(a[i]) == v
  {
    set i | 0 <= i < |a| && keep(a[i]) && value(a[i]) == v
  }

  lemma {:induction false} OneHitCount(r: Row, keep: Row -> bool, value: Row -> Hit, v: Hit)
    ensures OneHit(r, keep, value)[v] == if keep(r) && value(r) == v then 1 else 0
  {
  }

  lemma {:induction false} OneMore(s: set<int>, t: set<int>, k: int, more: bool)
    requires k !in s && t == if more then s + {k} else s
    ensures |t| == |s| + if more then 1 else 0
  {
  }

  lemma {:induction false} PassingSnoc(a: seq<Row>, keep: Row -> bool, value: Row -> Hit, v: Hit, front: seq<Row>)
    requires a != [] && front == a[..|a| - 1]
    ensures |Passing(a, keep, value, v)| == |Passing(front, keep, value, v)| + OneHit(a[|a| - 1], keep, value)[v]
  {
    var k := |a| - 1;
    var more := keep(a[k]) && value(a[k]) == v;
    OneHitCount(a[k], keep, value, v);
    OneMore(Passing(front, keep, value, v), Passing(a, keep, value, v), k, more);
  }

  lemma {:induction false} HitsCount(a: seq<Row>, keep: Row -> bool, value: Row -> Hit, v: Hit)
    ensures HitsOf(a, keep, value)[v] == |Passing(a, keep, value, v)|
  {
    if a == [] {
      assert Passing(a, keep, value, v) == {};
    } else {
      HitsCount(a[..|a| - 1], keep, value, v);
      PassingSnoc(a, keep, value, v, a[..|a| - 1]);
    }
  }

  /** The tree keeps the original row after its working copy of the first coordinates; the input has just the row. */
  function StoredHit(nx: nat): Row -> Hit { (r: Row) => Hit(if |r.xy| >= nx then r.xy[nx..] else [], r.tag) }
  function InputHit(nx: nat, ny: nat): Row -> Hit {
    (r: Row) => Hit(if |r.xy| >= nx + ny then r.xy[..nx + ny] else [], r.tag)
  }

  /** A test that does not look beyond the first coordinates of a row. */
  ghost predicate LooksAt(keep: Row -> bool, nx: nat, ny: nat) {
    forall row: seq<real>, tag :: |row| >= nx + ny ==> keep(Stored(row, tag, nx, ny)) == keep(Row(row, tag))
  }

  /** Scanning the rearranged, widened rows of the tree finds what scanning the input finds. */
  lemma {:induction false} TreeHitsAreInputHits(xy: seq<seq<real>>, tags: seq<int>, n: nat, nx: nat, ny: nat,
                                                a: seq<Row>, keep: Row -> bool)
    requires |xy| >= n && |tags| >= n && (forall i :: 0 <= i < n ==> |xy[i]| >= nx + ny) && LooksAt(keep, nx, ny)
    requires multiset(a) == multiset(StoredRows(xy, tags, n, nx, ny))
    ensures HitsOf(a, keep, StoredHit(nx)) == HitsOf(InputRows(xy, tags, n), keep, InputHit(nx, ny))
  {
    var c, d := StoredRows(xy, tags, n, nx, ny), InputRows(xy, tags, n);
    HitsPerm(a, c, keep, StoredHit(nx));
    forall i | 0 <= i < n ensures Alike(c[i], keep, StoredHit(nx), d[i], keep, InputHit(nx, ny)) {
      assert Stored(xy[i], tags[i], nx, ny).xy[nx..] == xy[i][..nx + ny];
    }
    HitsAlike(c, keep, StoredHit(nx), d, keep, InputHit(nx, ny));
  }

  // ---------------------------------------------------------------- rows of results

  /** The results are the rows that pass the test, each once, in any order. */
  ghost predicate Lists(a: seq<Row>, keep: Row -> bool, res: seq<Neighbor>) {
    && (forall m :: 0 <= m < |res| ==> 0 <= res[m].idx < |a| && keep(a[res[m].idx]))
    && (forall m, m' :: 0 <= m < m' < |res| ==> res[m].idx != res[m'].idx)
    && (forall i :: 0 <= i < |a| && keep(a[i]) ==> i in Indices(res))
  }

  predicate Indexed(a: seq<Row>, res: seq<Neighbor>) {
    forall m :: 0 <= m < |res| ==> 0 <= res[m].idx < |a|
  }

  lemma {:induction false} IndexedSome(a: seq<Row>, res: seq<Neighbor>)
    requires Indexed(a, res)
    ensures res == [] || a != []
  {
    if res != [] { assert 0 <= res[0].idx < |a|; }
  }

  function HitsRead(a: seq<Row>, value: Row -> Hit, res: seq<Neighbor>): (s: seq<Hit>)
    requires Indexed(a, res)
    ensures |s| == |res| && forall m :: 0 <= m < |res| ==> s[m] == value(a[res[m].idx])
  {
    seq(|res|, m requires 0 <= m < |res| => value(a[res[m].idx]))
  }

  /** Without the last row, and without its result if it has one, the results still list the rows. */
  lemma {:induction false} ListsLess(a: seq<Row>, keep: Row -> bool, res: seq<Neighbor>, less: seq<Neighbor>)
    requires a != [] && Lists(a, keep, res)
    requires forall e :: e in less <==> e in res && e.idx != |a| - 1
    requires forall m, m' :: 0 <= m < m' < |less| ==> less[m].idx != less[m'].idx
    ensures Lists(a[..|a| - 1], keep, less)
  {
    var k := |a| - 1;
    forall m | 0 <= m < |less| ensures 0 <= less[m].idx < k && keep(a[..k][less[m].idx]) {
      assert less[m] in res;
    }
    forall i | 0 <= i < k && keep(a[..k][i]) ensures i in Indices(less) {
      var m :| 0 <= m < |res| && res[m].idx == i;
      assert res[m] in less;
      var m' :| 0 <= m' < |less| && less[m'] == res[m];
    }
  }

  lemma {:induction false} WithoutMembers(res: seq<Neighbor>, m: int)
    requires 0 <= m < |res| && forall p, p' :: 0 <= p < p' < |res| ==> res[p].idx != res[p'].idx
    ensures var less := Without(res, m);
      && (forall e :: e in less <==> e in res && e.idx != res[m].idx)
      && forall p, p' :: 0 <= p < p' < |less| ==> less[p].idx != less[p'].idx
  {
    var less := Without(res, m);
    forall e | e in res && e.idx != res[m].idx ensures e in less {
      var p :| 0 <= p < |res| && res[p] == e;
      assert p < m ==> less[p] == e;
      assert p > m ==> less[p - 1] == e;
    }
  }

  lemma {:induction false} ReadWithout(a: seq<Row>, value: Row -> Hit, res: seq<Neighbor>, m: int)
    requires 0 <= m < |res| && res[m].idx == |a| - 1 && Indexed(a, res) && Indexed(a[..|a| - 1], Without(res, m))
    ensures multiset(HitsRead(a, value, res))
      == multiset(HitsRead(a[..|a| - 1], value, Without(res, m))) + multiset{value(a[|a| - 1])}
  {
    MultisetWithout(HitsRead(a, value, res), m);
    assert HitsRead(a[..|a| - 1], value, Without(res, m)) == Without(HitsRead(a, value, res), m);
  }

  lemma {:induction false} ReadSame(a: seq<Row>, value: Row -> Hit, res: seq<Neighbor>)
    requires a != [] && Indexed(a, res) && Indexed(a[..|a| - 1], res)
    ensures HitsRead(a[..|a| - 1], value, res) == HitsRead(a, value, res)
  {
  }

  /** If the last row passes the test, it has a result. */
  lemma {:induction false} ListsLast(a: seq<Row>, keep: Row -> bool, res: seq<Neighbor>) returns (m: int)
    requires a != [] && Lists(a, keep, res) && keep(a[|a| - 1])
    ensures 0 <= m < |res| && res[m].idx == |a| - 1 && Lists(a[..|a| - 1], keep, Without(res, m))
  {
    m :| 0 <= m < |res| && res[m].idx == |a| - 1;
    WithoutMembers(res, m);
    ListsLess(a, keep, res, Without(res, m));
  }

  lemma {:induction false} ListsNotLast(a: seq<Row>, keep: Row -> bool, res: seq<Neighbor>)
    requires a != [] && Lists(a, keep, res) && !keep(a[|a| - 1])
    ensures Lists(a[..|a| - 1], keep, res)
  {
    ListsLess(a, keep, res, res);
  }

  /** Reading such results gives what a scan finds. */
  lemma {:induction false} ListedHits(a: seq<Row>, keep: Row -> bool, value: Row -> Hit, res: seq<Neighbor>)
    requires Lists(a, keep, res)
    ensures Indexed(a, res) && multiset(HitsRead(a, value, res)) == HitsOf(a, keep, value)
  {
    if a == [] {
      IndexedSome(a, res);
      assert HitsRead(a, value, res) == [];
    } else if keep(a[|a| - 1]) {
      var m := ListsLast(a, keep, res);
      ListedHits(a[..|a| - 1], keep, value, Without(res, m));
      ReadWithout(a, value, res, m);
    } else {
      ListsNotLast(a, keep, res);
      ListedHits(a[..|a| - 1], keep, value, res);
      ReadSame(a, value, res);
    }
  }

  /** How often a hit is reported is how many input rows pass the test with these coordinates and this tag. */
  ghost predicate Reports(hits: seq<Hit>, a: seq<Row>, keep: Row -> bool, nx: nat, ny: nat) {
    forall v :: multiset(hits)[v] == |Passing(a, keep, InputHit(nx, ny), v)|
  }

  lemma {:induction false} ListedInputHits(xy: seq<seq<real>>, tags: seq<int>, n: nat, nx: nat, ny: nat, a: seq<Row>,
                                           keep: Row -> bool, res: seq<Neighbor>)
    requires |xy| >= n && |tags| >= n && (forall i :: 0 <= i < n ==> |xy[i]| >= nx + ny) && LooksAt(keep, nx, ny)
    requires multiset(a) == multiset(StoredRows(xy, tags, n, nx, ny)) && Lists(a, keep, res)
    ensures Indexed(a, res) && Reports(HitsRead(a, StoredHit(nx), res), InputRows(xy, tags, n), keep, nx, ny)
  {
    var d := InputRows(xy, tags, n);
    ListedHits(a, keep, StoredHit(nx), res);
    TreeHitsAreInputHits(xy, tags, n, nx, ny, a, keep);
    forall v ensures multiset(HitsRead(a, StoredHit(nx), res))[v] == |Passing(d, keep, InputHit(nx, ny), v)| {
      HitsCount(d, keep, InputHit(nx, ny), v);
    }
  }

  /** kdtreetsqueryresultsxy and kdtreetsqueryresultstags: the original row and the tag of each result. */
  method ResultHits(kdt: KdTree, buf: RequestBuffer, ghost a: seq<Row>, ghost res: seq<Neighbor>)
    returns (hits: seq<Hit>)
    requires a == kdt.rows[..] && buf.kcur <= buf.found.Length && res == buf.found[..buf.kcur] && Indexed(a, res)
    requires Wide(a, kdt.nx)
    ensures hits == HitsRead(a, StoredHit(kdt.nx), res)
  {
    hits := [];
    for i := 0 to buf.kcur
      invariant |hits| == i && forall m :: 0 <= m < i ==> hits[m] == StoredHit(kdt.nx)(a[res[m].idx])
    {
      assert res[i] == buf.found[i] && 0 <= res[i].idx < |a|;
      var row := kdt.rows[buf.found[i].idx];
      hits := hits + [Hit(row.xy[kdt.nx..], row.tag)];
    }
  }

  // ---------------------------------------------------------------- box queries

  function BoxTest(lo: Point, hi: Point): Row -> bool { (r: Row) => InBox(r.xy, lo, hi) }

  lemma {:induction false} BoxTestLooksAt(lo: Point, hi: Point, nx: nat, ny: nat)
    requires |lo| == nx
    ensures LooksAt(BoxTest(lo, hi), nx, ny)
  {
    forall row: seq<real>, tag | |row| >= nx + ny
      ensures BoxTest(lo, hi)(Stored(row, tag, nx, ny)) == BoxTest(lo, hi)(Row(row, tag))
    {
      assert forall j :: 0 <= j < nx ==> Stored(row, tag, nx, ny).xy[j] == row[j];
    }
  }

  lemma {:induction false} InsideIndices(a: seq<Row>, lo: Point, hi: Point, i: int)
    requires 0 <= i < |a| && InBox(a[i].xy, lo, hi)
    ensures i in Indices(Inside(a, 0, |a|, lo, hi))
  {
    InsideIsExact(a, 0, |a|, lo, hi);
    InIndices(Inside(a, 0, |a|, lo, hi), Neighbor(0.0, i));
  }

  lemma {:induction false} InsideLists(a: seq<Row>, lo: Point, hi: Point)
    ensures Lists(a, BoxTest(lo, hi), Inside(a, 0, |a|, lo, hi))
  {
    InsideIsExact(a, 0, |a|, lo, hi);
    forall i | 0 <= i < |a| && BoxTest(lo, hi)(a[i]) ensures i in Indices(Inside(a, 0, |a|, lo, hi)) {
      InsideIndices(a, lo, hi, i);
    }
  }

  /** The input rows inside the box that have the given coordinates and tag. */
  ghost function BoxRows(xy: seq<seq<real>>, tags: seq<int>, n: nat, nx: nat, ny: nat, lo: Point, hi: Point, v: Hit)
    : set<int>
    requires |xy| >= n && |tags| >= n && |lo| >= nx && |hi| >= nx && forall i :: 0 <= i < n ==> |xy[i]| >= nx + ny
  {
    set i | 0 <= i < n && (forall j :: 0 <= j < nx ==> lo[j] <= xy[i][j] <= hi[j])
            && xy[i][..nx + ny] == v.xy && tags[i] == v.tag
  }

  lemma {:induction false} BoxReport(xy: seq<seq<real>>, tags: seq<int>, n: nat, nx: nat, ny: nat, a: seq<Row>,
                                     lo: Point, hi: Point, res: seq<Neighbor>)
    requires |xy| >= n && |tags| >= n && (forall i :: 0 <= i < n ==> |xy[i]| >= nx + ny) && |lo| >= nx && |hi| >= nx
    requires multiset(a) == multiset(StoredRows(xy, tags, n, nx, ny)) && res == Inside(a, 0, |a|, lo[..nx], hi[..nx])
    ensures Indexed(a, res)
    ensures forall v :: multiset(HitsRead(a, StoredHit(nx), res))[v] == |BoxRows(xy, tags, n, nx, ny, lo, hi, v)|
  {
    var keep, d := BoxTest(lo[..nx], hi[..nx]), InputRows(xy, tags, n);
    InsideLists(a, lo[..nx], hi[..nx]);
    BoxTestLooksAt(lo[..nx], hi[..nx], nx, ny);
    ListedInputHits(xy, tags, n, nx, ny, a, keep, res);
    forall v ensures Passing(d, keep, InputHit(nx, ny), v) == BoxRows(xy, tags, n, nx, ny, lo, hi, v) {
      BoxRowsPass(xy, tags, n, nx, ny, lo, hi, v);
    }
  }

  lemma {:induction false} BoxRowsPass(xy: seq<seq<real>>, tags: seq<int>, n: nat, nx: nat, ny: nat, lo: Point,
                                       hi: Point, v: Hit)
    requires |xy| >= n && |tags| >= n && (forall i :: 0 <= i < n ==> |xy[i]| >= nx + ny) && |lo| >= nx && |hi| >= nx
    ensures Passing(InputRows(xy, tags, n), BoxTest(lo[..nx], hi[..nx]), InputHit(nx, ny), v)
      == BoxRows(xy, tags, n, nx, ny, lo, hi, v)
  {
    forall i | 0 <= i < n
      ensures InBox(xy[i], lo[..nx], hi[..nx]) <==> forall j :: 0 <= j < nx ==> lo[j] <= xy[i][j] <= hi[j]
    {
      assert forall j :: 0 <= j < nx ==> lo[..nx][j] == lo[j] && hi[..nx][j] == hi[j];
    }
  }

  /** Build, ask for a box, read the results: each input row inside the box, with its tag, as often as it is there. */
  method BoxHits(xy: seq<seq<real>>, tags: seq<int>, n: nat, nx: nat, ny: nat, norm: Norm, lo: Point, hi: Point)
    returns (found: seq<Hit>)
    requires n > 0 && nx >= 1 && |xy| >= n && |tags| >= n && forall i :: 0 <= i < n ==> |xy[i]| >= nx + ny
    requires |lo| >= nx && |hi| >= nx
    ensures forall v :: multiset(found)[v] == |BoxRows(xy, tags, n, nx, ny, lo, hi, v)|
  {
    var kdt := new KdTree.Build(xy, tags, n, nx, ny, norm);
    var buf := new RequestBuffer(kdt);
    var m := buf.QueryBox(kdt, lo, hi);
    ghost var a, res := kdt.rows[..], buf.found[..m];
    BoxReport(xy, tags, n, nx, ny, a, lo, hi, res);
    found := ResultHits(kdt, buf, a, res);
  }

  // ---------------------------------------------------------------- radius queries

  function RadiusTest(q: Request): Row -> bool { (r: Row) => |r.xy| >= |q.x| && Eligible(q, r) }

  lemma {:induction false} RadiusTestLooksAt(q: Request, nx: nat, ny: nat)
    requires |q.x| == nx
    ensures LooksAt(RadiusTest(q), nx, ny)
  {
    forall row: seq<real>, tag | |row| >= nx + ny
      ensures RadiusTest(q)(Stored(row, tag, nx, ny)) == RadiusTest(q)(Row(row, tag))
    {
      StoredMark(q, row, tag, nx, ny);
    }
  }

  lemma {:induction false} AllFoundLists(q: Request, a: seq<Row>, res: seq<Neighbor>)
    requires NearestResults(q, a, res) && AllFound(q, a, res)
    ensures Lists(a, RadiusTest(q), res)
  {
    forall m | 0 <= m < |res| ensures 0 <= res[m].idx < |a| && RadiusTest(q)(a[res[m].idx]) {
      assert Profile(q, a)[res[m].idx] == Mark(true, res[m].dist);
    }
  }

  /** The input rows within the radius, and not at the query point unless that is wanted, that have the given
      coordinates and tag. */
  ghost function RadiusRows(xy: seq<seq<real>>, tags: seq<int>, n: nat, nx: nat, ny: nat, norm: Norm, x: Point,
                            r: real, selfmatch: bool, v: Hit): set<int>
    requires |xy| >= n && |tags| >= n && |x| == nx && forall i :: 0 <= i < n ==> |xy[i]| >= nx + ny
  {
    set i | 0 <= i < n && WithinRadius(norm, xy[i], x, r) && (selfmatch || !Same(xy[i], x))
            && xy[i][..nx + ny] == v.xy && tags[i] == v.tag
  }

  lemma {:induction false} RadiusReport(xy: seq<seq<real>>, tags: seq<int>, n: nat, nx: nat, ny: nat, a: seq<Row>,
                                        norm: Norm, x: Point, r: real, selfmatch: bool, res: seq<Neighbor>)
    requires |xy| >= n && |tags| >= n && (forall i :: 0 <= i < n ==> |xy[i]| >= nx + ny) && |x| == nx && r > 0.0
    requires multiset(a) == multiset(StoredRows(xy, tags, n, nx, ny))
    ensures var q := RnnRequest(norm, x, r, selfmatch);
      NearestResults(q, a, res) && AllFound(q, a, res) ==>
        && Indexed(a, res)
        && forall v :: multiset(HitsRead(a, StoredHit(nx), res))[v]
             == |RadiusRows(xy, tags, n, nx, ny, norm, x, r, selfmatch, v)|
  {
    var q, d := RnnRequest(norm, x, r, selfmatch), InputRows(xy, tags, n);
    if NearestResults(q, a, res) && AllFound(q, a, res) {
      AllFoundLists(q, a, res);
      RadiusTestLooksAt(q, nx, ny);
      ListedInputHits(xy, tags, n, nx, ny, a, RadiusTest(q), res);
      forall v ensures Passing(d, RadiusTest(q), InputHit(nx, ny), v)
        == RadiusRows(xy, tags, n, nx, ny, norm, x, r, selfmatch, v)
      {
        RadiusRowsPass(xy, tags, n, nx, ny, norm, x, r, selfmatch, v);
      }
    }
  }

  lemma {:induction false} RadiusRowsPass(xy: seq<seq<real>>, tags: seq<int>, n: nat, nx: nat, ny: nat, norm: Norm,
                                          x: Point, r: real, selfmatch: bool, v: Hit)
    requires |xy| >= n && |tags| >= n && (forall i :: 0 <= i < n ==> |xy[i]| >= nx + ny) && |x| == nx && r > 0.0
    ensures Passing(InputRows(xy, tags, n), RadiusTest(RnnRequest(norm, x, r, selfmatch)), InputHit(nx, ny), v)
      == RadiusRows(xy, tags, n, nx, ny, norm, x, r, selfmatch, v)
  {
    forall i | 0 <= i < n
      ensures Eligible(RnnRequest(norm, x, r, selfmatch), Row(xy[i], tags[i]))
        <==> WithinRadius(norm, xy[i], x, r) && (selfmatch || !Same(xy[i], x))
    {
      EligibleMeans(norm, x, r, selfmatch, Row(xy[i], tags[i]));
    }
  }

  /** Build, ask for a radius, read the results: each such input row, with its tag, as often as it is there. */
  method RadiusHits(xy: seq<seq<real>>, tags: seq<int>, n: nat, nx: nat, ny: nat, norm: Norm,
                    point: Point, r: real, selfmatch: bool) returns (found: seq<Hit>)
    requires nx >= 1 && |xy| >= n && |tags| >= n && forall i :: 0 <= i < n ==> |xy[i]| >= nx + ny
    requires r > 0.0 && |point| >= nx
    ensures forall v :: multiset(found)[v] == |RadiusRows(xy, tags, n, nx, ny, norm, point[..nx], r, selfmatch, v)|
  {
    var kdt := new KdTree.Build(xy, tags, n, nx, ny, norm);
    var buf := new RequestBuffer(kdt);
    var m := buf.QueryRnn(kdt, point, r, selfmatch);
    ghost var a, res := kdt.rows[..], buf.found[..m];
    RadiusReport(xy, tags, n, nx, ny, a, norm, point[..nx], r, selfmatch, res);
    found := ResultHits(kdt, buf, a, res);
  }

  /** Stretching all rows, the point and the radius finds the same rows. */
  lemma {:induction false} RadiusScales(xy: seq<seq<real>>, nx: nat, norm: Norm, x: Point, r: real, selfmatch: bool,
                                        c: real, i: int)
    requires 0 <= i < |xy| && |x| == nx <= |xy[i]| && c > 0.0
    ensures WithinRadius(norm, Stretched(xy[i], c), Stretched(x, c), c * r)
        && (selfmatch || !Same(Stretched(xy[i], c), Stretched(x, c)))
      <==> WithinRadius(norm, xy[i], x, r) && (selfmatch || !Same(xy[i], x))
  {
    RadiusStretched(norm, xy[i], x, r, c);
  }

  /** In one dimension the norms find the same rows. */
  lemma {:induction false} NormsAgreeOnLine(p: Point, x: Point, r: real, norm: Norm, norm': Norm)
    requires |x| == 1 && |p| >= 1 && r > 0.0
    ensures WithinRadius(norm, p, x, r) <==> WithinRadius(norm', p, x, r)
  {
    if p[0] != x[0] {
      RadiusInOneCoordinate(norm, p, x, 0, r);
      RadiusInOneCoordinate(norm', p, x, 0, r);
    } else {
      SameIsWithin(norm, p, x, r);
      SameIsWithin(norm', p, x, r);
    }
  }

  lemma {:induction false} SameIsWithin(norm: Norm, p: Point, x: Point, r: real)
    requires Same(p, x) && r > 0.0
    ensures WithinRadius(norm, p, x, r)
  {
    DistZero(norm, p, x);
    RadiusIsDistance(norm, p, x, r);
    PositiveProduct(r, r, Sqr(r));
  }

  // ---------------------------------------------------------------- nearest neighbours

  /** The meaning of a list of nearest distances, in terms of the input. */
  lemma {:induction false} InputScanMeans(xy: seq<seq<real>>, tags: seq<int>, n: nat, norm: Norm, x: Point,
                                          selfmatch: bool, dists: seq<real>, k: nat, factor: real)
    requires |xy| >= n && |tags| >= n && (forall i :: 0 <= i < n ==> |xy[i]| >= |x|)
    requires Bounded(ScanInput(xy, tags, n, norm, x, selfmatch), dists, k, factor) && Sorted(dists)
    ensures ObeysSelfmatch(InputRows(xy, tags, n), x, selfmatch, dists, k)
    ensures RankedWithin(norm, InputRows(xy, tags, n), x, selfmatch, dists, factor)
  {
    var q, a := Request(norm, x, 0, 0.0, selfmatch, 1.0), InputRows(xy, tags, n);
    ScanObeys(q, a, ScanInput(xy, tags, n, norm, x, selfmatch), dists, k, factor);
    BoundedRanks(q, a, ScanInput(xy, tags, n, norm, x, selfmatch), dists, k, factor);
  }

  lemma {:induction false} NearReport(xy: seq<seq<real>>, tags: seq<int>, n: nat, nx: nat, ny: nat, norm: Norm,
                                      x: Point, k: nat, selfmatch: bool, eps: real, a: seq<Row>, res: seq<Neighbor>)
    requires |xy| >= n && |tags| >= n && (forall i :: 0 <= i < n ==> |xy[i]| >= nx + ny) && |x| == nx
    requires k > 0 && eps >= 0.0
    requires |a| == n && multiset(a) == multiset(StoredRows(xy, tags, n, nx, ny)) && Wide(a, nx)
    ensures var q := KnnRequest(norm, x, if k < n then k else n, selfmatch, eps);
      NearestResults(q, a, res) ==>
        && Bounded(ScanInput(xy, tags, n, norm, x, selfmatch), DistsOf(res), k, Slack(norm, eps))
        && ObeysSelfmatch(InputRows(xy, tags, n), x, selfmatch, DistsOf(res), k)
        && RankedWithin(norm, InputRows(xy, tags, n), x, selfmatch, DistsOf(res), Slack(norm, eps))
  {
    var q := KnnRequest(norm, x, if k < n then k else n, selfmatch, eps);
    if NearestResults(q, a, res) {
      TreeScan(q, xy, tags, n, nx, ny, a);
      NearestAreNearEnough(q, a, res, eps);
      NearestBounded(q, a, res, k, Slack(norm, eps));
      InputScanMeans(xy, tags, n, norm, x, selfmatch, DistsOf(res), k, Slack(norm, eps));
    }
  }

  /** Build, query with a tolerance, read the distances: as many as asked for and admitted, each within 1+eps of its
      rank among the input rows, squared for the squared 2-norm. */
  method NearDistances(xy: seq<seq<real>>, tags: seq<int>, n: nat, nx: nat, ny: nat, norm: Norm,
                       point: Point, k: nat, selfmatch: bool, eps: real) returns (dists: seq<real>)
    requires nx >= 1 && |xy| >= n && |tags| >= n && forall i :: 0 <= i < n ==> |xy[i]| >= nx + ny
    requires k > 0 && |point| >= nx && eps >= 0.0
    ensures Bounded(ScanInput(xy, tags, n, norm, point[..nx], selfmatch), dists, k, Slack(norm, eps))
    ensures ObeysSelfmatch(InputRows(xy, tags, n), point[..nx], selfmatch, dists, k)
    ensures RankedWithin(norm, InputRows(xy, tags, n), point[..nx], selfmatch, dists,
                         if norm.Two? then (1.0 + eps) * (1.0 + eps) else 1.0 + eps)
  {
    var kdt := new KdTree.Build(xy, tags, n, nx, ny, norm);
    var buf := new RequestBuffer(kdt);
    var m := buf.QueryAknn(kdt, point, k, selfmatch, eps);
    dists := DistsOf(buf.found[..m]);
    SlackIs(norm, eps);
    NearReport(xy, tags, n, nx, ny, norm, point[..nx], k, selfmatch, eps, kdt.rows[..], buf.found[..m]);
  }

  lemma {:induction false} ExactScanMeans(xy: seq<seq<real>>, tags: seq<int>, n: nat, norm: Norm, x: Point,
                                          selfmatch: bool, dists: seq<real>, k: nat)
    requires |xy| >= n && |tags| >= n && (forall i :: 0 <= i < n ==> |xy[i]| >= |x|)
    requires var b := ScanInput(xy, tags, n, norm, x, selfmatch); dists == if |b| <= k then b else b[..k]
    ensures ObeysSelfmatch(InputRows(xy, tags, n), x, selfmatch, dists, k)
    ensures forall m :: 0 <= m < |dists| ==> HasRank(norm, InputRows(xy, tags, n), x, selfmatch, dists[m], m)
  {
    var q, a := Request(norm, x, 0, 0.0, selfmatch, 1.0), InputRows(xy, tags, n);
    ScanRanks(q, a);
    ScanObeys(q, a, BruteForce(q, a), dists, k, 1.0);
  }

  /** Build, query, read the distances: the k smallest eligible distances of the input, found without scanning it. */
  method NearestDistances(xy: seq<seq<real>>, tags: seq<int>, n: nat, nx: nat, ny: nat, norm: Norm,
                          point: Point, k: nat, selfmatch: bool) returns (dists: seq<real>)
    requires nx >= 1 && |xy| >= n && |tags| >= n && forall i :: 0 <= i < n ==> |xy[i]| >= nx + ny
    requires k > 0 && |point| >= nx
    ensures var b := ScanInput(xy, tags, n, norm, point[..nx], selfmatch);
            dists == if |b| <= k then b else b[..k]
    ensures ObeysSelfmatch(InputRows(xy, tags, n), point[..nx], selfmatch, dists, k)
    ensures forall m :: 0 <= m < |dists| ==> HasRank(norm, InputRows(xy, tags, n), point[..nx], selfmatch, dists[m], m)
  {
    var kdt := new KdTree.Build(xy, tags, n, nx, ny, norm);
    var buf := new RequestBuffer(kdt);
    var m := buf.QueryAknn(kdt, point, k, selfmatch, 0.0);
    dists := DistsOf(buf.found[..m]);
    ResultsAreScan(xy, tags, n, nx, ny, norm, point[..nx], k, selfmatch, kdt.rows[..], buf.found[..m]);
    ExactScanMeans(xy, tags, n, norm, point[..nx], selfmatch, dists, k);
  }
}
