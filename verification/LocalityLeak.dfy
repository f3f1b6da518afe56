/** Leaked chunks: why the bound then needs closed stores on both sides, and that it needs nothing else. */
module LocalityLeak {
  import opened Bytes
  import opened Records
  import opened LocalityCount
  import opened LocalityAttack
  import opened LocalityRun
  import opened LocalityScore
  import opened LocalitySeeds
  import opened LocalityProgram
  import opened LocalityExact

  // ---------------------------------------------------------------- candidates can always be found

  lemma {:induction false} TopKExists(es: seq<Entry>, k: nat) returns (bag: multiset<Entry>)
    requires k >= 1
    ensures TopK(multiset(es), k, bag)
  {
    bag := multiset{};
    if es != [] {
      var front, e := es[..|es| - 1], es[|es| - 1];
      var b := TopKExists(front, k);
      var least := e;
      if |b| >= k { least := LeastExists(b); }
      OfferKeepsTopK(multiset(front), k, b, e, least);
      assert es == front + [e];
      bag := Offer(b, k, e, least);
    }
  }

  lemma {:induction false} PairsExist(pq: multiset<Entry>, pc: multiset<Entry>) returns (pairs: seq<Pair>)
    ensures Paired(pq, pc, pairs)
    decreases |pq|
  {
    pairs := [];
    if |pq| > 0 && |pc| > 0 {
      var x := LeastExists(pq);
      var y := LeastExists(pc);
      var more := PairsExist(pq - multiset{x}, pc - multiset{y});
      pairs := [Pair(x, y)] + more;
      assert pairs[1..] == more;
    }
  }

  lemma {:induction false} CandidatesExist(eo: seq<Entry>, et: seq<Entry>, k: nat) returns (pairs: seq<Pair>)
    requires k >= 1
    ensures Candidates(eo, et, k, pairs)
  {
    var pq := TopKExists(eo, k);
    var pc := TopKExists(et, k);
    pairs := PairsExist(pq, pc);
  }

  /** The entries that are more frequent than c. */
  function Above(es: seq<Entry>, c: nat): seq<Entry> {
    if es == [] then []
    else Above(es[..|es| - 1], c) + if es[|es| - 1].count > c then [es[|es| - 1]] else []
  }

  lemma {:induction false} AboveCounts(es: seq<Entry>, c: nat, y: Entry)
    ensures multiset(Above(es, c))[y] == if y.count > c then multiset(es)[y] else 0
  {
    if es != [] {
      AboveCounts(es[..|es| - 1], c, y);
      assert es == es[..|es| - 1] + [es[|es| - 1]];
    }
  }

  /** For some k, an entry is a least frequent one among the k most frequent. */
  lemma {:induction false} LeastOfTop(es: seq<Entry>, x: Entry) returns (k: nat, bag: multiset<Entry>)
    requires x in es
    ensures k >= 1 && TopK(multiset(es), k, bag) && Least(bag, x)
  {
    var above := multiset(Above(es, x.count));
    bag := above + multiset{x};
    k := |bag|;
    forall y ensures above[y] == if y.count > x.count then multiset(es)[y] else 0 { AboveCounts(es, x.count, y); }
    assert x in multiset(es) && bag <= multiset(es);
    assert |multiset(es) - bag| == |es| - |bag|;
  }

  lemma {:induction false} LoneTop(e: Entry, k: nat)
    requires k >= 1
    ensures TopK(multiset([e]), k, multiset{e})
  {
    assert multiset([e]) == multiset{e} && multiset{e} - multiset{e} == multiset{};
  }

  lemma {:induction false} LoneMatch(pq: multiset<Entry>, pc: multiset<Entry>, x: Entry, y: Entry)
    requires Least(pq, x) && Least(pc, y) && (pq == multiset{x} || pc == multiset{y})
    ensures Paired(pq, pc, [Pair(x, y)])
  {
    assert [Pair(x, y)][1..] == [] && (|pq - multiset{x}| == 0 || |pc - multiset{y}| == 0);
  }

  /** An entry of one record meets the only entry of the other. */
  lemma {:induction false} LonePair(es: seq<Entry>, k: nat, bag: multiset<Entry>, x: Entry, e: Entry)
    requires k >= 1 && TopK(multiset(es), k, bag) && Least(bag, x)
    ensures Candidates(es, [e], k, [Pair(x, e)]) && Candidates([e], es, k, [Pair(e, x)])
  {
    LoneTop(e, k);
    LoneMatch(bag, multiset{e}, x, e);
    LoneMatch(multiset{e}, bag, e, x);
  }

  // ---------------------------------------------------------------- counting certain inferences

  lemma {:induction false} TakenOne(limit: nat, size: nat, uniq: set<Fingerprint>, p: Pair)
    requires p.t.key !in uniq && size + 1 <= limit
    ensures Taken(limit, size, uniq, [p]) == [p]
  {
    assert [p][..0] == [];
  }

  lemma {:induction false} HitsOne(p: Pair)
    requires p.o.key == p.t.key
    ensures Hits(Origins([p]), Targets([p])) == 1
  {
    assert Origins([p])[1..] == [];
  }

  lemma {:induction false} HitsSome(qo: seq<Entry>, qt: seq<Entry>, i: nat)
    requires i < |qo| == |qt| && qo[i].key == qt[i].key
    ensures Hits(qo, qt) >= 1
  {
    if i > 0 { HitsSome(qo[1..], qt[1..], i - 1); }
  }

  /** Whoever names z on the target side is paired with z. */
  predicate Honest(pairs: seq<Pair>, z: Fingerprint) {
    forall i :: 0 <= i < |pairs| ==> pairs[i].t.key == z ==> pairs[i].o.key == z
  }

  /** If taking honest candidates records z, it is a certain inference. */
  lemma {:induction false} HonestHit(limit: nat, w: Work, pairs: seq<Pair>, z: Fingerprint)
    requires Honest(pairs, z) && z !in w.uniq
    ensures var r := Taken(limit, |w.qo|, w.uniq, pairs);
      z in Extended(limit, w, pairs).uniq ==> Hits(Origins(r), Targets(r)) >= 1
  {
    var r := Taken(limit, |w.qo|, w.uniq, pairs);
    TakenNew(limit, |w.qo|, w.uniq, pairs);
    KeySetOfKeys(Targets(r), z);
    if z in Keys(Targets(r)) {
      var i :| 0 <= i < |r| && Keys(Targets(r))[i] == z;
      assert r[i] in pairs;
      HitsSome(Origins(r), Targets(r), i);
    }
  }

  // ---------------------------------------------------------------- a chunk that is leaked and inferred

  /** The queues are aligned, queued keys are recorded, and f is queued only with itself. */
  predicate Kept(w: Work, f: Fingerprint) {
    && Aligned(w) && f in w.uniq
    && forall i :: 0 <= i < |w.qt| ==> w.qt[i].key in w.uniq && (w.qt[i].key == f ==> w.qo[i].key == f)
  }

  lemma {:induction false} ExtendedKept(limit: nat, w: Work, pairs: seq<Pair>, f: Fingerprint)
    requires Kept(w, f)
    ensures var e := Extended(limit, w, pairs); Kept(e, f) && w.qo <= e.qo && w.qt <= e.qt && w.uniq <= e.uniq
  {
    var r := Taken(limit, |w.qo|, w.uniq, pairs);
    TakenNew(limit, |w.qo|, w.uniq, pairs);
    forall i | 0 <= i < |r| ensures r[i].t.key in KeySet(Targets(r)) && r[i].t.key != f {
      assert Targets(r)[i] in Targets(r);
    }
  }

  /** f is queued, and whatever comes before it is queued with itself. */
  ghost predicate Ahead(w: Work, f: Fingerprint) {
    exists i :: 0 <= i < |w.qt| && UpTo(w, f, i)
  }

  predicate UpTo(w: Work, f: Fingerprint, i: nat) {
    i < |w.qt| == |w.qo| && w.qt[i].key == f && forall j :: 0 <= j < i ==> w.qo[j].key == w.qt[j].key
  }

  lemma {:induction false} AheadKept(w: Work, e: Work, f: Fingerprint)
    requires Ahead(w, f) && w.qt[0].key != f && w.qo <= e.qo && w.qt <= e.qt && Aligned(e)
    ensures Ahead(e.(qo := e.qo[1..], qt := e.qt[1..]), f)
  {
    var i :| 0 <= i < |w.qt| && UpTo(w, f, i);
    assert UpTo(e.(qo := e.qo[1..], qt := e.qt[1..]), f, i - 1);
  }

  lemma {:induction false} AdvancedKept(limit: nat, w: Work, ls: seq<Pair>, rs: seq<Pair>, f: Fingerprint)
    requires Kept(w, f) && w.qt != []
    ensures var w' := Advanced(limit, w, ls, rs);
      Kept(w', f) && w.uniq <= w'.uniq && (Ahead(w, f) && w.qt[0].key != f ==> Ahead(w', f))
  {
    var c := Checked(w);
    var l := Extended(limit, c, ls);
    var e := Extended(limit, l, rs);
    ExtendedKept(limit, c, ls, f);
    ExtendedKept(limit, l, rs, f);
    if Ahead(w, f) && w.qt[0].key != f { AheadKept(w, e, f); }
  }

  /** A run that is bound to infer one chunk more than the n it started with: z, when f is looked at or before. */
  ghost predicate Growing(w: Work, f: Fingerprint, z: Fingerprint, n: nat) {
    Kept(w, f) && if z in w.uniq then Score(w) > n else Score(w) >= n && Ahead(w, f)
  }

  /** Records whose candidates are honest about z: the target record does not name it, or the other names nothing
      else. */
  ghost predicate Careful(eo: seq<Entry>, et: seq<Entry>, z: Fingerprint) {
    (forall e :: e in et ==> e.key != z) || (forall e :: e in eo ==> e.key == z)
  }

  /** The records of f pair z with itself, on the left, or on the right where the left ones do no harm; and the records
      of any other chunk but z do no harm. */
  ghost predicate Planted(k: nat, o: Databases, t: Databases, f: Fingerprint, p: Pair, onLeft: bool) {
    && p.o.key == p.t.key && k >= 1
    && (onLeft ==> Candidates(Neighbours(o.left, f), Neighbours(t.left, f), k, [p]))
    && (!onLeft ==> Candidates(Neighbours(o.right, f), Neighbours(t.right, f), k, [p]))
    && (!onLeft ==> Careful(Neighbours(o.left, f), Neighbours(t.left, f), p.t.key))
    && forall g: Fingerprint :: g != f && g != p.t.key ==> CarefulAt(o, t, g, p.t.key)
  }

  ghost predicate CarefulAt(o: Databases, t: Databases, g: Fingerprint, z: Fingerprint) {
    && Careful(Neighbours(o.left, g), Neighbours(t.left, g), z)
    && Careful(Neighbours(o.right, g), Neighbours(t.right, g), z)
  }

  lemma {:induction false} CarefulIsHonest(eo: seq<Entry>, et: seq<Entry>, k: nat, pairs: seq<Pair>, z: Fingerprint)
    requires Candidates(eo, et, k, pairs) && Careful(eo, et, z)
    ensures Honest(pairs, z)
  {
    forall i | 0 <= i < |pairs| ensures pairs[i].t.key == z ==> pairs[i].o.key == z {
      CandidateMembers(eo, et, k, pairs, i);
    }
  }

  /** A round away from f leaves z alone, infers it, or finds it recorded. */
  lemma {:induction false} GrowsElsewhere(limit: nat, w: Work, ls: seq<Pair>, rs: seq<Pair>, f: Fingerprint,
                                          z: Fingerprint, n: nat)
    requires Growing(w, f, z, n) && w.qt != [] && (z in w.uniq || (w.qt[0].key != f && Honest(ls, z) && Honest(rs, z)))
    ensures Growing(Advanced(limit, w, ls, rs), f, z, n)
  {
    AdvancedKept(limit, w, ls, rs, f);
    AdvancedScore(limit, w, ls, rs);
    if z !in w.uniq {
      HonestHit(limit, Checked(w), ls, z);
      if z !in Extended(limit, Checked(w), ls).uniq { HonestHit(limit, Extended(limit, Checked(w), ls), rs, z); }
    }
  }

  lemma {:induction false} PushedRecords(w: Work, p: Pair)
    ensures p.t.key in Pushed(w, [p]).uniq
  {
    assert Targets([p])[0] in Targets([p]);
  }

  /** A round at f with the planted pair on the left infers z for certain. */
  lemma {:induction false} GrowsLeft(limit: nat, w: Work, p: Pair, rs: seq<Pair>, f: Fingerprint, n: nat)
    requires Growing(w, f, p.t.key, n) && w.qt != [] && p.t.key !in w.uniq && p.o.key == p.t.key && |w.qo| + 1 <= limit
    ensures Growing(Advanced(limit, w, [p], rs), f, p.t.key, n)
  {
    var c := Checked(w);
    var l := Extended(limit, c, [p]);
    AdvancedKept(limit, w, [p], rs, f);
    AdvancedScore(limit, w, [p], rs);
    TakenOne(limit, |c.qo|, c.uniq, p);
    HitsOne(p);
    PushedRecords(c, p);
    ExtendedKept(limit, c, [p], f);
    ExtendedKept(limit, l, rs, f);
  }

  /** The same with the planted pair on the right. */
  lemma {:induction false} GrowsRight(limit: nat, w: Work, ls: seq<Pair>, p: Pair, f: Fingerprint, n: nat)
    requires Growing(w, f, p.t.key, n) && w.qt != [] && p.t.key !in w.uniq && p.o.key == p.t.key && Honest(ls, p.t.key)
    requires |w.qo| + |ls| + 1 <= limit
    ensures Growing(Advanced(limit, w, ls, [p]), f, p.t.key, n)
  {
    var c := Checked(w);
    var l := Extended(limit, c, ls);
    AdvancedKept(limit, w, ls, [p], f);
    AdvancedScore(limit, w, ls, [p]);
    ExtendedKept(limit, c, ls, f);
    HonestHit(limit, c, ls, p.t.key);
    if p.t.key in l.uniq {
      ExtendedKept(limit, l, [p], f);
    } else {
      TakenLength(limit, |c.qo|, c.uniq, ls);
      TakenOne(limit, |l.qo|, l.uniq, p);
      HitsOne(p);
      PushedRecords(l, p);
    }
  }

  lemma {:induction false} PairedLength(pq: multiset<Entry>, pc: multiset<Entry>, pairs: seq<Pair>)
    requires Paired(pq, pc, pairs)
    ensures |pairs| <= |pc|
    decreases |pairs|
  {
    if pairs != [] { PairedLength(pq - multiset{pairs[0].o}, pc - multiset{pairs[0].t}, pairs[1..]); }
  }

  lemma {:induction false} CandidatesLength(eo: seq<Entry>, et: seq<Entry>, k: nat, pairs: seq<Pair>)
    requires Candidates(eo, et, k, pairs)
    ensures |pairs| <= |et|
  {
    var pq, pc :| TopK(multiset(eo), k, pq) && TopK(multiset(et), k, pc) && Paired(pq, pc, pairs);
    PairedLength(pq, pc, pairs);
  }

  /** At f, with z unrecorded, some round infers z for certain. */
  lemma {:induction false} GrowAtOnce(st: Settings, o: Databases, t: Databases, w: Work, f: Fingerprint, p: Pair,
                                      onLeft: bool, n: nat, m: nat) returns (w': Work)
    requires Planted(st.k, o, t, f, p, onLeft) && Growing(w, f, p.t.key, n) && w.qt != []
    requires w.qt[0].key == f && p.t.key !in w.uniq && Short(t, m) && |w.qo| + m + 1 <= st.limit
    ensures Round(st, o, t, w, w') && Growing(w', f, p.t.key, n)
  {
    assert w.qo[0].key == f;
    var ls, rs := [p], [p];
    if onLeft {
      rs := CandidatesExist(Neighbours(o.right, f), Neighbours(t.right, f), st.k);
      GrowsLeft(st.limit, w, p, rs, f, n);
    } else {
      ls := CandidatesExist(Neighbours(o.left, f), Neighbours(t.left, f), st.k);
      CandidatesLength(Neighbours(o.left, f), Neighbours(t.left, f), st.k, ls);
      CarefulIsHonest(Neighbours(o.left, f), Neighbours(t.left, f), st.k, ls, p.t.key);
      GrowsRight(st.limit, w, ls, p, f, n);
    }
    w' := Advanced(st.limit, w, ls, rs);
    RoundFrom(st, o, t, w, f, f, ls, rs);
  }

  lemma {:induction false} AheadFront(w: Work, f: Fingerprint)
    requires Ahead(w, f)
    ensures w.qt != [] && Aligned(w) && (w.qt[0].key != f ==> w.qo[0].key == w.qt[0].key)
  {
    var i :| 0 <= i < |w.qt| && UpTo(w, f, i);
  }

  /** Elsewhere, or with z recorded, any round will do. */
  lemma {:induction false} GrowByAny(st: Settings, o: Databases, t: Databases, w: Work, f: Fingerprint, p: Pair,
                                     onLeft: bool, n: nat) returns (w': Work)
    requires Planted(st.k, o, t, f, p, onLeft) && Growing(w, f, p.t.key, n) && w.qt != []
    requires p.t.key in w.uniq || w.qt[0].key != f
    ensures Round(st, o, t, w, w') && Growing(w', f, p.t.key, n)
  {
    var z, h, g := p.t.key, w.qo[0].key, w.qt[0].key;
    var ls := CandidatesExist(Neighbours(o.left, h), Neighbours(t.left, g), st.k);
    var rs := CandidatesExist(Neighbours(o.right, h), Neighbours(t.right, g), st.k);
    if z !in w.uniq {
      AheadFront(w, f);
      assert CarefulAt(o, t, g, z);
      CarefulIsHonest(Neighbours(o.left, h), Neighbours(t.left, g), st.k, ls, z);
      CarefulIsHonest(Neighbours(o.right, h), Neighbours(t.right, g), st.k, rs, z);
    }
    GrowsElsewhere(st.limit, w, ls, rs, f, z, n);
    w' := Advanced(st.limit, w, ls, rs);
    RoundFrom(st, o, t, w, h, g, ls, rs);
  }

  ghost predicate GrowsOn(step: (Work, Work) -> bool, keys: set<Fingerprint>, f: Fingerprint, z: Fingerprint, n: nat,
                          room: nat) {
    forall w: Work :: Growing(w, f, z, n) && w.qt != [] && |w.qo| <= room ==>
      exists w' :: step(w, w') && Growing(w', f, z, n) && Potential(keys, w') < Potential(keys, w)
  }

  lemma {:induction false} GrowTurn(st: Settings, o: Databases, t: Databases, w: Work, f: Fingerprint, p: Pair,
                                    onLeft: bool, n: nat, m: nat) returns (w': Work)
    requires Planted(st.k, o, t, f, p, onLeft) && Growing(w, f, p.t.key, n) && w.qt != []
    requires Short(t, m) && |w.qo| + m + 1 <= st.limit
    ensures Rounds(st, o, t)(w, w') && Growing(w', f, p.t.key, n)
    ensures Potential(NeighbourKeys(t), w') < Potential(NeighbourKeys(t), w)
  {
    if w.qt[0].key == f && p.t.key !in w.uniq {
      w' := GrowAtOnce(st, o, t, w, f, p, onLeft, n, m);
    } else {
      w' := GrowByAny(st, o, t, w, f, p, onLeft, n);
    }
    RoundMeasures(st, o, t, w, w');
  }

  lemma {:induction false} RoundsGrow(st: Settings, o: Databases, t: Databases, f: Fingerprint, p: Pair, onLeft: bool,
                                      n: nat, m: nat, room: nat)
    requires Planted(st.k, o, t, f, p, onLeft) && Short(t, m) && room + m + 1 <= st.limit
    ensures GrowsOn(Rounds(st, o, t), NeighbourKeys(t), f, p.t.key, n, room)
  {
    forall w: Work | Growing(w, f, p.t.key, n) && w.qt != [] && |w.qo| <= room
      ensures exists w' :: Rounds(st, o, t)(w, w') && Growing(w', f, p.t.key, n)
                && Potential(NeighbourKeys(t), w') < Potential(NeighbourKeys(t), w)
    {
      var w' := GrowTurn(st, o, t, w, f, p, onLeft, n, m);
    }
  }

  /** Such a run ends with more than n correct inferences. */
  lemma {:induction false} GrowChain(step: (Work, Work) -> bool, keys: set<Fingerprint>, f: Fingerprint, z: Fingerprint,
                                     n: nat, room: nat, w: Work) returns (ws: seq<Work>, last: Work)
    requires GrowsOn(step, keys, f, z, n, room) && Growing(w, f, z, n) && Potential(keys, w) <= room
    ensures RunsTo(step, w, ws, last) && last.qt == [] && last.correct > n
    decreases Potential(keys, w)
  {
    if w.qt == [] {
      ws, last := [w], w;
    } else {
      var w' :| step(w, w') && Growing(w', f, z, n) && Potential(keys, w') < Potential(keys, w);
      var more;
      more, last := GrowChain(step, keys, f, z, n, room, w');
      RunsToNext(step, w, w', more, last);
      ws := [w] + more;
    }
  }

  // ---------------------------------------------------------------- overcounting with leaked chunks

  lemma {:induction false} KeysOfListing(freq: Store, keys: set<Fingerprint>, es: seq<Entry>, f: Fingerprint)
    requires Listing(freq, keys, es)
    ensures f in Keys(es) <==> f in keys
  {
    KeySetOfKeys(es, f);
  }

  /** The state after all target chunks are leaked. */
  lemma {:induction false} AllLeaked(o: Databases, t: Databases) returns (w: Work)
    ensures Leaked(o, t, t.freq.Keys, w) && |w.qt| == |t.freq.Keys * (t.freq.Keys * o.freq.Keys)|
    ensures Diagonal(w) && Balanced(w)
  {
    var both := t.freq.Keys * (t.freq.Keys * o.freq.Keys);
    var es := ListingExists(t.freq, both);
    w := Work(es, es, both, 0);
    forall f ensures f in Keys(es) <==> f in both { KeysOfListing(t.freq, both, es, f); }
    DistinctSize(es);
  }

  lemma {:induction false} LeakedGrows(o: Databases, t: Databases, w: Work, f: Fingerprint, z: Fingerprint)
    requires Leaked(o, t, t.freq.Keys, w) && f in t.freq && f in o.freq && (z !in o.freq || z !in t.freq)
    ensures Growing(w, f, z, |w.qt|)
  {
    HitsDiagonal(w.qo, w.qt);
    forall i | 0 <= i < |w.qt| ensures w.qt[i].key in w.uniq && w.qo[i].key == w.qt[i].key {
      assert Keys(w.qo)[i] == w.qo[i].key && Keys(w.qt)[i] == w.qt[i].key;
    }
    assert f in Keys(w.qt);
    var i :| 0 <= i < |w.qt| && Keys(w.qt)[i] == f;
    assert UpTo(w, f, i);
  }

  lemma {:induction false} PlantedRun(st: Settings, o: Databases, t: Databases, f: Fingerprint, p: Pair, onLeft: bool,
                                      m: nat, n: nat, first: Work) returns (ws: seq<Work>, last: Work)
    requires Planted(st.k, o, t, f, p, onLeft) && Short(t, m) && Growing(first, f, p.t.key, n)
    requires Potential(NeighbourKeys(t), first) + m + 1 <= st.limit
    ensures RunsTo(Rounds(st, o, t), first, ws, last) && last.qt == [] && last.correct > n
  {
    var room := Potential(NeighbourKeys(t), first);
    RoundsGrow(st, o, t, f, p, onLeft, n, m, room);
    ws, last := GrowChain(Rounds(st, o, t), NeighbourKeys(t), f, p.t.key, n, room, first);
  }

  lemma {:induction false} ReportedAll(o: Databases, t: Databases, last: Work)
    ensures Reported(o, t, t.freq.Keys, last) == last.correct
      + |t.freq.Keys| - |t.freq.Keys * (t.freq.Keys * o.freq.Keys)|
  {
    assert t.freq.Keys * t.freq.Keys == t.freq.Keys;
  }

  /** With all target chunks leaked, and in whatever order they are queued, some run reports too many chunks. */
  ghost predicate Overcounted(o: Databases, t: Databases) {
    forall first :: Leaked(o, t, t.freq.Keys, first) ==> OvercountedFrom(o, t, first)
  }

  ghost predicate OvercountedFrom(o: Databases, t: Databases, first: Work) {
    exists st, ws, last ::
      LeakedRun(st, o, t, t.freq.Keys, first, ws, last) && Reported(o, t, t.freq.Keys, last) > |t.freq.Keys|
  }

  /** If the records of f infer z, which is a chunk of one side at most, then leaking all target chunks counts too
      many. */
  lemma {:induction false} PlantedOvercounts(k: nat, o: Databases, t: Databases, f: Fingerprint, p: Pair, onLeft: bool,
                                             m: nat)
    requires Planted(k, o, t, f, p, onLeft) && Short(t, m)
    requires f in t.freq && f in o.freq && (p.t.key !in o.freq || p.t.key !in t.freq)
    ensures Overcounted(o, t)
  {
    forall first | Leaked(o, t, t.freq.Keys, first) ensures OvercountedFrom(o, t, first) {
      var st, ws, last := PlantedFrom(k, o, t, f, p, onLeft, m, first);
    }
  }

  lemma {:induction false} PlantedFrom(k: nat, o: Databases, t: Databases, f: Fingerprint, p: Pair, onLeft: bool,
                                       m: nat, first: Work)
    returns (st: Settings, ws: seq<Work>, last: Work)
    requires Planted(k, o, t, f, p, onLeft) && Short(t, m) && Leaked(o, t, t.freq.Keys, first)
    requires f in t.freq && f in o.freq && (p.t.key !in o.freq || p.t.key !in t.freq)
    ensures LeakedRun(st, o, t, t.freq.Keys, first, ws, last) && Reported(o, t, t.freq.Keys, last) > |t.freq.Keys|
  {
    st := Settings(k, Potential(NeighbourKeys(t), first) + m + 1);
    LeakedGrows(o, t, first, f, p.t.key);
    LeakedSize(o, t, t.freq.Keys, first);
    ws, last := PlantedRun(st, o, t, f, p, onLeft, m, |first.qt|, first);
    ReportedAll(o, t, last);
  }

  /** Overcounting is seen in a run. */
  lemma {:induction false} OvercountingRun(o: Databases, t: Databases)
    returns (st: Settings, first: Work, ws: seq<Work>, last: Work)
    requires Overcounted(o, t)
    ensures LeakedRun(st, o, t, t.freq.Keys, first, ws, last) && Reported(o, t, t.freq.Keys, last) > |t.freq.Keys|
  {
    first := AllLeaked(o, t);
    assert OvercountedFrom(o, t, first);
    st, ws, last :|
      LeakedRun(st, o, t, t.freq.Keys, first, ws, last) && Reported(o, t, t.freq.Keys, last) > |t.freq.Keys|;
  }

  // ---------------------------------------------------------------- a target stream for every open auxiliary stream

  lemma {:induction false} UnknownHasNoRecord(s: seq<Fingerprint>, f: Fingerprint)
    requires f !in s
    ensures LeftEntries(s, f) == [] && RightEntries(s, f) == []
  {
    LeftCountsPairs(s, f, f);
    RightCountsPairs(s, f, f);
    FewEntries(LeftEntries(s, f));
    FewEntries(RightEntries(s, f));
    LeftTotal(s, f);
    RightTotal(s, f);
    OccurrencesBound(s, f);
  }

  /** Every stream has stores that index it. */
  lemma {:induction false} IndexExists(s: seq<Fingerprint>) returns (d: Databases)
    requires |s| <= MAX_COUNT
    ensures Counted(d, s)
  {
    d := Databases(map f | f in s :: Encode(Occurrences(s, f)),
                   map f | f in s && LeftEntries(s, f) != [] :: Pack(LeftEntries(s, f)),
                   map f | f in s && RightEntries(s, f) != [] :: Pack(RightEntries(s, f)));
    forall f: Fingerprint | f !in s ensures LeftEntries(s, f) == [] && RightEntries(s, f) == [] {
      UnknownHasNoRecord(s, f);
    }
  }

  /** The copy of f, unless it is there anyway. */
  function Rest(f: Fingerprint, z: Fingerprint): (r: seq<Fingerprint>)
    ensures |r| <= 1
  {
    if Trunc(f) == f || Trunc(f) == z then [] else [Trunc(f)]
  }

  /** A stream with z right before or right after f. */
  function Beside(f: Fingerprint, z: Fingerprint, onLeft: bool): seq<Fingerprint> {
    if onLeft then [z, f] + Rest(f, z) else Rest(f, z) + [f, z]
  }

  lemma {:induction false} BesideClosed(f: Fingerprint, z: Fingerprint, onLeft: bool)
    requires Trunc(z) == z
    ensures CopyClosed(Beside(f, z, onLeft)) && f in Beside(f, z, onLeft) && z in Beside(f, z, onLeft)
  {
    CopiedTwice(f);
    var s := Beside(f, z, onLeft);
    if onLeft {
      assert s[0] == z && s[1] == f;
      assert Rest(f, z) != [] ==> s[2] == Trunc(f);
    } else {
      assert s[|s| - 1] == z && s[|s| - 2] == f;
      assert Rest(f, z) != [] ==> s[0] == Trunc(f);
    }
  }

  /** In it the left record of f is z alone. */
  lemma {:induction false} LeftBeside(f: Fingerprint, z: Fingerprint)
    requires Trunc(z) == z && z != f
    ensures LeftEntries(Beside(f, z, true), f) == [Entry(z, 1)]
  {
    var s := Beside(f, z, true);
    assert [z, f][..1] == [z];
    assert LeftEntries([z, f], f) == [Entry(z, 1)];
    if Rest(f, z) != [] { assert s[..2] == [z, f]; }
  }

  /** Or the right record is, and then the left one does not name z. */
  lemma {:induction false} RightBeside(f: Fingerprint, z: Fingerprint)
    requires Trunc(z) == z && z != f
    ensures RightEntries(Beside(f, z, false), f) == [Entry(z, 1)] && Before(Beside(f, z, false), z, f) == 0
  {
    var s, r := Beside(f, z, false), Rest(f, z);
    assert s[..|s| - 1] == r + [f];
    assert s[|s| - 2] == f && s[|s| - 1] == z;
    if r == [] {
      assert r + [f] == [f];
    } else {
      CopiedTwice(f);
      assert (r + [f])[..1] == r;
      assert RightEntries(r + [f], f) == [] && Before(r + [f], z, f) == 0;
    }
  }

  lemma {:induction false} BesideNeighbours(f: Fingerprint, z: Fingerprint, onLeft: bool, g: Fingerprint)
    requires Trunc(z) == z && z != f
    ensures Before(Beside(f, z, onLeft), z, g) > 0 || After(Beside(f, z, onLeft), g, z) > 0 ==> g == f || g == z
  {
    var s := Beside(f, z, onLeft);
    CopiedTwice(f);
    if Before(s, z, g) > 0 { var i := BeforeWitness(s, z, g); }
    if After(s, g, z) > 0 { var i := AfterWitness(s, g, z); }
  }

  lemma {:induction false} BesideCareful(o: Databases, t: Databases, f: Fingerprint, z: Fingerprint, onLeft: bool)
    requires Counted(t, Beside(f, z, onLeft)) && Trunc(z) == z && z != f
    ensures forall g: Fingerprint :: g != f && g != z ==> CarefulAt(o, t, g, z)
  {
    forall g: Fingerprint | g != f && g != z ensures CarefulAt(o, t, g, z) {
      forall e | e in Neighbours(t.left, g) || e in Neighbours(t.right, g) ensures e.key != z {
        if e.key == z { BesideNames(t, f, z, onLeft, g, e); }
      }
    }
  }

  /** What a stream with z beside f does to an auxiliary side that names z beside f. */
  lemma {:induction false} BesidePlants(o: Databases, t: Databases, f: Fingerprint, x: Entry, onLeft: bool)
    returns (k: nat)
    requires Counted(t, Beside(f, x.key, onLeft)) && Trunc(x.key) == x.key && x.key != f
    requires if onLeft then x in Neighbours(o.left, f) else x in Neighbours(o.right, f)
    ensures Planted(k, o, t, f, Pair(x, Entry(x.key, 1)), onLeft)
  {
    var s, z := Beside(f, x.key, onLeft), x.key;
    var es := if onLeft then Neighbours(o.left, f) else Neighbours(o.right, f);
    var bag;
    k, bag := LeastOfTop(es, x);
    LonePair(es, k, bag, x, Entry(z, 1));
    CountedNeighbours(t, s, f);
    if onLeft { LeftBeside(f, z); } else { RightBeside(f, z); }
    LeftNames(s, f, z);
    BesideCareful(o, t, f, z, onLeft);
  }

  lemma {:induction false} BesideNames(t: Databases, f: Fingerprint, z: Fingerprint, onLeft: bool, g: Fingerprint,
                                       e: Entry)
    requires Counted(t, Beside(f, z, onLeft)) && Trunc(z) == z && z != f && e.key == z
    ensures e in Neighbours(t.left, g) || e in Neighbours(t.right, g) ==> g == f || g == z
  {
    var s := Beside(f, z, onLeft);
    CountedNeighbours(t, s, g);
    LeftNames(s, g, z);
    RightNames(s, g, z);
    BesideNeighbours(f, z, onLeft, g);
  }

  // ---------------------------------------------------------------- an auxiliary stream for every open target stream

  /** A stream with z right before or right after f, and the copy of f on the other side of z. */
  function Between(f: Fingerprint, z: Fingerprint, onLeft: bool): seq<Fingerprint> {
    if onLeft then Rest(f, z) + [z, f] else [f, z] + Rest(f, z)
  }

  lemma {:induction false} BetweenClosed(f: Fingerprint, z: Fingerprint, onLeft: bool)
    requires Trunc(z) == z
    ensures CopyClosed(Between(f, z, onLeft)) && f in Between(f, z, onLeft)
  {
    CopiedTwice(f);
    var s := Between(f, z, onLeft);
    if onLeft {
      assert s[|s| - 2] == z && s[|s| - 1] == f;
      assert Rest(f, z) != [] ==> s[0] == Trunc(f);
    } else {
      assert s[0] == f && s[1] == z;
      assert Rest(f, z) != [] ==> s[2] == Trunc(f);
    }
  }

  /** In it the left record of f is z alone. */
  lemma {:induction false} LeftBetween(f: Fingerprint, z: Fingerprint)
    requires Trunc(z) == z && z != f
    ensures LeftEntries(Between(f, z, true), f) == [Entry(z, 1)]
  {
    var s, r := Between(f, z, true), Rest(f, z);
    assert s[..|s| - 1] == r + [z];
    assert s[|s| - 2] == z && s[|s| - 1] == f;
    assert LeftEntries(r + [z], f) == [] by {
      if r != [] { assert (r + [z])[..1] == r; }
    }
  }

  /** Or the right record is, and then f has no left record. */
  lemma {:induction false} RightBetween(f: Fingerprint, z: Fingerprint)
    requires Trunc(z) == z && z != f
    ensures RightEntries(Between(f, z, false), f) == [Entry(z, 1)] && LeftEntries(Between(f, z, false), f) == []
  {
    var s := Between(f, z, false);
    assert [f, z][..1] == [f];
    assert RightEntries([f, z], f) == [Entry(z, 1)] && LeftEntries([f, z], f) == [];
    if Rest(f, z) != [] { assert s[..2] == [f, z]; }
  }

  /** Every other chunk but z has z as its only neighbour. */
  lemma {:induction false} BetweenNeighbours(f: Fingerprint, z: Fingerprint, onLeft: bool, g: Fingerprint,
                                             k: Fingerprint)
    requires Trunc(z) == z && g != f && g != z
    ensures Before(Between(f, z, onLeft), k, g) > 0 || After(Between(f, z, onLeft), g, k) > 0 ==> k == z
  {
    var s := Between(f, z, onLeft);
    if Before(s, k, g) > 0 { var i := BeforeWitness(s, k, g); }
    if After(s, g, k) > 0 { var i := AfterWitness(s, g, k); }
  }

  lemma {:induction false} BetweenNames(o: Databases, f: Fingerprint, z: Fingerprint, onLeft: bool, g: Fingerprint,
                                        e: Entry)
    requires Counted(o, Between(f, z, onLeft)) && Trunc(z) == z && g != f && g != z
    ensures e in Neighbours(o.left, g) || e in Neighbours(o.right, g) ==> e.key == z
  {
    var s := Between(f, z, onLeft);
    CountedNeighbours(o, s, g);
    LeftNames(s, g, e.key);
    RightNames(s, g, e.key);
    BetweenNeighbours(f, z, onLeft, g, e.key);
  }

  lemma {:induction false} BetweenCareful(o: Databases, t: Databases, f: Fingerprint, z: Fingerprint, onLeft: bool)
    requires Counted(o, Between(f, z, onLeft)) && Trunc(z) == z && z != f
    ensures forall g: Fingerprint :: g != f && g != z ==> CarefulAt(o, t, g, z)
  {
    forall g: Fingerprint | g != f && g != z ensures CarefulAt(o, t, g, z) {
      forall e | e in Neighbours(o.left, g) || e in Neighbours(o.right, g) ensures e.key == z {
        BetweenNames(o, f, z, onLeft, g, e);
      }
    }
  }

  /** What a stream with z beside f does to a target side that names z beside f. */
  lemma {:induction false} BetweenPlants(o: Databases, t: Databases, f: Fingerprint, x: Entry, onLeft: bool)
    returns (k: nat)
    requires Counted(o, Between(f, x.key, onLeft)) && Trunc(x.key) == x.key && x.key != f
    requires if onLeft then x in Neighbours(t.left, f) else x in Neighbours(t.right, f)
    ensures Planted(k, o, t, f, Pair(Entry(x.key, 1), x), onLeft)
  {
    var s, z := Between(f, x.key, onLeft), x.key;
    var es := if onLeft then Neighbours(t.left, f) else Neighbours(t.right, f);
    var bag;
    k, bag := LeastOfTop(es, x);
    LonePair(es, k, bag, x, Entry(z, 1));
    CountedNeighbours(o, s, f);
    if onLeft { LeftBetween(f, z); } else { RightBetween(f, z); }
    BetweenCareful(o, t, f, z, onLeft);
  }

  // ---------------------------------------------------------------- exactly when the bound holds with leaked chunks

  /** For every open auxiliary stream there is a closed target stream that is overcounted when all its chunks are
      leaked. */
  lemma {:induction false} OpenAuxiliaryOvercounts(o: Databases, so: seq<Fingerprint>)
    returns (ts: seq<Fingerprint>, t: Databases)
    requires Counted(o, so) && |so| >= 2 && !CopyClosed(so)
    ensures Counted(t, ts) && CopyClosed(ts) && Closed(t) && Overcounted(o, t)
  {
    var f, x := OpenNeighbour(o, so);
    var onLeft := x in Neighbours(o.left, f);
    ts := Beside(f, x.key, onLeft);
    t := IndexExists(ts);
    BesideClosed(f, x.key, onLeft);
    CountedClosed(t, ts);
    CountedShort(t, ts);
    var k := BesidePlants(o, t, f, x, onLeft);
    PlantedOvercounts(k, o, t, f, Pair(x, Entry(x.key, 1)), onLeft, |ts|);
  }

  /** For every open target stream there is a closed auxiliary stream against which it is overcounted when all its
      chunks are leaked. */
  lemma {:induction false} OpenTargetOvercounted(t: Databases, ts: seq<Fingerprint>)
    returns (so: seq<Fingerprint>, o: Databases)
    requires Counted(t, ts) && |ts| >= 2 && !CopyClosed(ts)
    ensures Counted(o, so) && CopyClosed(so) && Closed(o) && Overcounted(o, t)
  {
    var f, x := OpenNeighbour(t, ts);
    var onLeft := x in Neighbours(t.left, f);
    so := Between(f, x.key, onLeft);
    o := IndexExists(so);
    BetweenClosed(f, x.key, onLeft);
    CountedClosed(o, so);
    CountedShort(t, ts);
    var k := BetweenPlants(o, t, f, x, onLeft);
    PlantedOvercounts(k, o, t, f, Pair(Entry(x.key, 1), x), onLeft, |ts|);
  }

  lemma {:induction false} LeakedStart(o: Databases, t: Databases, chosen: set<Fingerprint>, w: Work)
    requires Leaked(o, t, chosen, w)
    ensures Consistent(o.freq.Keys, t.freq.Keys, w, Keys(w.qt), {})
  {
    assert Keys(w.qt)[|Keys(w.qt)| - |w.qt|..] == Keys(w.qt);
    forall e | e in w.qo ensures e.key in o.freq {
      var i :| 0 <= i < |w.qo| && w.qo[i] == e;
      assert Keys(w.qo)[i] == e.key && e.key in Keys(w.qt);
    }
  }

  /** With closed stores on both sides no run from leaked chunks reports more chunks than there are. */
  lemma {:induction false} ClosedSidesBounded(st: Settings, o: Databases, t: Databases, chosen: set<Fingerprint>,
                                              first: Work, ws: seq<Work>, last: Work)
    requires LeakedRun(st, o, t, chosen, first, ws, last) && Closed(o) && Closed(t)
    ensures Reported(o, t, chosen, last) <= |t.freq.Keys|
  {
    LeakedStart(o, t, chosen, first);
    var hist, matched := RunsAreConsistent(st, o, t, o.freq.Keys, t.freq.Keys, ws, Keys(first.qt), {});
    CorrectAtMostShared(o.freq.Keys, t.freq.Keys, last, hist, matched);
    ReportBound(last.correct, t.freq.Keys, chosen, o.freq.Keys, o.freq.Keys);
  }

  /** An auxiliary side against which no closed target is ever overcounted, whatever is leaked. */
  ghost predicate NeverOvercountsLeaking(o: Databases) {
    forall st, t, chosen, first, ws, last :: Closed(t) && LeakedRun(st, o, t, chosen, first, ws, last) ==>
      Reported(o, t, chosen, last) <= |t.freq.Keys|
  }

  /** With leaked chunks the bound holds for a counted auxiliary stream exactly when it has no neighbours at all or
      every copied fingerprint is a chunk again. */
  lemma {:induction false} LeakBoundHoldsExactlyWhenClosed(o: Databases, so: seq<Fingerprint>)
    requires Counted(o, so)
    ensures NeverOvercountsLeaking(o) <==> |so| < 2 || CopyClosed(so)
  {
    CountedClosed(o, so);
    if |so| < 2 || CopyClosed(so) {
      forall st, t, chosen, first, ws, last | Closed(t) && LeakedRun(st, o, t, chosen, first, ws, last)
        ensures Reported(o, t, chosen, last) <= |t.freq.Keys|
      {
        ClosedSidesBounded(st, o, t, chosen, first, ws, last);
      }
    } else {
      var ts, t := OpenAuxiliaryOvercounts(o, so);
      var st, first, ws, last := OvercountingRun(o, t);
    }
  }

  /** A target that is never overcounted against a closed auxiliary side, whatever is leaked. */
  ghost predicate NeverOvercountedLeaking(t: Databases) {
    forall st, o, chosen, first, ws, last :: Closed(o) && LeakedRun(st, o, t, chosen, first, ws, last) ==>
      Reported(o, t, chosen, last) <= |t.freq.Keys|
  }

  /** Against closed auxiliary sides the bound holds for a counted target stream under the same condition. */
  lemma {:induction false} LeakedTargetBoundedExactlyWhenClosed(t: Databases, ts: seq<Fingerprint>)
    requires Counted(t, ts)
    ensures NeverOvercountedLeaking(t) <==> |ts| < 2 || CopyClosed(ts)
  {
    CountedClosed(t, ts);
    if |ts| < 2 || CopyClosed(ts) {
      forall st, o, chosen, first, ws, last | Closed(o) && LeakedRun(st, o, t, chosen, first, ws, last)
        ensures Reported(o, t, chosen, last) <= |t.freq.Keys|
      {
        ClosedSidesBounded(st, o, t, chosen, first, ws, last);
      }
    } else {
      var so, o := OpenTargetOvercounted(t, ts);
      var st, first, ws, last := OvercountingRun(o, t);
    }
  }

  lemma {:induction false} AllLeakedSelf(d: Databases) returns (w: Work)
    ensures Leaked(d, d, d.freq.Keys, w) && Diagonal(w) && Balanced(w) && KeySet(w.qt) == w.uniq == d.freq.Keys
  {
    var all := d.freq.Keys;
    w := AllLeaked(d, d);
    assert all * (all * all) == all;
    forall f ensures f in KeySet(w.qt) <==> f in all { KeySetOfKeys(w.qt, f); }
  }

  lemma {:induction false} LeakedAgainstItself(d: Databases, s: seq<Fingerprint>)
    returns (st: Settings, first: Work, ws: seq<Work>, last: Work)
    requires Counted(d, s) && s != []
    ensures LeakedRun(st, d, d, d.freq.Keys, first, ws, last) && Ended(d, first, last)
    ensures KeySet(first.qt) == first.uniq == d.freq.Keys
  {
    first := AllLeakedSelf(d);
    var room := Potential(NeighbourKeys(d), first);
    st := Settings(|s|, room + 2 * |s|);
    CountedShort(d, s);
    StepsHold(st, d, room);
    ws, last := DiagonalChain(Rounds(st, d, d), d, NeighbourKeys(d), room, first);
  }

  /** An open stream is also overcounted against itself. */
  lemma {:induction false} OpenTargetsOvercountLeaking(d: Databases, s: seq<Fingerprint>)
    returns (st: Settings, first: Work, ws: seq<Work>, last: Work)
    requires Counted(d, s) && |s| >= 2 && !CopyClosed(s)
    ensures LeakedRun(st, d, d, d.freq.Keys, first, ws, last) && Reported(d, d, d.freq.Keys, last) > |d.freq.Keys|
  {
    st, first, ws, last := LeakedAgainstItself(d, s);
    var f, e := OpenNeighbour(d, s);
    NeighbourAdded(d, first, last, f, e);
    assert d.freq.Keys * d.freq.Keys == d.freq.Keys;
  }

  // ---------------------------------------------------------------- two streams, both ways round

  /** The streams 1:0:1:0:0:0 and 1:0:0:0:0:0 before the same chunk: the first is open, the second is not. */
  lemma {:induction false} ExampleStreams(x: Fingerprint, y: Fingerprint, c: Fingerprint)
    requires Example(x, y, c)
    ensures LeftEntries([y, c], c) == [Entry(x, 1)] && x != c && y != c && x !in [y, c]
    ensures Beside(c, x, true) == Between(c, x, true) == [x, c] && Trunc(x) == x && AllNulSafe([x, c])
  {
    TruncatedExample(x, y, c);
    assert [y, c][..1] == [y];
    assert x[1] != c[1] && x[2] != y[2] && y[1] != c[1];
  }

  lemma {:induction false} ExampleOpen(d: Databases, x: Fingerprint, y: Fingerprint, c: Fingerprint)
    requires Example(x, y, c) && Counted(d, [y, c])
    ensures Entry(x, 1) in Neighbours(d.left, c) && c in d.freq && x !in d.freq
  {
    ExampleStreams(x, y, c);
    CountedNeighbours(d, [y, c], c);
    assert [y, c][1] in [y, c];
  }

  lemma {:induction false} TwoChunks(d: Databases, a: Fingerprint, b: Fingerprint)
    requires Counted(d, [a, b]) && a != b
    ensures d.freq.Keys == {a, b} && |d.freq.Keys| == 2
  {
    assert [a, b][0] in [a, b] && [a, b][1] in [a, b];
  }

  /** Whichever of them is the auxiliary one, more than two of two chunks can be reported. */
  lemma {:induction false} LeakedExampleOvercounts(d: Databases, e: Databases, x: Fingerprint, y: Fingerprint,
                                                   c: Fingerprint)
    requires Example(x, y, c) && Counted(d, [y, c]) && Counted(e, [x, c])
    ensures AllNulSafe([x, c]) && |d.freq.Keys| == |e.freq.Keys| == 2
    ensures Overcounted(d, e) && Overcounted(e, d)
  {
    ExampleStreams(x, y, c);
    ExampleOpen(d, x, y, c);
    TwoChunks(d, y, c);
    TwoChunks(e, x, c);
    CountedShort(d, [y, c]);
    CountedShort(e, [x, c]);
    var k := BesidePlants(d, e, c, Entry(x, 1), true);
    PlantedOvercounts(k, d, e, c, Pair(Entry(x, 1), Entry(x, 1)), true, 2);
    var k' := BetweenPlants(e, d, c, Entry(x, 1), true);
    PlantedOvercounts(k', e, d, c, Pair(Entry(x, 1), Entry(x, 1)), true, 2);
  }
}
