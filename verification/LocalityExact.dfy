/** Why the bound on inferred chunks needs closed stores: on any other target there is a run that reports more. */
module LocalityExact {
  import opened Sets
  import opened Bytes
  import opened Records
  import opened LocalityCount
  import opened LocalityAttack
  import opened LocalityMeaning
  import opened LocalityRun
  import opened LocalitySeeds
  import opened LocalityProgram

  /** Both queues hold the same chunks: the run attacks a stream with itself. */
  predicate Diagonal(w: Work) { w.qo == w.qt }

  predicate DiagonalPairs(pairs: seq<Pair>) {
    forall i :: 0 <= i < |pairs| ==> pairs[i].o == pairs[i].t
  }

  ghost predicate Covers(pairs: seq<Pair>, x: Entry) {
    exists i :: 0 <= i < |pairs| && pairs[i].t == x
  }

  /** Each correct inference and each queued chunk is recorded, and nothing else. */
  predicate Balanced(w: Work) { w.correct + |w.qt| == |w.uniq| }

  lemma {:induction false} CoversCons(p: Pair, more: seq<Pair>, y: Entry)
    ensures y == p.t || Covers(more, y) ==> Covers([p] + more, y)
  {
    if y == p.t {
      assert ([p] + more)[0].t == y;
    } else if Covers(more, y) {
      var i :| 0 <= i < |more| && more[i].t == y;
      assert ([p] + more)[i + 1].t == y;
    }
  }

  /** The pairs match a bag with itself, entry by entry. */
  ghost predicate MatchesItself(bag: multiset<Entry>, pairs: seq<Pair>) {
    Paired(bag, bag, pairs) && DiagonalPairs(pairs) && |pairs| == |bag| && forall x :: x in bag ==> Covers(pairs, x)
  }

  lemma {:induction false} MatchNext(bag: multiset<Entry>, x: Entry, more: seq<Pair>)
    requires Least(bag, x) && MatchesItself(bag - multiset{x}, more)
    ensures MatchesItself(bag, [Pair(x, x)] + more)
  {
    var pairs := [Pair(x, x)] + more;
    assert pairs[1..] == more && pairs[0] == Pair(x, x);
    assert Paired(bag, bag, pairs);
    forall y | y in bag ensures Covers(pairs, y) {
      assert y == x || y in bag - multiset{x};
      CoversCons(Pair(x, x), more, y);
    }
  }

  /** A bag can be paired with itself. */
  lemma {:induction false} PairWithItself(bag: multiset<Entry>) returns (pairs: seq<Pair>)
    ensures MatchesItself(bag, pairs)
    decreases |bag|
  {
    pairs := [];
    if |bag| > 0 {
      var x := LeastExists(bag);
      var more := PairWithItself(bag - multiset{x});
      MatchNext(bag, x, more);
      pairs := [Pair(x, x)] + more;
    }
  }

  lemma {:induction false} CandidatesWithItself(es: seq<Entry>, k: nat) returns (pairs: seq<Pair>)
    requires |es| <= k
    ensures Candidates(es, es, k, pairs) && DiagonalPairs(pairs) && |pairs| == |es|
    ensures forall x :: x in es ==> Covers(pairs, x)
  {
    pairs := PairWithItself(multiset(es));
    assert multiset(es) - multiset(es) == multiset{};
    assert TopK(multiset(es), k, multiset(es));
  }

  /** Extending a diagonal, balanced state by diagonal candidates keeps it so. */
  lemma {:induction false} ExtendedDiagonal(limit: nat, w: Work, pairs: seq<Pair>)
    requires Diagonal(w) && DiagonalPairs(pairs) && |w.qo| + |pairs| <= limit
    ensures var e := Extended(limit, w, pairs);
      && Diagonal(e) && e.correct + |e.qt| - |e.uniq| == w.correct + |w.qt| - |w.uniq|
      && w.uniq <= e.uniq && w.qt <= e.qt && |e.qo| <= |w.qo| + |pairs|
      && forall x :: Covers(pairs, x) ==> x.key in e.uniq
  {
    var r := Taken(limit, |w.qo|, w.uniq, pairs);
    TakenFacts(limit, |w.qo|, w.uniq, pairs);
    TakenLength(limit, |w.qo|, w.uniq, pairs);
    assert Origins(r) == Targets(r);
    DistinctSize(Targets(r));
    var ks := KeySet(Targets(r));
    assert w.uniq !! ks by {
      forall f | f in ks ensures f !in w.uniq {
        KeySetOfKeys(Targets(r), f);
        var i :| 0 <= i < |r| && Keys(Targets(r))[i] == f;
      }
    }
    assert |w.uniq + ks| == |w.uniq| + |ks|;
    forall x | Covers(pairs, x) ensures x.key in w.uniq + ks {
      var i :| 0 <= i < |pairs| && pairs[i].t == x;
      TakenRecords(limit, |w.qo|, w.uniq, pairs, i);
    }
  }

  lemma {:induction false} TakenLength(limit: nat, size: nat, uniq: set<Fingerprint>, pairs: seq<Pair>)
    ensures |Taken(limit, size, uniq, pairs)| <= |pairs|
    decreases |pairs|
  {
    if pairs != [] {
      var p, rest := pairs[|pairs| - 1], pairs[..|pairs| - 1];
      TakenLength(limit, size, uniq, rest);
      TakenLength(limit, size + 1, uniq + {p.t.key}, rest);
    }
  }

  /** No record has more than k entries. */
  ghost predicate Short(d: Databases, k: nat) {
    forall f: Fingerprint :: |Neighbours(d.left, f)| <= k && |Neighbours(d.right, f)| <= k
  }

  /** All neighbours of f are recorded. */
  ghost predicate NeighboursRecorded(d: Databases, f: Fingerprint, uniq: set<Fingerprint>) {
    && (forall e :: e in Neighbours(d.left, f) ==> e.key in uniq)
    && (forall e :: e in Neighbours(d.right, f) ==> e.key in uniq)
  }

  lemma {:induction false} DiagonalAdvanced(limit: nat, w: Work, ls: seq<Pair>, rs: seq<Pair>)
    requires Diagonal(w) && Balanced(w) && w.qt != [] && DiagonalPairs(ls) && DiagonalPairs(rs)
      && |w.qo| + |ls| + |rs| <= limit
    ensures var w' := Advanced(limit, w, ls, rs);
      && Diagonal(w') && Balanced(w') && w.uniq <= w'.uniq && w.qt[1..] <= w'.qt
      && forall x :: Covers(ls, x) || Covers(rs, x) ==> x.key in w'.uniq
  {
    var c := Checked(w);
    var l := Extended(limit, c, ls);
    var e := Extended(limit, l, rs);
    ExtendedDiagonal(limit, c, ls);
    ExtendedDiagonal(limit, l, rs);
  }

  /** A diagonal state has a diagonal round, which infers correctly and records all neighbours of the front chunk. */
  lemma {:induction false} DiagonalRound(st: Settings, d: Databases, w: Work) returns (w': Work)
    requires Diagonal(w) && Balanced(w) && w.qt != [] && Short(d, st.k) && |w.qo| + 2 * st.k <= st.limit
    ensures Round(st, d, d, w, w') && Diagonal(w') && Balanced(w')
    ensures w.uniq <= w'.uniq && NeighboursRecorded(d, w.qt[0].key, w'.uniq) && w.qt[1..] <= w'.qt
  {
    var f := w.qt[0].key;
    var ls := CandidatesWithItself(Neighbours(d.left, f), st.k);
    var rs := CandidatesWithItself(Neighbours(d.right, f), st.k);
    DiagonalAdvanced(st.limit, w, ls, rs);
    w' := Advanced(st.limit, w, ls, rs);
    RoundFrom(st, d, d, w, f, f, ls, rs);
  }

  // ---------------------------------------------------------------- a whole diagonal run

  lemma {:induction false} ChainPrepend(step: (Work, Work) -> bool, w: Work, ws: seq<Work>)
    requires Chain(step, ws) && step(w, ws[0])
    ensures Chain(step, [w] + ws)
    decreases |ws|
  {
    var all := [w] + ws;
    if |ws| == 1 {
      assert all[..1] == [w];
    } else {
      ChainPrepend(step, w, ws[..|ws| - 1]);
      assert all[..|all| - 1] == [w] + ws[..|ws| - 1];
    }
  }

  /** What a step of a diagonal run does: it stays diagonal, keeps all records and the rest of the queue, and records
      all neighbours of the front chunk. */
  ghost predicate DiagonalStep(d: Databases, keys: set<Fingerprint>, w: Work, w': Work) {
    && w.qt != [] && Diagonal(w') && Balanced(w') && Potential(keys, w') < Potential(keys, w)
    && w.uniq <= w'.uniq && NeighboursRecorded(d, w.qt[0].key, w'.uniq) && w.qt[1..] <= w'.qt
  }

  lemma {:induction false} DiagonalTurn(st: Settings, d: Databases, w: Work) returns (w': Work)
    requires Diagonal(w) && Balanced(w) && w.qt != [] && Short(d, st.k) && |w.qo| + 2 * st.k <= st.limit
    ensures Rounds(st, d, d)(w, w') && DiagonalStep(d, NeighbourKeys(d), w, w')
  {
    w' := DiagonalRound(st, d, w);
    RoundMeasures(st, d, d, w, w');
  }

  /** A run that started in w has ended: every recorded chunk is a correct inference, and all neighbours of chunks that
      were queued are recorded. */
  ghost predicate Ended(d: Databases, w: Work, last: Work) {
    && last.qt == [] && last.correct == |last.uniq| && w.uniq <= last.uniq
    && forall x :: x in w.qt ==> NeighboursRecorded(d, x.key, last.uniq)
  }

  lemma {:induction false} EndedBefore(d: Databases, keys: set<Fingerprint>, w: Work, w': Work, last: Work)
    requires DiagonalStep(d, keys, w, w') && Ended(d, w', last)
    ensures Ended(d, w, last)
  {
    forall x | x in w.qt ensures NeighboursRecorded(d, x.key, last.uniq) {
      if x != w.qt[0] {
        assert x in w.qt[1..];
        assert x in w'.qt;
      }
    }
  }

  /** While the queue leaves room, every diagonal state has a diagonal step. */
  ghost predicate StepsOn(step: (Work, Work) -> bool, d: Databases, keys: set<Fingerprint>, room: nat) {
    forall w: Work :: Diagonal(w) && Balanced(w) && w.qt != [] && |w.qo| <= room ==>
      exists w' :: step(w, w') && DiagonalStep(d, keys, w, w')
  }

  lemma {:induction false} RunsToNext(step: (Work, Work) -> bool, w: Work, w': Work, ws: seq<Work>, last: Work)
    requires step(w, w') && RunsTo(step, w', ws, last)
    ensures RunsTo(step, w, [w] + ws, last)
  {
    ChainPrepend(step, w, ws);
  }

  lemma {:induction false} DiagonalChain(step: (Work, Work) -> bool, d: Databases, keys: set<Fingerprint>, room: nat,
                                         w: Work)
    returns (ws: seq<Work>, last: Work)
    requires StepsOn(step, d, keys, room) && Diagonal(w) && Balanced(w) && Potential(keys, w) <= room
    ensures RunsTo(step, w, ws, last) && Ended(d, w, last)
    decreases Potential(keys, w)
  {
    if w.qt == [] {
      ws, last := [w], w;
    } else {
      var w' :| step(w, w') && DiagonalStep(d, keys, w, w');
      var more;
      more, last := DiagonalChain(step, d, keys, room, w');
      RunsToNext(step, w, w', more, last);
      EndedBefore(d, keys, w, w', last);
      ws := [w] + more;
    }
  }

  lemma {:induction false} StepsHold(st: Settings, d: Databases, room: nat)
    requires Short(d, st.k) && room + 2 * st.k <= st.limit
    ensures StepsOn(Rounds(st, d, d), d, NeighbourKeys(d), room)
  {
    forall v: Work | Diagonal(v) && Balanced(v) && v.qt != [] && |v.qo| <= room
      ensures exists v' :: Rounds(st, d, d)(v, v') && DiagonalStep(d, NeighbourKeys(d), v, v')
    {
      var v' := DiagonalTurn(st, d, v);
    }
  }

  // ---------------------------------------------------------------- the seeds

  lemma {:induction false} ListingExists(freq: Store, keys: set<Fingerprint>) returns (es: seq<Entry>)
    requires keys <= freq.Keys
    ensures Listing(freq, keys, es)
    decreases |keys|
  {
    es := [];
    if |keys| > 0 {
      var f :| f in keys;
      var front := ListingExists(freq, keys - {f});
      ListingNext(freq, keys - {f}, front, Entry(f, Decode(freq[f])));
      es := front + [Entry(f, Decode(freq[f]))];
      assert keys - {f} + {f} == keys;
    } else {
      assert KeySet([]) == {} == keys;
    }
  }

  lemma {:induction false} SortedExists(bag: multiset<Entry>) returns (es: seq<Entry>)
    ensures multiset(es) == bag && Descending(es)
    decreases |bag|
  {
    es := [];
    if |bag| > 0 {
      var x := LeastExists(bag);
      var front := SortedExists(bag - multiset{x});
      es := front + [x];
      forall i | 0 <= i < |front| ensures front[i] in bag { assert front[i] in multiset(front); }
    }
  }

  /** Some ordering of all chunks of a store seeds the queue when the number of seeds allows all. */
  lemma {:induction false} AllSeeds(freq: Store) returns (init: nat, es: seq<Entry>)
    ensures init >= 1 && Seeds(freq, init, es) && KeySet(es) == freq.Keys && NoDuplicates(Keys(es))
  {
    var all := ListingExists(freq, freq.Keys);
    es := SortedExists(multiset(all));
    init := |all| + 1;
    assert multiset(all) - multiset(all) == multiset{};
    assert TopK(multiset(all), init, multiset(es));
    DrawnFromListing(all, es);
    forall f ensures f in KeySet(es) <==> f in KeySet(all) { SameKeys(all, es, f); }
  }

  lemma {:induction false} SameKeys(a: seq<Entry>, b: seq<Entry>, f: Fingerprint)
    requires multiset(a) == multiset(b)
    ensures f in KeySet(a) <==> f in KeySet(b)
  {
    assert forall e :: e in a <==> e in multiset(a);
    assert forall e :: e in b <==> e in multiset(b);
  }

  // ---------------------------------------------------------------- exactly when the bound holds

  lemma {:induction false} FewEntries(es: seq<Entry>)
    requires forall i :: 0 <= i < |es| ==> es[i].count > 0
    ensures |es| <= Total(es)
  {
    if es != [] { FewEntries(es[1..]); }
  }

  /** Records of a stream have no more entries than the stream has chunks. */
  lemma {:induction false} CountedShort(d: Databases, s: seq<Fingerprint>)
    requires Counted(d, s)
    ensures Short(d, |s|)
  {
    forall f: Fingerprint ensures |Neighbours(d.left, f)| <= |s| && |Neighbours(d.right, f)| <= |s| {
      CountedNeighbours(d, s, f);
      LeftCountsPairs(s, f, f);
      RightCountsPairs(s, f, f);
      FewEntries(LeftEntries(s, f));
      FewEntries(RightEntries(s, f));
      LeftTotal(s, f);
      RightTotal(s, f);
      OccurrencesBound(s, f);
    }
  }

  /** Where a copied fingerprint is not a chunk, a chunk has it as a neighbour. */
  lemma {:induction false} OpenNeighbour(d: Databases, s: seq<Fingerprint>) returns (f: Fingerprint, e: Entry)
    requires Counted(d, s) && |s| >= 2 && !CopyClosed(s)
    ensures f in d.freq && e.key !in d.freq && (e in Neighbours(d.left, f) || e in Neighbours(d.right, f))
    ensures Trunc(e.key) == e.key
  {
    var i :| 0 <= i < |s| && Trunc(s[i]) !in s;
    var k := Trunc(s[i]);
    CopiedTwice(s[i]);
    if i + 1 < |s| {
      f := s[i + 1];
      PairCounted(s, i);
      CountedNeighbours(d, s, f);
      LeftNames(s, f, k);
      e :| e in LeftEntries(s, f) && e.key == k;
    } else {
      f := s[i - 1];
      PairCounted(s, i - 1);
      CountedNeighbours(d, s, f);
      RightNames(s, f, k);
      e :| e in RightEntries(s, f) && e.key == k;
    }
  }

  /** A run of a stream against itself, from all its chunks to the end. */
  lemma {:induction false} RunAgainstItself(d: Databases, s: seq<Fingerprint>)
    returns (st: Settings, init: nat, first: Work, ws: seq<Work>, last: Work)
    requires Counted(d, s) && s != []
    ensures SeededRun(st, d, d, init, first, ws, last) && Ended(d, first, last)
    ensures KeySet(first.qt) == d.freq.Keys && first.uniq == d.freq.Keys
  {
    first, init := AllSeeded(d);
    var room := Potential(NeighbourKeys(d), first);
    st := Settings(|s|, room + 2 * |s|);
    CountedShort(d, s);
    StepsHold(st, d, room);
    ws, last := DiagonalChain(Rounds(st, d, d), d, NeighbourKeys(d), room, first);
  }

  lemma {:induction false} AllSeeded(d: Databases) returns (w: Work, init: nat)
    ensures Seeded(d, d, init, w) && Diagonal(w) && Balanced(w) && KeySet(w.qt) == d.freq.Keys
  {
    var es;
    init, es := AllSeeds(d.freq);
    w := Work(es, es, KeySet(es), 0);
    DistinctSize(es);
  }

  lemma {:induction false} NeighbourAdded(d: Databases, w: Work, last: Work, f: Fingerprint, e: Entry)
    requires Ended(d, w, last) && f in KeySet(w.qt) && w.uniq == d.freq.Keys && e.key !in d.freq
    requires e in Neighbours(d.left, f) || e in Neighbours(d.right, f)
    ensures last.correct > |d.freq.Keys|
  {
    var x :| x in w.qt && x.key == f;
    assert NeighboursRecorded(d, x.key, last.uniq);
    SubsetSize(d.freq.Keys + {e.key}, last.uniq);
  }

  /** If some copied fingerprint is not a chunk, a run of the stream against itself infers more chunks than there
      are. */
  lemma {:induction false} OpenStreamsOvercount(d: Databases, s: seq<Fingerprint>)
    returns (st: Settings, init: nat, first: Work, ws: seq<Work>, last: Work)
    requires Counted(d, s) && |s| >= 2 && !CopyClosed(s)
    ensures SeededRun(st, d, d, init, first, ws, last) && last.correct > |d.freq.Keys|
  {
    st, init, first, ws, last := RunAgainstItself(d, s);
    var f, e := OpenNeighbour(d, s);
    NeighbourAdded(d, first, last, f, e);
  }

  /** Seeds are consistent, whatever keys the neighbour records name. */
  lemma {:induction false} SeedsStart(o: Databases, t: Databases, init: nat, w: Work)
    requires Seeded(o, t, init, w)
    ensures Consistent(o.freq.Keys, t.freq.Keys, w, Keys(w.qt), {})
  {
    var allo :| Lists(o.freq, allo) && TopK(multiset(allo), init, multiset(w.qo)) && Descending(w.qo);
    var allt :| Lists(t.freq, allt) && TopK(multiset(allt), init, multiset(w.qt)) && Descending(w.qt);
    SeedsConsistent(o, t, allo, allt, w.qo, w.qt);
  }

  /** If the target's stores are closed, no run of any length against any auxiliary side infers more chunks than there
      are. */
  lemma {:induction false} ClosedTargetsBounded(st: Settings, o: Databases, t: Databases, init: nat, first: Work,
                                                ws: seq<Work>, last: Work)
    requires SeededRun(st, o, t, init, first, ws, last) && Closed(t)
    ensures last.correct <= |t.freq.Keys|
  {
    var ok, tk := o.freq.Keys + NeighbourKeys(o), t.freq.Keys;
    SeedsStart(o, t, init, first);
    WiderConsistent(o.freq.Keys, ok, tk, tk, first, Keys(first.qt));
    NamesNeighbours(o);
    var hist, matched := RunsAreConsistent(st, o, t, ok, tk, ws, Keys(first.qt), {});
    CorrectAtMostShared(ok, tk, last, hist, matched);
    SubsetSize(ok * tk, tk);
  }

  /** A target whose every run, against every auxiliary side and with every setting, infers no more chunks than it
      has. */
  ghost predicate NeverOvercounts(t: Databases) {
    forall st, o, init, first, ws, last :: SeededRun(st, o, t, init, first, ws, last) ==> last.correct <= |t.freq.Keys|
  }

  /** Without leaked chunks the bound holds for a counted target stream exactly when it has no neighbours at all or
      every copied fingerprint is a chunk again. */
  lemma {:induction false} BoundHoldsExactlyWhenClosed(t: Databases, s: seq<Fingerprint>)
    requires Counted(t, s)
    ensures NeverOvercounts(t) <==> |s| < 2 || CopyClosed(s)
  {
    CountedClosed(t, s);
    if |s| < 2 || CopyClosed(s) {
      forall st, o, init, first, ws, last | SeededRun(st, o, t, init, first, ws, last)
        ensures last.correct <= |t.freq.Keys|
      {
        ClosedTargetsBounded(st, o, t, init, first, ws, last);
      }
    } else {
      var st, init, first, ws, last := OpenStreamsOvercount(t, s);
    }
  }

  /** A copied fingerprint, the one it is copied from, and another one. */
  predicate Example(x: Fingerprint, y: Fingerprint, c: Fingerprint) {
    x == [1, 0, 0, 0, 0, 0] && y == [1, 0, 1, 0, 0, 0] && c == [1, 1, 1, 1, 1, 1]
  }

  /** A stream to which this applies: the fingerprint 1:0:1:0:0:0 is copied as 1:0:0:0:0:0, which is not a chunk. */
  lemma {:induction false} TruncatedExample(x: Fingerprint, y: Fingerprint, c: Fingerprint)
    requires Example(x, y, c)
    ensures Trunc(y) == x && Trunc(x) == x && Trunc(c) == c
    ensures !CopyClosed([y, c]) && AllNulSafe([x, c])
  {
    assert y[1..] == [0, 1, 0, 0, 0] && Copied(y[1..]) == [0, 0, 0, 0, 0];
    assert y[1] != x[1] || y[2] != x[2];
    assert NulSafe(x) && NulSafe(c);
    CopiedUnchanged(x);
    CopiedUnchanged(c);
    var s := [y, c];
    assert s[0] == y && Trunc(s[0]) !in s;
  }

  lemma {:induction false} TruncatedStreamOvercounts(t: Databases, x: Fingerprint, y: Fingerprint, c: Fingerprint)
    requires Example(x, y, c) && Counted(t, [y, c])
    ensures !NeverOvercounts(t)
  {
    TruncatedExample(x, y, c);
    BoundHoldsExactlyWhenClosed(t, [y, c]);
  }
}
