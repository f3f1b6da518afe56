/** Whole runs of the worklist and their bounds, and the stores of counted streams that they run on. */
module LocalityRun {
  import opened Sets
  import opened Integers
  import opened Bytes
  import opened Records
  import opened LocalityCount
  import opened LocalityAttack

  // ---------------------------------------------------------------- all runs

  /** A sequence of states, each a step after the one before. */
  ghost predicate Chain(step: (Work, Work) -> bool, ws: seq<Work>)
    decreases |ws|
  {
    |ws| >= 1 && (|ws| == 1 || (Chain(step, ws[..|ws| - 1]) && step(ws[|ws| - 2], ws[|ws| - 1])))
  }

  /** A run from its first to its last state. */
  ghost predicate RunsTo(step: (Work, Work) -> bool, first: Work, ws: seq<Work>, last: Work) {
    Chain(step, ws) && ws[0] == first && ws[|ws| - 1] == last
  }

  lemma {:induction false} RunsToAppend(step: (Work, Work) -> bool, first: Work, ws: seq<Work>, last: Work, w: Work)
    requires RunsTo(step, first, ws, last) && step(last, w)
    ensures RunsTo(step, first, ws + [w], w)
  {
    assert (ws + [w])[..|ws|] == ws;
  }

  /** The possible rounds of the main loop as steps. */
  ghost function Rounds(st: Settings, o: Databases, t: Databases): (Work, Work) -> bool {
    (w, w') => Round(st, o, t, w, w')
  }

  /** From `first` to `last` in a number of rounds, the potential has fallen by that number, the queues stayed in step,
      and the queue stayed within the larger of its first length and the limit. */
  predicate Bounded(limit: nat, keys: set<Fingerprint>, first: Work, last: Work, rounds: nat) {
    && Potential(keys, last) == Potential(keys, first) - rounds
    && |last.qo| - |last.qt| == |first.qo| - |first.qt|
    && |last.qo| <= Max(|first.qo|, limit)
  }

  lemma {:induction false} BoundedJoins(limit: nat, keys: set<Fingerprint>, a: Work, b: Work, c: Work, m: nat, n: nat)
    requires Bounded(limit, keys, a, b, m) && Bounded(limit, keys, b, c, n)
    ensures Bounded(limit, keys, a, c, m + n)
  {
  }

  lemma {:induction false} ChainsAreBounded(step: (Work, Work) -> bool, limit: nat, keys: set<Fingerprint>,
                                            ws: seq<Work>)
    requires Chain(step, ws) && forall a, b :: step(a, b) ==> Bounded(limit, keys, a, b, 1)
    ensures Bounded(limit, keys, ws[0], ws[|ws| - 1], |ws| - 1)
    decreases |ws|
  {
    if |ws| > 1 {
      ChainsAreBounded(step, limit, keys, ws[..|ws| - 1]);
      BoundedJoins(limit, keys, ws[0], ws[|ws| - 2], ws[|ws| - 1], |ws| - 2, 1);
    }
  }

  /** Every run is bounded, so none is longer than the potential it starts with. */
  lemma {:induction false} RunsAreBounded(st: Settings, o: Databases, t: Databases, ws: seq<Work>)
    requires Chain(Rounds(st, o, t), ws)
    ensures Bounded(st.limit, NeighbourKeys(t), ws[0], ws[|ws| - 1], |ws| - 1)
    ensures |ws| - 1 <= Potential(NeighbourKeys(t), ws[0])
  {
    forall a, b | Rounds(st, o, t)(a, b) ensures Bounded(st.limit, NeighbourKeys(t), a, b, 1) {
      RoundMeasures(st, o, t, a, b);
    }
    ChainsAreBounded(Rounds(st, o, t), st.limit, NeighbourKeys(t), ws);
  }

  /** No target key is ever enqueued twice, and every correct inference is a chunk of both sides. */
  lemma {:induction false} RunsAreConsistent(st: Settings, o: Databases, t: Databases, ok: set<Fingerprint>,
                                             tk: set<Fingerprint>, ws: seq<Work>, hist: seq<Fingerprint>,
                                             matched: set<Fingerprint>)
    returns (hist': seq<Fingerprint>, matched': set<Fingerprint>)
    requires NamesOnly(o, ok) && NamesOnly(t, tk) && Chain(Rounds(st, o, t), ws)
      && Consistent(ok, tk, ws[0], hist, matched)
    ensures Consistent(ok, tk, ws[|ws| - 1], hist', matched') && hist <= hist'
    decreases |ws|
  {
    hist', matched' := hist, matched;
    if |ws| > 1 {
      hist', matched' := RunsAreConsistent(st, o, t, ok, tk, ws[..|ws| - 1], hist, matched);
      hist', matched' := RoundConsistent(st, o, t, ok, tk, ws[|ws| - 2], ws[|ws| - 1], hist', matched');
    }
  }

  /** The number of correct inferences of a run never exceeds the number of chunks that both sides share. */
  lemma {:induction false} CorrectAtMostShared(ok: set<Fingerprint>, tk: set<Fingerprint>, w: Work,
                                               hist: seq<Fingerprint>, matched: set<Fingerprint>)
    requires Consistent(ok, tk, w, hist, matched)
    ensures w.correct <= |ok * tk|
  {
    SubsetSize(matched, ok * tk);
  }

  // ---------------------------------------------------------------- stores of the counting program

  /** The stores index a stream. */
  ghost predicate Counted(d: Databases, s: seq<Fingerprint>) {
    Counts(d.freq, s) && Holds(d.left, Lefts(s)) && Holds(d.right, Rights(s)) && |s| <= MAX_COUNT
  }

  lemma {:induction false} EntriesStorable(es: seq<Entry>)
    requires Total(es) <= MAX_COUNT
    ensures Storable(es)
  {
    forall i | 0 <= i < |es| ensures es[i].count <= MAX_COUNT { MemberAtMostTotal(es, i); }
  }

  /** Read back, the stores give the neighbour records of the stream. */
  lemma {:induction false} CountedNeighbours(d: Databases, s: seq<Fingerprint>, f: Fingerprint)
    requires Counted(d, s)
    ensures Neighbours(d.left, f) == LeftEntries(s, f) && Neighbours(d.right, f) == RightEntries(s, f)
  {
    LeftTotal(s, f);
    RightTotal(s, f);
    OccurrencesBound(s, f);
    EntriesStorable(LeftEntries(s, f));
    EntriesStorable(RightEntries(s, f));
    PackRoundTrip(LeftEntries(s, f));
    PackRoundTrip(RightEntries(s, f));
    assert Lefts(s)(f) == LeftEntries(s, f) && Rights(s)(f) == RightEntries(s, f);
  }

  /** A left record names exactly the copied fingerprints of left neighbours. */
  lemma {:induction false} LeftNames(s: seq<Fingerprint>, f: Fingerprint, k: Fingerprint)
    ensures (exists e :: e in LeftEntries(s, f) && e.key == k) <==> Before(s, k, f) > 0
  {
    LeftCountsPairs(s, f, k);
    NamesCounted(LeftEntries(s, f), k);
  }

  lemma {:induction false} RightNames(s: seq<Fingerprint>, f: Fingerprint, k: Fingerprint)
    ensures (exists e :: e in RightEntries(s, f) && e.key == k) <==> After(s, f, k) > 0
  {
    RightCountsPairs(s, f, k);
    NamesCounted(RightEntries(s, f), k);
  }

  lemma {:induction false} NamesCounted(es: seq<Entry>, k: Fingerprint)
    requires Distinct(es)
    ensures (exists e :: e in es && e.key == k) <==> CountOf(es, k) > 0
  {
    if CountOf(es, k) > 0 { assert es[Find(es, k)] in es; }
    if e :| e in es && e.key == k {
      var i :| 0 <= i < |es| && es[i] == e;
      FindUnique(es, k, i);
    }
  }

  /** Every chunk's copied fingerprint is a chunk again. */
  ghost predicate CopyClosed(s: seq<Fingerprint>) {
    forall i :: 0 <= i < |s| ==> Trunc(s[i]) in s
  }

  /** The stores of a stream are closed exactly when every copied fingerprint is a chunk again, or there are no
      neighbours at all. */
  lemma {:induction false} CountedClosed(d: Databases, s: seq<Fingerprint>)
    requires Counted(d, s)
    ensures Closed(d) <==> |s| < 2 || CopyClosed(s)
  {
    if |s| < 2 || CopyClosed(s) { ClosedIfCopyClosed(d, s); }
    if Closed(d) && |s| >= 2 {
      forall i | 0 <= i < |s| ensures Trunc(s[i]) in s { ChunkNamed(d, s, i); }
    }
  }

  lemma {:induction false} ClosedIfCopyClosed(d: Databases, s: seq<Fingerprint>)
    requires Counted(d, s) && (|s| < 2 || CopyClosed(s))
    ensures Closed(d)
  {
    forall f: Fingerprint, e | e in Neighbours(d.left, f) ensures e.key in d.freq { LeftNeighbourCounted(d, s, f, e); }
    forall f: Fingerprint, e | e in Neighbours(d.right, f)
      ensures e.key in d.freq
    {
      RightNeighbourCounted(d, s, f, e);
    }
  }

  lemma {:induction false} LeftNeighbourCounted(d: Databases, s: seq<Fingerprint>, f: Fingerprint, e: Entry)
    requires Counted(d, s) && (|s| < 2 || CopyClosed(s)) && e in Neighbours(d.left, f)
    ensures e.key in d.freq
  {
    CountedNeighbours(d, s, f);
    LeftNames(s, f, e.key);
    var i := BeforeWitness(s, e.key, f);
  }

  lemma {:induction false} RightNeighbourCounted(d: Databases, s: seq<Fingerprint>, f: Fingerprint, e: Entry)
    requires Counted(d, s) && (|s| < 2 || CopyClosed(s)) && e in Neighbours(d.right, f)
    ensures e.key in d.freq
  {
    CountedNeighbours(d, s, f);
    RightNames(s, f, e.key);
    var i := AfterWitness(s, f, e.key);
  }

  lemma {:induction false} ChunkNamed(d: Databases, s: seq<Fingerprint>, i: nat)
    requires Counted(d, s) && Closed(d) && |s| >= 2 && i < |s|
    ensures Trunc(s[i]) in s
  {
    var k := Trunc(s[i]);
    if i + 1 < |s| {
      PairCounted(s, i);
      CountedNeighbours(d, s, s[i + 1]);
      LeftNames(s, s[i + 1], k);
      var e :| e in LeftEntries(s, s[i + 1]) && e.key == k;
      assert e in Neighbours(d.left, s[i + 1]);
    } else {
      PairCounted(s, i - 1);
      CountedNeighbours(d, s, s[i - 1]);
      RightNames(s, s[i - 1], k);
      var e :| e in RightEntries(s, s[i - 1]) && e.key == k;
      assert e in Neighbours(d.right, s[i - 1]);
    }
  }
}
