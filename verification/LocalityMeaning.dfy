/** One round of the worklist in terms of its queues: what it adds, in which order, and what it never misses. */
module LocalityMeaning {
  import opened Integers
  import opened Bytes
  import opened Records
  import opened LocalityCount
  import opened LocalityAttack

  // ---------------------------------------------------------------- candidates

  /** Entries from the least frequent up, none more frequent than one left behind. */
  ghost predicate Beneath(es: seq<Entry>, left: multiset<Entry>) {
    && (forall i, j :: 0 <= i < j < |es| ==> es[i].count <= es[j].count)
    && (forall i, y :: 0 <= i < |es| && y in left ==> es[i].count <= y.count)
  }

  /** The least frequent entries of a bag, from the least frequent up. */
  ghost predicate Lowest(bag: multiset<Entry>, es: seq<Entry>) {
    multiset(es) <= bag && Beneath(es, bag - multiset(es))
  }

  lemma {:induction false} BeneathNext(x: Entry, es: seq<Entry>, left: multiset<Entry>)
    requires Beneath(es, left) && forall y :: y in multiset(es) + left ==> x.count <= y.count
    ensures Beneath([x] + es, left)
  {
    forall i | 0 <= i < |es| ensures x.count <= es[i].count { assert es[i] in multiset(es); }
  }

  lemma {:induction false} LowestNext(bag: multiset<Entry>, x: Entry, es: seq<Entry>)
    requires Least(bag, x) && Lowest(bag - multiset{x}, es)
    ensures Lowest(bag, [x] + es)
  {
    var rest, left := bag - multiset{x}, bag - multiset{x} - multiset(es);
    assert multiset([x] + es) == multiset{x} + multiset(es);
    assert left == bag - multiset([x] + es) && multiset(es) + left == rest;
    BeneathNext(x, es, left);
  }

  lemma {:induction false} PairsCons(p: Pair, more: seq<Pair>)
    ensures Origins([p] + more) == [p.o] + Origins(more) && Targets([p] + more) == [p.t] + Targets(more)
  {
  }

  lemma {:induction false} PairedFirst(pq: multiset<Entry>, pc: multiset<Entry>, p: Pair, more: seq<Pair>)
    requires Paired(pq, pc, [p] + more)
    ensures Least(pq, p.o) && Least(pc, p.t) && Paired(pq - multiset{p.o}, pc - multiset{p.t}, more)
    ensures |pq - multiset{p.o}| == |pq| - 1 && |pc - multiset{p.t}| == |pc| - 1
  {
    assert ([p] + more)[1..] == more;
  }

  lemma {:induction false} NothingLowest(bag: multiset<Entry>)
    ensures Lowest(bag, [])
  {
  }

  /** As many pairs as the smaller bag has entries. */
  lemma {:induction false} PairedSize(pq: multiset<Entry>, pc: multiset<Entry>, pairs: seq<Pair>)
    requires Paired(pq, pc, pairs)
    ensures |pairs| == Min(|pq|, |pc|)
    decreases |pairs|
  {
    if pairs != [] {
      var p, more := pairs[0], pairs[1..];
      assert pairs == [p] + more;
      PairedFirst(pq, pc, p, more);
      PairedSize(pq - multiset{p.o}, pc - multiset{p.t}, more);
    }
  }

  /** The pairs are the least frequent entries of both bags, in step. */
  lemma {:induction false} PairedLowest(pq: multiset<Entry>, pc: multiset<Entry>, pairs: seq<Pair>)
    requires Paired(pq, pc, pairs)
    ensures Lowest(pq, Origins(pairs)) && Lowest(pc, Targets(pairs))
    decreases |pairs|
  {
    if pairs == [] {
      NothingLowest(pq);
      NothingLowest(pc);
      assert Origins(pairs) == [] && Targets(pairs) == [];
    } else {
      var p, more := pairs[0], pairs[1..];
      assert pairs == [p] + more;
      PairedFirst(pq, pc, p, more);
      PairedLowest(pq - multiset{p.o}, pc - multiset{p.t}, more);
      LowestPair(pq, pc, p, more);
    }
  }

  lemma {:induction false} LowestPair(pq: multiset<Entry>, pc: multiset<Entry>, p: Pair, more: seq<Pair>)
    requires Least(pq, p.o) && Lowest(pq - multiset{p.o}, Origins(more))
    requires Least(pc, p.t) && Lowest(pc - multiset{p.t}, Targets(more))
    ensures Lowest(pq, Origins([p] + more)) && Lowest(pc, Targets([p] + more))
  {
    PairsCons(p, more);
    LowestNext(pq, p.o, Origins(more));
    LowestNext(pc, p.t, Targets(more));
  }

  /** The candidates of two records: as many as k and both records allow, the more frequent neighbours later, on either
      side. */
  lemma {:induction false} CandidatesInStep(eo: seq<Entry>, et: seq<Entry>, k: nat, pairs: seq<Pair>)
    requires Candidates(eo, et, k, pairs)
    ensures |pairs| == Min(k, Min(|eo|, |et|))
    ensures forall i :: 0 <= i < |pairs| ==> pairs[i].o in eo && pairs[i].t in et
    ensures forall i, j :: 0 <= i < j < |pairs| ==> Ordered(pairs[i], pairs[j])
  {
    var pq, pc :| TopK(multiset(eo), k, pq) && TopK(multiset(et), k, pc) && Paired(pq, pc, pairs);
    PairedSize(pq, pc, pairs);
    PairedLowest(pq, pc, pairs);
    SizesOfTop(eo, k, pq);
    SizesOfTop(et, k, pc);
    forall i, j | 0 <= i < j < |pairs| ensures Ordered(pairs[i], pairs[j]) {
      assert Origins(pairs)[i].count <= Origins(pairs)[j].count;
      assert Targets(pairs)[i].count <= Targets(pairs)[j].count;
    }
    forall i | 0 <= i < |pairs| ensures pairs[i].o in eo && pairs[i].t in et { CandidateMembers(eo, et, k, pairs, i); }
  }

  /** Neither neighbour of the first pair is more frequent than that of the second. */
  predicate Ordered(p: Pair, q: Pair) { p.o.count <= q.o.count && p.t.count <= q.t.count }

  lemma {:induction false} SizesOfTop(es: seq<Entry>, k: nat, bag: multiset<Entry>)
    requires TopK(multiset(es), k, bag)
    ensures |bag| == Min(k, |es|)
  {
    assert |multiset(es)| == |es|;
  }

  /** A neighbour that is no candidate, though fewer than k neighbours of its side are, has another side to thank for
      it: all entries of the shorter record are candidates. */
  lemma {:induction false} ShorterRecordMatched(eo: seq<Entry>, et: seq<Entry>, k: nat, pairs: seq<Pair>)
    requires Candidates(eo, et, k, pairs) && |et| <= k && |et| <= |eo|
    ensures multiset(Targets(pairs)) == multiset(et)
  {
    var pq, pc :| TopK(multiset(eo), k, pq) && TopK(multiset(et), k, pc) && Paired(pq, pc, pairs);
    PairedSize(pq, pc, pairs);
    PairedLowest(pq, pc, pairs);
    SizesOfTop(eo, k, pq);
    SizesOfTop(et, k, pc);
    SameSize(pc, multiset(et));
    SameSize(multiset(Targets(pairs)), pc);
  }

  lemma {:induction false} SameSize(a: multiset<Entry>, b: multiset<Entry>)
    requires a <= b && |a| == |b|
    ensures a == b
  {
    assert |b - a| == 0;
    assert b == a + (b - a);
  }

  // ---------------------------------------------------------------- what is taken from the stack

  /** The topmost pair for an unrecorded key. */
  predicate Topmost(uniq: set<Fingerprint>, pairs: seq<Pair>, j: int) {
    0 <= j < |pairs| && pairs[j].t.key !in uniq && forall i :: j < i < |pairs| ==> pairs[i].t.key != pairs[j].t.key
  }

  /** These positions of the stack, from the top down, are those of the topmost pairs, except that below some position
      there may be more if there is no room. */
  ghost predicate Picks(room: int, uniq: set<Fingerprint>, pairs: seq<Pair>, at: seq<int>) {
    && (forall i :: 0 <= i < |at| ==> Topmost(uniq, pairs, at[i]))
    && (forall i, j :: 0 <= i < j < |at| ==> at[i] > at[j])
    && (forall j :: Topmost(uniq, pairs, j) ==> j in at || (|at| >= room && forall i :: 0 <= i < |at| ==> at[i] > j))
    && (|at| <= room || at == [])
  }

  /** The pairs at these positions. */
  ghost predicate At(pairs: seq<Pair>, at: seq<int>, r: seq<Pair>) {
    |at| == |r| && forall i :: 0 <= i < |at| ==> 0 <= at[i] < |pairs| && r[i] == pairs[at[i]]
  }

  lemma {:induction false} AtNext(pairs: seq<Pair>, at: seq<int>, r: seq<Pair>)
    requires pairs != [] && At(pairs[..|pairs| - 1], at, r)
    ensures At(pairs, at, r) && At(pairs, [|pairs| - 1] + at, [pairs[|pairs| - 1]] + r)
  {
  }

  /** What is taken: from the top of the stack the topmost pair for every unrecorded key, as long as there is room. */
  lemma {:induction false} TakenPicks(limit: nat, size: nat, uniq: set<Fingerprint>, pairs: seq<Pair>)
    returns (at: seq<int>)
    ensures Picks(limit - size, uniq, pairs, at) && At(pairs, at, Taken(limit, size, uniq, pairs))
    decreases |pairs|
  {
    at := [];
    if pairs != [] {
      var p, rest := pairs[|pairs| - 1], pairs[..|pairs| - 1];
      if p.t.key in uniq {
        at := TakenPicks(limit, size, uniq, rest);
        PicksPassed(limit - size, uniq, pairs, at);
        AtNext(pairs, at, Taken(limit, size, uniq, rest));
      } else if size + 1 <= limit {
        var more := TakenPicks(limit, size + 1, uniq + {p.t.key}, rest);
        at := [|pairs| - 1] + more;
        PicksNext(limit - size, uniq, pairs, more);
        AtNext(pairs, more, Taken(limit, size + 1, uniq + {p.t.key}, rest));
      }
    }
  }

  lemma {:induction false} PicksPassed(room: int, uniq: set<Fingerprint>, pairs: seq<Pair>, at: seq<int>)
    requires pairs != [] && pairs[|pairs| - 1].t.key in uniq && Picks(room, uniq, pairs[..|pairs| - 1], at)
    ensures Picks(room, uniq, pairs, at)
  {
    var rest := pairs[..|pairs| - 1];
    forall j ensures Topmost(uniq, pairs, j) <==> Topmost(uniq, rest, j) {}
  }

  lemma {:induction false} PicksNext(room: int, uniq: set<Fingerprint>, pairs: seq<Pair>, more: seq<int>)
    requires pairs != [] && pairs[|pairs| - 1].t.key !in uniq && room >= 1
    requires Picks(room - 1, uniq + {pairs[|pairs| - 1].t.key}, pairs[..|pairs| - 1], more)
    ensures Picks(room, uniq, pairs, [|pairs| - 1] + more)
  {
    var n, rest, key := |pairs| - 1, pairs[..|pairs| - 1], pairs[|pairs| - 1].t.key;
    var at := [n] + more;
    forall j ensures Topmost(uniq, pairs, j) <==> j == n || Topmost(uniq + {key}, rest, j) {}
    forall i | 0 <= i < |at| ensures Topmost(uniq, pairs, at[i]) && (i > 0 ==> at[i] < n) {
      if i > 0 { assert at[i] == more[i - 1]; }
    }
    forall i, j | 0 <= i < j < |at| ensures at[i] > at[j] {
      if i > 0 { assert at[i] == more[i - 1] && at[j] == more[j - 1]; }
    }
    forall j | Topmost(uniq, pairs, j) && j !in at ensures |at| >= room && forall i :: 0 <= i < |at| ==> at[i] > j {
      assert at[0] == n && j !in more;
      assert Topmost(uniq + {key}, rest, j);
    }
  }

  /** With room in the queue, every candidate's key ends up recorded. */
  lemma {:induction false} TakenRecords(limit: nat, size: nat, uniq: set<Fingerprint>, pairs: seq<Pair>, i: nat)
    requires size + |pairs| <= limit && i < |pairs|
    ensures pairs[i].t.key in uniq + KeySet(Targets(Taken(limit, size, uniq, pairs)))
    decreases |pairs|
  {
    var p, rest := pairs[|pairs| - 1], pairs[..|pairs| - 1];
    if p.t.key in uniq {
      if i < |rest| { TakenRecords(limit, size, uniq, rest, i); }
    } else {
      var more := Taken(limit, size + 1, uniq + {p.t.key}, rest);
      TargetsCons(p, more);
      if i < |rest| { TakenRecords(limit, size + 1, uniq + {p.t.key}, rest, i); }
    }
  }

  lemma {:induction false} TargetsCons(p: Pair, more: seq<Pair>)
    ensures KeySet(Targets([p] + more)) == {p.t.key} + KeySet(Targets(more))
  {
    assert Targets([p] + more) == [p.t] + Targets(more);
  }

  // ---------------------------------------------------------------- a whole round

  /** Pairs of neighbours from two records, from the most frequent down, with distinct and unrecorded target keys. */
  ghost predicate NewPairs(uniq: set<Fingerprint>, eo: seq<Entry>, et: seq<Entry>, ao: seq<Entry>, at: seq<Entry>) {
    && |ao| == |at| && NoDuplicates(Keys(at))
    && (forall i :: 0 <= i < |ao| ==> ao[i] in eo && at[i] in et && at[i].key !in uniq)
    && (forall i, j :: 0 <= i < j < |ao| ==> ao[i].count >= ao[j].count && at[i].count >= at[j].count)
  }

  lemma {:induction false} TakenNewPairs(limit: nat, size: nat, uniq: set<Fingerprint>, eo: seq<Entry>, et: seq<Entry>,
                                         k: nat, pairs: seq<Pair>, r: seq<Pair>)
    requires Candidates(eo, et, k, pairs) && r == Taken(limit, size, uniq, pairs)
    ensures NewPairs(uniq, eo, et, Origins(r), Targets(r)) && (r != [] ==> size + |r| <= limit)
  {
    var at := TakenPicks(limit, size, uniq, pairs);
    TakenFacts(limit, size, uniq, pairs);
    CandidatesInStep(eo, et, k, pairs);
    forall i, j | 0 <= i < j < |r| ensures r[i].o.count >= r[j].o.count && r[i].t.count >= r[j].t.count {
      assert at[i] > at[j] && Ordered(pairs[at[j]], pairs[at[i]]);
    }
  }

  /** The second state is the first with these new pairs at the end of its queues and their target keys recorded. */
  ghost predicate Enqueued(limit: nat, w: Work, eo: seq<Entry>, et: seq<Entry>, ao: seq<Entry>, at: seq<Entry>,
                           w': Work) {
    && w' == Work(w.qo + ao, w.qt + at, w.uniq + KeySet(at), w.correct)
    && NewPairs(w.uniq, eo, et, ao, at) && (ao != [] ==> |w.qo| + |ao| <= limit)
  }

  lemma {:induction false} ExtendedByNewPairs(limit: nat, w: Work, eo: seq<Entry>, et: seq<Entry>, k: nat,
                                              pairs: seq<Pair>)
    returns (ao: seq<Entry>, at: seq<Entry>)
    requires Candidates(eo, et, k, pairs)
    ensures Enqueued(limit, w, eo, et, ao, at, Extended(limit, w, pairs))
  {
    var r := Taken(limit, |w.qo|, w.uniq, pairs);
    TakenNewPairs(limit, |w.qo|, w.uniq, eo, et, k, pairs, r);
    ao, at := Origins(r), Targets(r);
  }

  /** A round, part by part: it counts the front pair if it is one chunk; adds new pairs of its left neighbours, as far
      as there is room, and then of its right neighbours; and removes it. */
  ghost predicate Parts(st: Settings, o: Databases, t: Databases, w: Work, c: Work, l: Work, e: Work, w': Work,
                        lo: seq<Entry>, lt: seq<Entry>, ro: seq<Entry>, rt: seq<Entry>) {
    w.qo != [] && w.qt != [] &&
    var f, g := w.qo[0].key, w.qt[0].key;
    && c == Work(w.qo, w.qt, w.uniq, if f == g then w.correct + 1 else w.correct)
    && Enqueued(st.limit, c, Neighbours(o.left, f), Neighbours(t.left, g), lo, lt, l)
    && Enqueued(st.limit, l, Neighbours(o.right, f), Neighbours(t.right, g), ro, rt, e)
    && e.qo == [w.qo[0]] + w'.qo && e.qt == [w.qt[0]] + w'.qt && e.uniq == w'.uniq && e.correct == w'.correct
  }

  /** Every round has these parts. */
  lemma {:induction false} RoundMeaning(st: Settings, o: Databases, t: Databases, w: Work, w': Work)
    requires Round(st, o, t, w, w')
    ensures exists c, l, e, lo, lt, ro, rt :: Parts(st, o, t, w, c, l, e, w', lo, lt, ro, rt)
  {
    var ls, rs := RoundChoice(st, o, t, w, w');
    var f, g, c := w.qo[0].key, w.qt[0].key, Checked(w);
    var l := Extended(st.limit, c, ls);
    var e := Extended(st.limit, l, rs);
    var lo, lt := ExtendedByNewPairs(st.limit, c, Neighbours(o.left, f), Neighbours(t.left, g), st.k, ls);
    var ro, rt := ExtendedByNewPairs(st.limit, l, Neighbours(o.right, f), Neighbours(t.right, g), st.k, rs);
    FrontRemoved(w.qo, lo, ro);
    FrontRemoved(w.qt, lt, rt);
    assert Parts(st, o, t, w, c, l, e, w', lo, lt, ro, rt);
  }

  lemma {:induction false} FrontRemoved(q: seq<Entry>, a: seq<Entry>, b: seq<Entry>)
    requires q != []
    ensures q + a + b == [q[0]] + (q + a + b)[1..]
  {
  }

  /** Candidates are all recorded where the target record is no longer than the auxiliary one and k, and there is
      room. */
  lemma {:induction false} AllRecorded(limit: nat, w: Work, eo: seq<Entry>, et: seq<Entry>, k: nat, pairs: seq<Pair>,
                                       e: Entry)
    requires Candidates(eo, et, k, pairs) && |et| <= k && |et| <= |eo| && |w.qo| + k <= limit && e in et
    ensures e.key in Extended(limit, w, pairs).uniq
  {
    ShorterRecordMatched(eo, et, k, pairs);
    assert e in multiset(et) && e in Targets(pairs);
    var i :| 0 <= i < |pairs| && Targets(pairs)[i] == e;
    CandidatesInStep(eo, et, k, pairs);
    TakenRecords(limit, |w.qo|, w.uniq, pairs, i);
  }

  lemma {:induction false} RecordedStay(limit: nat, w: Work, eo: seq<Entry>, et: seq<Entry>, k: nat, pairs: seq<Pair>)
    requires Candidates(eo, et, k, pairs)
    ensures w.uniq <= Extended(limit, w, pairs).uniq && |Extended(limit, w, pairs).qo| <= |w.qo| + k
  {
    var at := TakenPicks(limit, |w.qo|, w.uniq, pairs);
    DescendingLength(at, |pairs|);
    CandidatesInStep(eo, et, k, pairs);
  }

  lemma {:induction false} DescendingLength(at: seq<int>, n: nat)
    requires (forall i :: 0 <= i < |at| ==> 0 <= at[i] < n) && forall i, j :: 0 <= i < j < |at| ==> at[i] > at[j]
    ensures |at| <= n
    decreases n
  {
    if at != [] {
      forall i | 0 <= i < |at[1..]| ensures 0 <= at[1..][i] < at[0] { assert at[1..][i] == at[i + 1]; }
      DescendingLength(at[1..], at[0]);
    }
  }

  /** The keys of a target record that is no longer than the auxiliary one and than k are all among these. */
  ghost predicate NoneMissed(k: nat, eo: seq<Entry>, et: seq<Entry>, uniq: set<Fingerprint>) {
    |et| <= k && |et| <= |eo| ==> forall e :: e in et ==> e.key in uniq
  }

  lemma {:induction false} SideMissesNone(limit: nat, w: Work, eo: seq<Entry>, et: seq<Entry>, k: nat, pairs: seq<Pair>)
    requires Candidates(eo, et, k, pairs) && |w.qo| + k <= limit
    ensures NoneMissed(k, eo, et, Extended(limit, w, pairs).uniq)
  {
    if |et| <= k && |et| <= |eo| {
      forall e | e in et ensures e.key in Extended(limit, w, pairs).uniq { AllRecorded(limit, w, eo, et, k, pairs, e); }
    }
  }

  /** Where the queue has room for 2k more pairs, a round misses no neighbour of a target chunk on a side where its
      record is short enough. */
  lemma {:induction false} NoNeighbourMissed(st: Settings, o: Databases, t: Databases, w: Work, w': Work)
    requires Round(st, o, t, w, w') && |w.qo| + 2 * st.k <= st.limit
    ensures NoneMissed(st.k, Neighbours(o.left, w.qo[0].key), Neighbours(t.left, w.qt[0].key), w'.uniq)
    ensures NoneMissed(st.k, Neighbours(o.right, w.qo[0].key), Neighbours(t.right, w.qt[0].key), w'.uniq)
  {
    var ls, rs := RoundChoice(st, o, t, w, w');
    var f, g, c := w.qo[0].key, w.qt[0].key, Checked(w);
    var l := Extended(st.limit, c, ls);
    RecordedStay(st.limit, c, Neighbours(o.left, f), Neighbours(t.left, g), st.k, ls);
    RecordedStay(st.limit, l, Neighbours(o.right, f), Neighbours(t.right, g), st.k, rs);
    SideMissesNone(st.limit, c, Neighbours(o.left, f), Neighbours(t.left, g), st.k, ls);
    SideMissesNone(st.limit, l, Neighbours(o.right, f), Neighbours(t.right, g), st.k, rs);
  }
}
