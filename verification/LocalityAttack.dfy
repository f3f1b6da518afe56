/** The worklist that infers chunks from neighbours of chunks already inferred, each target chunk at most once. */
module LocalityAttack {
  import opened Integers
  import opened Bytes
  import opened Records
  import opened LocalityCount

  type Store = map<Fingerprint, seq<Byte>>

  /** The three stores of the counting program. */
  datatype Databases = Databases(freq: Store, left: Store, right: Store)

  /** The entries of a neighbour record; none if there is no record. */
  function Neighbours(store: Store, f: Fingerprint): seq<Entry> {
    if f in store then Unpack(store[f]) else []
  }

  // ---------------------------------------------------------------- the most frequent entries

  /** No entry of the bag is less frequent than x. */
  predicate Least(bag: multiset<Entry>, x: Entry) {
    x in bag && forall y :: y in bag ==> x.count <= y.count
  }

  lemma {:induction false} LeastExists(bag: multiset<Entry>) returns (x: Entry)
    requires |bag| > 0
    ensures Least(bag, x)
    decreases |bag|
  {
    var e :| e in bag;
    x := e;
    var rest := bag - multiset{e};
    if |rest| > 0 {
      var y := LeastExists(rest);
      if y.count < e.count { x := y; }
      assert forall z :: z in bag ==> z == e || z in rest;
    } else {
      assert forall z :: z in bag ==> z == e || z in rest;
    }
  }

  /** The bag holds the k most frequent of the entries: as many as possible, none less frequent than one left out. */
  ghost predicate TopK(es: multiset<Entry>, k: nat, bag: multiset<Entry>) {
    bag <= es && |bag| == Min(k, |es|) && forall x, y :: x in bag && y in es - bag ==> x.count >= y.count
  }

  /** Offer an entry to a bounded bag whose least frequent entry is `least`. */
  function Offer(bag: multiset<Entry>, k: nat, e: Entry, least: Entry): multiset<Entry> {
    if |bag| < k then bag + multiset{e}
    else if e.count > least.count then bag - multiset{least} + multiset{e}
    else bag
  }

  lemma {:induction false} OfferKeepsTopK(es: multiset<Entry>, k: nat, bag: multiset<Entry>, e: Entry, least: Entry)
    requires TopK(es, k, bag) && k >= 1 && (|bag| >= k ==> Least(bag, least))
    ensures TopK(es + multiset{e}, k, Offer(bag, k, e, least))
  {
    if |bag| < k {
      OfferAdds(es, k, bag, e);
    } else if e.count > least.count {
      OfferReplaces(es, k, bag, e, least);
    } else {
      OfferRefuses(es, k, bag, e, least);
    }
  }

  lemma {:induction false} OfferAdds(es: multiset<Entry>, k: nat, bag: multiset<Entry>, e: Entry)
    requires TopK(es, k, bag) && |bag| < k
    ensures TopK(es + multiset{e}, k, bag + multiset{e})
  {
    assert |es - bag| == |es| - |bag|;
    assert es - bag == multiset{};
    assert es + multiset{e} - (bag + multiset{e}) == multiset{};
  }

  lemma {:induction false} OfferRefuses(es: multiset<Entry>, k: nat, bag: multiset<Entry>, e: Entry, least: Entry)
    requires TopK(es, k, bag) && |bag| == k && Least(bag, least) && e.count <= least.count
    ensures TopK(es + multiset{e}, k, bag)
  {
    assert es + multiset{e} - bag == (es - bag) + multiset{e};
  }

  lemma {:induction false} OfferReplaces(es: multiset<Entry>, k: nat, bag: multiset<Entry>, e: Entry, least: Entry)
    requires TopK(es, k, bag) && |bag| == k && Least(bag, least) && e.count > least.count
    ensures TopK(es + multiset{e}, k, bag - multiset{least} + multiset{e})
  {
    var bag' := bag - multiset{least} + multiset{e};
    assert es + multiset{e} - bag' == (es - bag) + multiset{least};
    forall x | x in bag' ensures x.count >= least.count { assert x in bag || x == e; }
  }

  // ---------------------------------------------------------------- pairing two bags

  /** An entry of the auxiliary side with one of the target side. */
  datatype Pair = Pair(o: Entry, t: Entry)

  /** Both bags are emptied from the least frequent entry up, in step, until one runs out. */
  ghost predicate Paired(pq: multiset<Entry>, pc: multiset<Entry>, pairs: seq<Pair>)
    decreases |pairs|
  {
    if pairs == [] then |pq| == 0 || |pc| == 0
    else
      && Least(pq, pairs[0].o) && Least(pc, pairs[0].t)
      && Paired(pq - multiset{pairs[0].o}, pc - multiset{pairs[0].t}, pairs[1..])
  }

  lemma {:induction false} PairedMembers(pq: multiset<Entry>, pc: multiset<Entry>, pairs: seq<Pair>, i: nat)
    requires Paired(pq, pc, pairs) && i < |pairs|
    ensures pairs[i].o in pq && pairs[i].t in pc
    decreases |pairs|
  {
    if i > 0 { PairedMembers(pq - multiset{pairs[0].o}, pc - multiset{pairs[0].t}, pairs[1..], i - 1); }
  }

  /** The candidate pairs that two neighbour records give. */
  ghost predicate Candidates(eo: seq<Entry>, et: seq<Entry>, k: nat, pairs: seq<Pair>) {
    exists pq, pc :: TopK(multiset(eo), k, pq) && TopK(multiset(et), k, pc) && Paired(pq, pc, pairs)
  }

  lemma {:induction false} CandidateMembers(eo: seq<Entry>, et: seq<Entry>, k: nat, pairs: seq<Pair>, i: nat)
    requires Candidates(eo, et, k, pairs) && i < |pairs|
    ensures pairs[i].o in eo && pairs[i].t in et
  {
    var pq, pc :| TopK(multiset(eo), k, pq) && TopK(multiset(et), k, pc) && Paired(pq, pc, pairs);
    PairedMembers(pq, pc, pairs, i);
  }

  // ---------------------------------------------------------------- the worklist

  /** The two queues, the keys recorded once and for all, and the number of correct inferences. */
  datatype Work = Work(qo: seq<Entry>, qt: seq<Entry>, uniq: set<Fingerprint>, correct: nat)

  /** The pairs that are enqueued: from the top of the stack, those with an unrecorded target key, while the queue has
      room. */
  function Taken(limit: nat, size: nat, uniq: set<Fingerprint>, pairs: seq<Pair>): (r: seq<Pair>)
    decreases |pairs|
  {
    if pairs == [] then []
    else
      var p, rest := pairs[|pairs| - 1], pairs[..|pairs| - 1];
      if p.t.key in uniq then Taken(limit, size, uniq, rest)
      else if size + 1 > limit then []
      else [p] + Taken(limit, size + 1, uniq + {p.t.key}, rest)
  }

  function Origins(ps: seq<Pair>): (r: seq<Entry>)
    ensures |r| == |ps|
  {
    seq(|ps|, i requires 0 <= i < |ps| => ps[i].o)
  }

  function Targets(ps: seq<Pair>): (r: seq<Entry>)
    ensures |r| == |ps|
  {
    seq(|ps|, i requires 0 <= i < |ps| => ps[i].t)
  }

  function Keys(es: seq<Entry>): (r: seq<Fingerprint>)
    ensures |r| == |es|
  {
    seq(|es|, i requires 0 <= i < |es| => es[i].key)
  }

  function KeySet(es: seq<Entry>): set<Fingerprint> {
    set e | e in es :: e.key
  }

  ghost predicate NoDuplicates(s: seq<Fingerprint>) {
    forall i, j :: 0 <= i < j < |s| ==> s[i] != s[j]
  }

  lemma {:induction false} TakenNew(limit: nat, size: nat, uniq: set<Fingerprint>, pairs: seq<Pair>)
    ensures var r := Taken(limit, size, uniq, pairs);
      && (forall i :: 0 <= i < |r| ==> r[i] in pairs && r[i].t.key !in uniq)
      && (size + |r| <= limit || r == [])
    decreases |pairs|
  {
    if pairs != [] {
      var p, rest := pairs[|pairs| - 1], pairs[..|pairs| - 1];
      if p.t.key in uniq {
        TakenNew(limit, size, uniq, rest);
      } else if size + 1 <= limit {
        TakenNew(limit, size + 1, uniq + {p.t.key}, rest);
      }
    }
  }

  lemma {:induction false} ConsDistinct(p: Pair, more: seq<Pair>)
    requires NoDuplicates(Keys(Targets(more))) && forall i :: 0 <= i < |more| ==> more[i].t.key != p.t.key
    ensures NoDuplicates(Keys(Targets([p] + more)))
  {
    var ks, r := Keys(Targets(more)), [p] + more;
    assert Keys(Targets(r)) == [p.t.key] + ks;
  }

  lemma {:induction false} TakenDistinct(limit: nat, size: nat, uniq: set<Fingerprint>, pairs: seq<Pair>)
    ensures NoDuplicates(Keys(Targets(Taken(limit, size, uniq, pairs))))
    decreases |pairs|
  {
    if pairs != [] {
      var p, rest := pairs[|pairs| - 1], pairs[..|pairs| - 1];
      if p.t.key in uniq {
        TakenDistinct(limit, size, uniq, rest);
      } else if size + 1 <= limit {
        TakenDistinct(limit, size + 1, uniq + {p.t.key}, rest);
        TakenNew(limit, size + 1, uniq + {p.t.key}, rest);
        ConsDistinct(p, Taken(limit, size + 1, uniq + {p.t.key}, rest));
      }
    }
  }

  /** What is taken comes from the stack, is new, is distinct, and fits into the queue. */
  lemma {:induction false} TakenFacts(limit: nat, size: nat, uniq: set<Fingerprint>, pairs: seq<Pair>)
    ensures var r := Taken(limit, size, uniq, pairs);
      && (forall i :: 0 <= i < |r| ==> r[i] in pairs && r[i].t.key !in uniq)
      && NoDuplicates(Keys(Targets(r)))
      && (size + |r| <= limit || r == [])
  {
    TakenNew(limit, size, uniq, pairs);
    TakenDistinct(limit, size, uniq, pairs);
  }

  /** Enqueue pairs and record their target keys. */
  function Pushed(w: Work, r: seq<Pair>): Work {
    w.(qo := w.qo + Origins(r), qt := w.qt + Targets(r), uniq := w.uniq + KeySet(Targets(r)))
  }

  /** Enqueue what is taken from the candidates. */
  function Extended(limit: nat, w: Work, pairs: seq<Pair>): Work {
    Pushed(w, Taken(limit, |w.qo|, w.uniq, pairs))
  }

  /** The settings: how many neighbours to consider, and how long the queue may grow. */
  datatype Settings = Settings(k: nat, limit: nat)

  /** Count the front pair if it is a correct inference. */
  function Checked(w: Work): Work
    requires w.qo != [] && w.qt != []
  {
    if w.qo[0].key == w.qt[0].key then w.(correct := w.correct + 1) else w
  }

  /** One round for given candidates: check the front pair, extend by left and right neighbours, remove the front
      pair. */
  function Advanced(limit: nat, w: Work, ls: seq<Pair>, rs: seq<Pair>): Work
    requires w.qo != [] && w.qt != []
  {
    var e := Extended(limit, Extended(limit, Checked(w), ls), rs);
    e.(qo := e.qo[1..], qt := e.qt[1..])
  }

  /** A possible round of the main loop. */
  ghost predicate Round(st: Settings, o: Databases, t: Databases, w: Work, w': Work) {
    && w.qo != [] && w.qt != []
    && exists ls, rs ::
         && Candidates(Neighbours(o.left, w.qo[0].key), Neighbours(t.left, w.qt[0].key), st.k, ls)
         && Candidates(Neighbours(o.right, w.qo[0].key), Neighbours(t.right, w.qt[0].key), st.k, rs)
         && w' == Advanced(st.limit, w, ls, rs)
  }

  // ---------------------------------------------------------------- what every round keeps

  /** The target keys ever enqueued, in order: recorded, distinct, and ending with those still in the queue. */
  ghost predicate Once(w: Work, hist: seq<Fingerprint>) {
    && NoDuplicates(hist) && (forall f :: f in hist ==> f in w.uniq)
    && |w.qt| <= |hist| && Keys(w.qt) == hist[|hist| - |w.qt|..]
  }

  /** The keys the candidates add to the history. */
  function News(limit: nat, w: Work, pairs: seq<Pair>): seq<Fingerprint> {
    Keys(Targets(Taken(limit, |w.qo|, w.uniq, pairs)))
  }

  lemma {:induction false} KeysConcat(a: seq<Entry>, b: seq<Entry>)
    ensures Keys(a + b) == Keys(a) + Keys(b)
  {
  }

  lemma {:induction false} KeySetOfKeys(es: seq<Entry>, f: Fingerprint)
    ensures f in KeySet(es) <==> f in Keys(es)
  {
    if f in KeySet(es) {
      var e :| e in es && e.key == f;
      var i :| 0 <= i < |es| && es[i] == e;
      assert Keys(es)[i] == f;
    }
    if f in Keys(es) {
      var i :| 0 <= i < |es| && Keys(es)[i] == f;
      assert es[i] in es;
    }
  }

  /** No target key is enqueued twice. */
  lemma {:induction false} ExtendedOnce(limit: nat, w: Work, pairs: seq<Pair>, hist: seq<Fingerprint>)
    requires Once(w, hist)
    ensures Once(Extended(limit, w, pairs), hist + News(limit, w, pairs))
  {
    var r := Taken(limit, |w.qo|, w.uniq, pairs);
    var news := News(limit, w, pairs);
    var e, hist' := Extended(limit, w, pairs), hist + news;
    TakenFacts(limit, |w.qo|, w.uniq, pairs);
    KeysConcat(w.qt, Targets(r));
    assert hist'[|hist'| - |e.qt|..] == hist[|hist| - |w.qt|..] + news;
    forall f | f in hist' ensures f in e.uniq { KeySetOfKeys(Targets(r), f); }
    forall i, j | 0 <= i < j < |hist'| ensures hist'[i] != hist'[j] {
      if i < |hist| <= j {
        assert hist'[i] in hist && hist'[j] == r[j - |hist|].t.key;
      } else if |hist| <= i {
        assert news[i - |hist|] != news[j - |hist|];
      }
    }
  }

  /** The history after a round. */
  function NextHistory(limit: nat, w: Work, ls: seq<Pair>, rs: seq<Pair>, hist: seq<Fingerprint>): seq<Fingerprint>
    requires w.qo != [] && w.qt != []
  {
    hist + News(limit, Checked(w), ls) + News(limit, Extended(limit, Checked(w), ls), rs)
  }

  lemma {:induction false} AdvancedOnce(limit: nat, w: Work, ls: seq<Pair>, rs: seq<Pair>, hist: seq<Fingerprint>)
    requires Once(w, hist) && w.qo != [] && w.qt != []
    ensures Once(Advanced(limit, w, ls, rs), NextHistory(limit, w, ls, rs, hist))
  {
    var c := Checked(w);
    assert Once(c, hist);
    ExtendedOnce(limit, c, ls, hist);
    var l := Extended(limit, c, ls);
    ExtendedOnce(limit, l, rs, hist + News(limit, c, ls));
    var e, hist' := Extended(limit, l, rs), NextHistory(limit, w, ls, rs, hist);
    assert Keys(e.qt[1..]) == Keys(e.qt)[1..];
    assert hist'[|hist'| - |e.qt|..][1..] == hist'[|hist'| - |e.qt[1..]|..];
  }

  /** All target keys that a neighbour record can offer. */
  function NeighbourKeys(t: Databases): set<Fingerprint> {
    (set f, e | f in t.left && e in Unpack(t.left[f]) :: e.key)
      + (set f, e | f in t.right && e in Unpack(t.right[f]) :: e.key)
  }

  lemma {:induction false} NeighbourKeyOf(t: Databases, f: Fingerprint, e: Entry)
    ensures e in Neighbours(t.left, f) ==> e.key in NeighbourKeys(t)
    ensures e in Neighbours(t.right, f) ==> e.key in NeighbourKeys(t)
  {
  }

  /** Unrecorded neighbour keys plus the length of the target queue. */
  function Potential(keys: set<Fingerprint>, w: Work): nat { |keys - w.uniq| + |w.qt| }

  lemma {:induction false} DistinctSize(es: seq<Entry>)
    requires NoDuplicates(Keys(es))
    ensures |KeySet(es)| == |es|
    decreases |es|
  {
    if es == [] {
      assert KeySet(es) == {};
    } else {
      var front, x := es[..|es| - 1], es[|es| - 1];
      assert forall i :: 0 <= i < |front| ==> Keys(front)[i] == Keys(es)[i];
      DistinctSize(front);
      assert es == front + [x];
      assert KeySet(es) == KeySet(front) + {x.key};
      forall i | 0 <= i < |front| ensures Keys(front)[i] != x.key { assert Keys(es)[i] != Keys(es)[|es| - 1]; }
      KeySetOfKeys(front, x.key);
    }
  }

  lemma {:induction false} RemoveRecorded(keys: set<Fingerprint>, uniq: set<Fingerprint>, fresh': set<Fingerprint>)
    requires fresh' <= keys - uniq
    ensures |keys - (uniq + fresh')| == |keys - uniq| - |fresh'|
  {
    assert keys - (uniq + fresh') == (keys - uniq) - fresh';
  }

  /** Extending by neighbours of the target records leaves the potential as it is, keeps the queues in step and respects
      the limit. */
  lemma {:induction false} ExtendedMeasures(limit: nat, w: Work, pairs: seq<Pair>, keys: set<Fingerprint>)
    requires forall i :: 0 <= i < |pairs| ==> pairs[i].t.key in keys
    ensures var e := Extended(limit, w, pairs);
      && Potential(keys, e) == Potential(keys, w)
      && |e.qo| - |e.qt| == |w.qo| - |w.qt| && |e.qo| >= |w.qo|
      && |e.qo| <= Max(|w.qo|, limit) && e.correct == w.correct
  {
    var r := Taken(limit, |w.qo|, w.uniq, pairs);
    TakenFacts(limit, |w.qo|, w.uniq, pairs);
    DistinctSize(Targets(r));
    var ks := KeySet(Targets(r));
    forall f | f in ks ensures f in keys - w.uniq {
      KeySetOfKeys(Targets(r), f);
      var i :| 0 <= i < |r| && Keys(Targets(r))[i] == f;
      assert r[i] in pairs;
    }
    RemoveRecorded(keys, w.uniq, ks);
  }

  lemma {:induction false} AdvancedMeasures(limit: nat, w: Work, ls: seq<Pair>, rs: seq<Pair>, keys: set<Fingerprint>)
    requires w.qo != [] && w.qt != []
    requires forall i :: 0 <= i < |ls| ==> ls[i].t.key in keys
    requires forall i :: 0 <= i < |rs| ==> rs[i].t.key in keys
    ensures var w' := Advanced(limit, w, ls, rs);
      && Potential(keys, w') == Potential(keys, w) - 1
      && |w'.qo| - |w'.qt| == |w.qo| - |w.qt|
      && |w'.qo| < Max(|w.qo|, limit) + 1
      && w'.correct == w.correct + if w.qo[0].key == w.qt[0].key then 1 else 0
  {
    var c := Checked(w);
    var l := Extended(limit, c, ls);
    ExtendedMeasures(limit, c, ls, keys);
    ExtendedMeasures(limit, l, rs, keys);
  }

  /** Every round lowers the potential by one, keeps the difference of the queue lengths, and keeps the queue within the
      limit once it is. */
  lemma {:induction false} RoundMeasures(st: Settings, o: Databases, t: Databases, w: Work, w': Work)
    requires Round(st, o, t, w, w')
    ensures Potential(NeighbourKeys(t), w') == Potential(NeighbourKeys(t), w) - 1
    ensures |w'.qo| - |w'.qt| == |w.qo| - |w.qt|
    ensures |w'.qo| <= Max(|w.qo|, st.limit)
    ensures w'.correct == w.correct + if w.qo[0].key == w.qt[0].key then 1 else 0
  {
    var ls, rs := RoundChoice(st, o, t, w, w');
    CandidateKeys(o.left, t.left, st.k, w, ls, t);
    CandidateKeys(o.right, t.right, st.k, w, rs, t);
    AdvancedMeasures(st.limit, w, ls, rs, NeighbourKeys(t));
  }

  /** The candidates that a round was made with. */
  lemma {:induction false} RoundChoice(st: Settings, o: Databases, t: Databases, w: Work, w': Work)
    returns (ls: seq<Pair>, rs: seq<Pair>)
    requires Round(st, o, t, w, w')
    ensures Candidates(Neighbours(o.left, w.qo[0].key), Neighbours(t.left, w.qt[0].key), st.k, ls)
    ensures Candidates(Neighbours(o.right, w.qo[0].key), Neighbours(t.right, w.qt[0].key), st.k, rs)
    ensures w' == Advanced(st.limit, w, ls, rs)
  {
    ls, rs :|
      && Candidates(Neighbours(o.left, w.qo[0].key), Neighbours(t.left, w.qt[0].key), st.k, ls)
      && Candidates(Neighbours(o.right, w.qo[0].key), Neighbours(t.right, w.qt[0].key), st.k, rs)
      && w' == Advanced(st.limit, w, ls, rs);
  }

  lemma {:induction false} CandidateKeys(os: Store, ts: Store, k: nat, w: Work, pairs: seq<Pair>, t: Databases)
    requires w.qo != [] && w.qt != [] && (ts == t.left || ts == t.right)
    requires Candidates(Neighbours(os, w.qo[0].key), Neighbours(ts, w.qt[0].key), k, pairs)
    ensures forall i :: 0 <= i < |pairs| ==> pairs[i].t.key in NeighbourKeys(t)
  {
    forall i | 0 <= i < |pairs| ensures pairs[i].t.key in NeighbourKeys(t) {
      CandidateMembers(Neighbours(os, w.qo[0].key), Neighbours(ts, w.qt[0].key), k, pairs, i);
      NeighbourKeyOf(t, w.qt[0].key, pairs[i].t);
    }
  }

  // ---------------------------------------------------------------- what is inferred

  /** Neighbour records name these keys only. */
  ghost predicate NamesOnly(d: Databases, keys: set<Fingerprint>) {
    && (forall f: Fingerprint, e :: e in Neighbours(d.left, f) ==> e.key in keys)
    && (forall f: Fingerprint, e :: e in Neighbours(d.right, f) ==> e.key in keys)
  }

  /** Neighbour records name chunks of the frequency store only. */
  ghost predicate Closed(d: Databases) { NamesOnly(d, d.freq.Keys) }

  /** The auxiliary queue holds keys from `ok`, and only target keys from `tk` were ever enqueued. */
  ghost predicate Inside(ok: set<Fingerprint>, tk: set<Fingerprint>, w: Work, hist: seq<Fingerprint>) {
    (forall e :: e in w.qo ==> e.key in ok) && (forall f :: f in hist ==> f in tk)
  }

  /** The correct inferences so far are distinct keys of both sides, already taken from the queue. */
  ghost predicate Matched(ok: set<Fingerprint>, tk: set<Fingerprint>, w: Work, hist: seq<Fingerprint>,
                          matched: set<Fingerprint>) {
    && |matched| == w.correct && matched <= ok * tk
    && |w.qt| <= |hist| && forall f :: f in matched ==> f in hist[..|hist| - |w.qt|]
  }

  /** All that is known of a run so far. */
  ghost predicate Consistent(ok: set<Fingerprint>, tk: set<Fingerprint>, w: Work, hist: seq<Fingerprint>,
                             matched: set<Fingerprint>) {
    Once(w, hist) && Inside(ok, tk, w, hist) && Matched(ok, tk, w, hist, matched)
  }

  lemma {:induction false} ExtendedInside(ok: set<Fingerprint>, tk: set<Fingerprint>, limit: nat, w: Work,
                                          pairs: seq<Pair>, hist: seq<Fingerprint>)
    requires Inside(ok, tk, w, hist)
    requires forall i :: 0 <= i < |pairs| ==> pairs[i].o.key in ok && pairs[i].t.key in tk
    ensures Inside(ok, tk, Extended(limit, w, pairs), hist + News(limit, w, pairs))
  {
    var r := Taken(limit, |w.qo|, w.uniq, pairs);
    TakenFacts(limit, |w.qo|, w.uniq, pairs);
    forall e | e in Origins(r) ensures e.key in ok {
      var i :| 0 <= i < |r| && Origins(r)[i] == e;
      assert r[i] in pairs;
    }
    forall f | f in News(limit, w, pairs) ensures f in tk {
      var i :| 0 <= i < |r| && News(limit, w, pairs)[i] == f;
      assert r[i] in pairs;
    }
  }

  lemma {:induction false} CandidatesInside(o: Databases, t: Databases, ok: set<Fingerprint>, tk: set<Fingerprint>,
                                            os: Store, ts: Store, k: nat, f: Fingerprint, g: Fingerprint,
                                            pairs: seq<Pair>)
    requires NamesOnly(o, ok) && NamesOnly(t, tk) &&
      ((os == o.left && ts == t.left) || (os == o.right && ts == t.right))
    requires Candidates(Neighbours(os, f), Neighbours(ts, g), k, pairs)
    ensures forall i :: 0 <= i < |pairs| ==> pairs[i].o.key in ok && pairs[i].t.key in tk
  {
    forall i | 0 <= i < |pairs| ensures pairs[i].o.key in ok && pairs[i].t.key in tk {
      CandidateMembers(Neighbours(os, f), Neighbours(ts, g), k, pairs, i);
    }
  }

  lemma {:induction false} AdvancedInside(ok: set<Fingerprint>, tk: set<Fingerprint>, limit: nat, w: Work,
                                          ls: seq<Pair>, rs: seq<Pair>, hist: seq<Fingerprint>)
    requires Inside(ok, tk, w, hist) && w.qo != [] && w.qt != []
    requires forall i :: 0 <= i < |ls| ==> ls[i].o.key in ok && ls[i].t.key in tk
    requires forall i :: 0 <= i < |rs| ==> rs[i].o.key in ok && rs[i].t.key in tk
    ensures Inside(ok, tk, Advanced(limit, w, ls, rs), NextHistory(limit, w, ls, rs, hist))
  {
    var c := Checked(w);
    var l := Extended(limit, c, ls);
    assert Inside(ok, tk, c, hist);
    ExtendedInside(ok, tk, limit, c, ls, hist);
    ExtendedInside(ok, tk, limit, l, rs, hist + News(limit, c, ls));
  }

  function NextMatched(w: Work, matched: set<Fingerprint>): set<Fingerprint>
    requires w.qo != [] && w.qt != []
  {
    if w.qo[0].key == w.qt[0].key then matched + {w.qt[0].key} else matched
  }

  lemma {:induction false} AdvancedLengths(limit: nat, w: Work, ls: seq<Pair>, rs: seq<Pair>, hist: seq<Fingerprint>)
    requires w.qo != [] && w.qt != []
    ensures var (w', hist') := (Advanced(limit, w, ls, rs), NextHistory(limit, w, ls, rs, hist));
      && |hist'| - |w'.qt| == |hist| - |w.qt| + 1 && hist <= hist'
      && w'.correct == w.correct + if w.qo[0].key == w.qt[0].key then 1 else 0
  {
  }

  lemma {:induction false} AdvancedMatched(ok: set<Fingerprint>, tk: set<Fingerprint>, limit: nat, w: Work,
                                           ls: seq<Pair>, rs: seq<Pair>, hist: seq<Fingerprint>,
                                           matched: set<Fingerprint>)
    requires Consistent(ok, tk, w, hist, matched) && w.qo != [] && w.qt != []
    ensures Matched(ok, tk, Advanced(limit, w, ls, rs), NextHistory(limit, w, ls, rs, hist), NextMatched(w, matched))
  {
    AdvancedOnce(limit, w, ls, rs, hist);
    AdvancedLengths(limit, w, ls, rs, hist);
    var n := |hist| - |w.qt|;
    var hist' := NextHistory(limit, w, ls, rs, hist);
    var key := w.qt[0].key;
    assert Keys(w.qt)[0] == key == hist[n] == hist'[n];
    assert hist'[..n + 1] == hist[..n] + [key];
    assert key !in hist[..n];
    assert w.qo[0] in w.qo;
  }

  /** One round keeps a run consistent. */
  lemma {:induction false} RoundConsistent(st: Settings, o: Databases, t: Databases, ok: set<Fingerprint>,
                                           tk: set<Fingerprint>, w: Work, w': Work, hist: seq<Fingerprint>,
                                           matched: set<Fingerprint>)
    returns (hist': seq<Fingerprint>, matched': set<Fingerprint>)
    requires NamesOnly(o, ok) && NamesOnly(t, tk) && Round(st, o, t, w, w') && Consistent(ok, tk, w, hist, matched)
    ensures Consistent(ok, tk, w', hist', matched') && hist <= hist'
  {
    var ls, rs := RoundChoice(st, o, t, w, w');
    CandidatesInside(o, t, ok, tk, o.left, t.left, st.k, w.qo[0].key, w.qt[0].key, ls);
    CandidatesInside(o, t, ok, tk, o.right, t.right, st.k, w.qo[0].key, w.qt[0].key, rs);
    hist', matched' := NextHistory(st.limit, w, ls, rs, hist), NextMatched(w, matched);
    AdvancedOnce(st.limit, w, ls, rs, hist);
    AdvancedInside(ok, tk, st.limit, w, ls, rs, hist);
    AdvancedMatched(ok, tk, st.limit, w, ls, rs, hist, matched);
    AdvancedLengths(st.limit, w, ls, rs, hist);
  }
}
