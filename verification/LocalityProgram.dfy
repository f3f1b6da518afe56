/** The inference program: leaked or most frequent chunks seed the worklist, the main loop runs it to the end. */
module LocalityProgram {
  import opened Sets
  import opened Integers
  import opened Bytes
  import opened Records
  import opened LocalityCount
  import opened LocalityAttack
  import opened LocalityRun
  import opened LocalityScore
  import opened LocalitySeeds

  // ---------------------------------------------------------------- bounded bags

  /** The least frequent entry; any of them if there are several. */
  method Top(bag: multiset<Entry>) returns (x: Entry)
    requires |bag| > 0
    ensures Least(bag, x)
  {
    ghost var least := LeastExists(bag);
    x :| x in bag && Least(bag, x);
  }

  /** Offer an entry to a bag of at most k: a full bag takes it only if it is more frequent than some entry, and then
      gives up a least frequent one. */
  method Insert(bag: multiset<Entry>, k: nat, e: Entry, ghost es: multiset<Entry>) returns (out: multiset<Entry>)
    requires TopK(es, k, bag) && k >= 1
    ensures TopK(es + multiset{e}, k, out)
    ensures if |bag| < k then out == bag + multiset{e}
      else if forall x :: x in bag ==> e.count <= x.count then out == bag
      else exists x :: Least(bag, x) && out == bag - multiset{x} + multiset{e}
  {
    if |bag| < k {
      OfferKeepsTopK(es, k, bag, e, e);
      out := bag + multiset{e};
    } else {
      var min := Top(bag);
      OfferKeepsTopK(es, k, bag, e, min);
      out := bag;
      if e.count > min.count {
        out := out - multiset{min};
        out := out + multiset{e};
      }
    }
  }

  /** Records are whole numbers of entries. */
  predicate Regular(store: Store) {
    forall f :: f in store ==> |store[f]| % ENTRY_SIZE == 0
  }

  /** left_insert and right_insert: the k most frequent neighbours in a record. */
  method InsertNeighbours(store: Store, f: Fingerprint, k: nat) returns (bag: multiset<Entry>)
    requires k >= 1 && Regular(store)
    ensures TopK(multiset(Neighbours(store, f)), k, bag)
    ensures |bag| == Min(k, |Neighbours(store, f)|) && forall x :: x in bag ==> x in Neighbours(store, f)
    ensures forall x, y :: x in bag && y in Neighbours(store, f) && y !in bag ==> y.count <= x.count
  {
    if f in store {
      assert |store[f]| == 14 * (|store[f]| / ENTRY_SIZE);
      bag := InsertRecord(store[f], k, |store[f]| / ENTRY_SIZE);
    } else {
      bag := multiset{};
    }
    TopEntries(Neighbours(store, f), k, bag);
  }

  /** Of the entries, as many as possible up to k, and none less frequent than one left out. */
  lemma {:induction false} TopEntries(es: seq<Entry>, k: nat, bag: multiset<Entry>)
    requires TopK(multiset(es), k, bag)
    ensures |bag| == Min(k, |es|) && forall x :: x in bag ==> x in es
    ensures forall x, y :: x in bag && y in es && y !in bag ==> y.count <= x.count
  {
    assert |multiset(es)| == |es|;
    forall x | x in bag ensures x in es { assert x in multiset(es); }
    forall x, y | x in bag && y in es && y !in bag ensures y.count <= x.count {
      assert y in multiset(es) && y in multiset(es) - bag;
    }
  }

  /** The entry at an offset of a record. */
  function EntryIn(record: seq<Byte>, len: nat): Entry
    requires len + ENTRY_SIZE <= |record|
  {
    Entry(record[len..len + FP_SIZE], Decode(record[len + FP_SIZE..len + ENTRY_SIZE]))
  }

  /** The entries from an offset on. */
  function EntriesFrom(record: seq<Byte>, len: nat): seq<Entry>
    requires len <= |record|
  {
    Unpack(record[len..])
  }

  lemma {:induction false} EntriesNext(record: seq<Byte>, len: nat)
    requires len + ENTRY_SIZE <= |record|
    ensures EntriesFrom(record, len) == [EntryIn(record, len)] + EntriesFrom(record, len + ENTRY_SIZE)
  {
    var rest := record[len..];
    assert rest[..FP_SIZE] == record[len..len + FP_SIZE];
    assert rest[FP_SIZE..ENTRY_SIZE] == record[len + FP_SIZE..len + ENTRY_SIZE];
    assert rest[ENTRY_SIZE..] == record[len + ENTRY_SIZE..];
  }

  /** Walk through a record of n entries. */
  method InsertRecord(record: seq<Byte>, k: nat, ghost n: nat) returns (bag: multiset<Entry>)
    requires k >= 1 && |record| == 14 * n
    ensures TopK(multiset(Unpack(record)), k, bag)
  {
    ghost var es := EntriesFrom(record, 0);
    assert es == Unpack(record) by { assert record[0..] == record; }
    bag := multiset{};
    var len := 0;
    ghost var left := n;
    ghost var done: multiset<Entry> := multiset{};
    while len < |record|
      invariant |record| == len + 14 * left && len >= 0
      invariant multiset(es) == done + multiset(EntriesFrom(record, len))
      invariant TopK(done, k, bag)
      decreases left
    {
      RoomForEntry(|record|, len, left);
      EntriesNext(record, len);
      var entry := EntryIn(record, len);
      bag := Insert(bag, k, entry, done);
      Moved(entry, EntriesFrom(record, len + ENTRY_SIZE), done);
      done := done + multiset{entry};
      len, left := len + ENTRY_SIZE, left - 1;
    }
    assert EntriesFrom(record, len) == [];
  }

  lemma {:induction false} RoomForEntry(size: nat, len: nat, left: nat)
    requires len < size == len + 14 * left
    ensures left >= 1 && len + ENTRY_SIZE <= size
  {
  }

  lemma {:induction false} Moved(e: Entry, rest: seq<Entry>, done: multiset<Entry>)
    ensures done + multiset([e] + rest) == (done + multiset{e}) + multiset(rest)
  {
  }

  /** Popping these pairs leads from the first two bags to the last two. */
  ghost predicate Leads(pq0: multiset<Entry>, pc0: multiset<Entry>, pairs: seq<Pair>, pq: multiset<Entry>,
                        pc: multiset<Entry>) {
    forall tail :: Paired(pq, pc, tail) ==> Paired(pq0, pc0, pairs + tail)
  }

  lemma {:induction false} LeadsNext(pq0: multiset<Entry>, pc0: multiset<Entry>, pairs: seq<Pair>, pq: multiset<Entry>,
                                     pc: multiset<Entry>, p: Pair)
    requires Leads(pq0, pc0, pairs, pq, pc) && Least(pq, p.o) && Least(pc, p.t)
    ensures Leads(pq0, pc0, pairs + [p], pq - multiset{p.o}, pc - multiset{p.t})
  {
    forall tail | Paired(pq - multiset{p.o}, pc - multiset{p.t}, tail) ensures Paired(pq0, pc0, pairs + [p] + tail) {
      var longer := [p] + tail;
      assert longer[1..] == tail && Paired(pq, pc, longer);
      assert pairs + longer == pairs + [p] + tail;
    }
  }

  lemma {:induction false} LeadsStart(pq: multiset<Entry>, pc: multiset<Entry>)
    ensures Leads(pq, pc, [], pq, pc)
  {
    forall tail | Paired(pq, pc, tail) ensures Paired(pq, pc, [] + tail) { assert [] + tail == tail; }
  }

  /** Empty both bags in step onto a stack of pairs. */
  method PairUp(pq0: multiset<Entry>, pc0: multiset<Entry>) returns (pairs: seq<Pair>)
    ensures Paired(pq0, pc0, pairs)
  {
    var pq, pc := pq0, pc0;
    pairs := [];
    LeadsStart(pq0, pc0);
    while |pq| > 0 && |pc| > 0
      invariant Leads(pq0, pc0, pairs, pq, pc)
      decreases |pq|
    {
      var o := Top(pq);
      var t := Top(pc);
      LeadsNext(pq0, pc0, pairs, pq, pc, Pair(o, t));
      pairs := pairs + [Pair(o, t)];
      pq, pc := pq - multiset{o}, pc - multiset{t};
    }
    assert Paired(pq, pc, []) && pairs + [] == pairs;
  }

  /** The candidate pairs from two records. */
  method FindCandidates(os: Store, ts: Store, f: Fingerprint, g: Fingerprint, k: nat) returns (pairs: seq<Pair>)
    requires k >= 1 && Regular(os) && Regular(ts)
    ensures Candidates(Neighbours(os, f), Neighbours(ts, g), k, pairs)
  {
    var pq := InsertNeighbours(os, f, k);
    var pc := InsertNeighbours(ts, g, k);
    pairs := PairUp(pq, pc);
  }

  /** What was drained is in order and less frequent than what is left. */
  ghost predicate Drained(es: seq<Entry>, bag: multiset<Entry>) {
    Descending(es) && forall i, y :: 0 <= i < |es| && y in bag ==> es[i].count <= y.count
  }

  lemma {:induction false} DrainNext(es: seq<Entry>, bag: multiset<Entry>, x: Entry)
    requires Drained(es, bag) && Least(bag, x)
    ensures Drained([x] + es, bag - multiset{x})
    ensures multiset([x] + es) + (bag - multiset{x}) == multiset(es) + bag
  {
    assert multiset([x] + es) == multiset{x} + multiset(es);
    assert forall y :: y in bag - multiset{x} ==> y in bag;
  }

  /** Empty a bag through a stack, so that the most frequent entries come first. */
  method DrainDescending(bag0: multiset<Entry>) returns (es: seq<Entry>)
    ensures multiset(es) == bag0 && Descending(es)
  {
    var bag := bag0;
    es := [];
    while |bag| > 0
      invariant multiset(es) + bag == bag0 && Drained(es, bag)
      decreases |bag|
    {
      var x := Top(bag);
      DrainNext(es, bag, x);
      es := [x] + es;
      bag := bag - multiset{x};
    }
  }

  lemma {:induction false} ListingNext(freq: Store, keys: set<Fingerprint>, es: seq<Entry>, e: Entry)
    requires Listing(freq, keys, es) && Genuine(freq, e) && e.key !in keys
    ensures Listing(freq, keys + {e.key}, es + [e])
    ensures multiset(es + [e]) == multiset(es) + multiset{e}
  {
    KeysConcat(es, [e]);
    forall i | 0 <= i < |es| ensures Keys(es)[i] != e.key { KeySetOfKeys(es, Keys(es)[i]); }
    forall f ensures f in KeySet(es + [e]) <==> f in keys + {e.key} {
      KeySetOfKeys(es + [e], f);
      KeySetOfKeys(es, f);
    }
  }

  lemma {:induction false} SplitNext(keys: set<Fingerprint>, done: set<Fingerprint>, rest: set<Fingerprint>,
                                     f: Fingerprint)
    requires done !! rest && done + rest == keys && f in rest
    ensures (done + {f}) !! (rest - {f}) && (done + {f}) + (rest - {f}) == keys && |rest - {f}| < |rest|
  {
  }

  /** The most frequent entries of a frequency store. */
  method InsertAll(freq: Store, init: nat) returns (bag: multiset<Entry>, ghost all: seq<Entry>)
    requires init >= 1
    ensures Lists(freq, all) && TopK(multiset(all), init, bag)
  {
    var rest := freq.Keys;
    bag, all := multiset{}, [];
    ghost var done: set<Fingerprint> := {};
    while |rest| > 0
      invariant done !! rest && done + rest == freq.Keys
      invariant Listing(freq, done, all) && TopK(multiset(all), init, bag)
      decreases |rest|
    {
      var f :| f in rest;
      var e := Entry(f, Decode(freq[f]));
      ListingNext(freq, done, all, e);
      SplitNext(freq.Keys, done, rest, f);
      bag := Insert(bag, init, e, multiset(all));
      all := all + [e];
      rest, done := rest - {f}, done + {f};
    }
  }

  /** db_insert and its unwinding: the most frequent chunks, from the most frequent down. */
  method MostFrequent(freq: Store, init: nat) returns (es: seq<Entry>, ghost all: seq<Entry>)
    requires init >= 1
    ensures Lists(freq, all) && TopK(multiset(all), init, multiset(es)) && Descending(es)
  {
    var bag;
    bag, all := InsertAll(freq, init);
    es := DrainDescending(bag);
  }

  // ---------------------------------------------------------------- the program's state

  lemma {:induction false} CountNext(done: set<Fingerprint>, f: Fingerprint, a: set<Fingerprint>)
    requires f !in done
    ensures |(done + {f}) * a| == |done * a| + if f in a then 1 else 0
  {
    if f in a {
      assert (done + {f}) * a == done * a + {f};
    } else {
      assert (done + {f}) * a == done * a;
    }
  }

  /** The counters after the target chunks `done`: all of them, the leaked ones, and those the auxiliary side knows. */
  predicate Tallied(total: nat, common: nat, leak: nat, done: set<Fingerprint>, chosen: set<Fingerprint>,
                    known: set<Fingerprint>) {
    total == |done| && common == |done * chosen| && leak == |done * (chosen * known)|
  }

  lemma {:induction false} TallyNext(total: nat, common: nat, leak: nat, done: set<Fingerprint>,
                                     chosen: set<Fingerprint>, known: set<Fingerprint>, f: Fingerprint)
    requires Tallied(total, common, leak, done, chosen, known) && f !in done
    ensures Tallied(total + 1, common + (if f in chosen then 1 else 0),
                    leak + (if f in chosen && f in known then 1 else 0), done + {f}, chosen, known)
  {
    CountNext(done, f, chosen);
    CountNext(done, f, chosen * known);
  }

  lemma {:induction false} NothingScanned(ok: set<Fingerprint>, tk: set<Fingerprint>, chosen: set<Fingerprint>)
    ensures Tallied(0, 0, 0, {}, chosen, ok) && Consistent(ok, tk, Work([], [], {}, 0), [], {})
  {
    assert {} * chosen == {} && {} * (chosen * ok) == {};
  }

  /** A fresh pair of chunks with the same key keeps the queues consistent. */
  lemma {:induction false} PushLeaked(ok: set<Fingerprint>, tk: set<Fingerprint>, w: Work, hist: seq<Fingerprint>,
                                      eo: Entry, et: Entry)
    requires Consistent(ok, tk, w, hist, {}) && eo.key in ok && et.key in tk && et.key !in hist
    ensures Consistent(ok, tk, w.(qo := w.qo + [eo], qt := w.qt + [et], uniq := w.uniq + {et.key}), hist + [et.key], {})
  {
    KeysConcat(w.qt, [et]);
    var hist' := hist + [et.key];
    assert hist'[|hist'| - |w.qt + [et]|..] == hist[|hist| - |w.qt|..] + [et.key];
  }

  lemma {:induction false} KeySetNext(es: seq<Entry>, i: nat)
    requires i < |es|
    ensures KeySet(es[..i + 1]) == KeySet(es[..i]) + {es[i].key} && es[..i + 1] == es[..i] + [es[i]]
  {
    assert es[..i + 1] == es[..i] + [es[i]];
  }

  class Attacker {
    const o: Databases
    const t: Databases
    var qo: seq<Entry>
    var qt: seq<Entry>
    /** The target keys recorded so far. */
    var uniq: set<Fingerprint>
    var total: nat
    var common: nat
    var leak: nat
    var correct: nat
    var involve: nat

    ghost function Current(): Work
      reads this
    {
      Work(qo, qt, uniq, correct)
    }

    constructor (o: Databases, t: Databases)
      ensures this.o == o && this.t == t && Current() == Work([], [], {}, 0)
      ensures total == common == leak == involve == 0
    {
      this.o, this.t := o, t;
      qo, qt, uniq := [], [], {};
      total, common, leak, correct, involve := 0, 0, 0, 0, 0;
    }

    /** Count one target chunk; if it is leaked and known to the auxiliary side, enqueue it. */
    method StatChunk(f: Fingerprint, leaked: bool, ghost hist: seq<Fingerprint>) returns (ghost hist': seq<Fingerprint>)
      requires Consistent(o.freq.Keys, t.freq.Keys, Current(), hist, {}) && f in t.freq && f !in hist
      modifies this`total, this`common, this`leak, this`qo, this`qt, this`uniq
      ensures Consistent(o.freq.Keys, t.freq.Keys, Current(), hist', {}) && |qo| - |qt| == old(|qo| - |qt|)
      ensures hist' == if leaked && f in o.freq then hist + [f] else hist
      ensures total == old(total) + 1 && common == old(common) + (if leaked then 1 else 0)
      ensures leak == old(leak) + if leaked && f in o.freq then 1 else 0
      ensures !leaked ==> Current() == old(Current())
      ensures if leaked && f in o.freq then Keys(qo) == Keys(old(qo)) + [f] && Keys(qt) == Keys(old(qt)) + [f]
        && uniq == old(uniq) + {f}
        else qo == old(qo) && qt == old(qt) && uniq == old(uniq)
    {
      hist' := hist;
      total := total + 1;
      if leaked {
        common := common + 1;
        if f in o.freq {
          PushLeaked(o.freq.Keys, t.freq.Keys, Current(), hist, Entry(f, Decode(o.freq[f])),
                     Entry(f, Decode(t.freq[f])));
          qo := qo + [Entry(f, Decode(o.freq[f]))];
          qt := qt + [Entry(f, Decode(t.freq[f]))];
          uniq := uniq + {f};
          hist' := hist + [f];
          leak := leak + 1;
        }
      }
    }

    /** The counters and queues after the target chunks `done`. */
    ghost predicate Scanned(done: set<Fingerprint>, chosen: set<Fingerprint>, hist: seq<Fingerprint>)
      reads this
    {
      && Tallied(total, common, leak, done, chosen, o.freq.Keys)
        && Consistent(o.freq.Keys, t.freq.Keys, Current(), hist, {}) && |qo| == |qt|
      && (forall f :: f in hist <==> f in done * (chosen * o.freq.Keys)) && Keys(qo) == hist && Keys(qt) == hist
        && (forall f :: f in uniq <==> f in hist)
      && (chosen == {} ==> Current() == Work([], [], {}, 0))
    }

    method StatNext(f: Fingerprint, chosen: set<Fingerprint>, ghost done: set<Fingerprint>,
                    ghost hist: seq<Fingerprint>)
      returns (ghost hist': seq<Fingerprint>)
      requires Scanned(done, chosen, hist) && f in t.freq && f !in done
      modifies this`total, this`common, this`leak, this`qo, this`qt, this`uniq
      ensures Scanned(done + {f}, chosen, hist')
    {
      TallyNext(total, common, leak, done, chosen, o.freq.Keys, f);
      hist' := StatChunk(f, f in chosen, hist);
    }

    /** stat_db: count the target chunks and enqueue the leaked ones that the auxiliary side knows. */
    method StatDb(chosen: set<Fingerprint>) returns (ghost hist: seq<Fingerprint>)
      requires Current() == Work([], [], {}, 0) && total == common == leak == 0
      modifies this`total, this`common, this`leak, this`qo, this`qt, this`uniq
      ensures Scanned(t.freq.Keys, chosen, hist)
    {
      NothingScanned(o.freq.Keys, t.freq.Keys, chosen);
      var rest := t.freq.Keys;
      hist := [];
      ghost var done: set<Fingerprint> := {};
      while |rest| > 0
        invariant done !! rest && done + rest == t.freq.Keys && Scanned(done, chosen, hist)
        decreases |rest|
      {
        var f :| f in rest;
        SplitNext(t.freq.Keys, done, rest, f);
        hist := StatNext(f, chosen, done, hist);
        rest, done := rest - {f}, done + {f};
      }
      assert done == t.freq.Keys;
    }

    /** Enqueue the seeds of the target side and record them. */
    method SeedTargets(es: seq<Entry>)
      requires qt == [] && uniq == {}
      modifies this`qt, this`uniq
      ensures qt == es && uniq == KeySet(es)
    {
      for i := 0 to |es|
        invariant qt == es[..i] && uniq == KeySet(es[..i])
      {
        KeySetNext(es, i);
        uniq := uniq + {es[i].key};
        qt := qt + [es[i]];
      }
      assert es[..|es|] == es;
    }

    /** Without leaked chunks, the most frequent chunks of both sides are the seeds. */
    method SeedMostFrequent(init: nat) returns (ghost hist: seq<Fingerprint>)
      requires init >= 1 && Current() == Work([], [], {}, 0)
      modifies this`qo, this`qt, this`uniq
      ensures Consistent(o.freq.Keys, t.freq.Keys, Current(), hist, {}) && Seeded(o, t, init, Current())
    {
      var es;
      ghost var allo, allt;
      qo, allo := MostFrequent(o.freq, init);
      es, allt := MostFrequent(t.freq, init);
      SeedTargets(es);
      hist := Keys(es);
      SeedsConsistent(o, t, allo, allt, qo, es);
    }

    /** Enqueue candidates from the top of the stack. */
    method Extend(limit: nat, stack0: seq<Pair>)
      modifies this`qo, this`qt, this`uniq
      ensures Current() == Extended(limit, old(Current()), stack0)
    {
      var stack := stack0;
      ghost var done: seq<Pair> := [];
      ghost var w := Current();
      assert Current() == Pushed(w, done) by { PushedNothing(w); }
      while stack != []
        invariant Current() == Pushed(w, done)
        invariant done + Taken(limit, |qo|, uniq, stack) == Taken(limit, |w.qo|, w.uniq, stack0)
        decreases |stack|
      {
        var p := stack[|stack| - 1];
        TakenStep(limit, |qo|, uniq, stack, done);
        stack := stack[..|stack| - 1];
        if p.t.key !in uniq {
          if |qo| + 1 > limit {
            return;
          }
          PushedNext(w, done, p);
          uniq := uniq + {p.t.key};
          qo := qo + [p.o];
          qt := qt + [p.t];
          done := done + [p];
        }
      }
      assert done + [] == done;
    }

    /** Enqueue candidates among the neighbours on one side. */
    method Explore(st: Settings, os: Store, ts: Store, f: Fingerprint, g: Fingerprint) returns (pairs: seq<Pair>)
      requires st.k >= 1 && Regular(os) && Regular(ts)
      modifies this`qo, this`qt, this`uniq
      ensures Candidates(Neighbours(os, f), Neighbours(ts, g), st.k, pairs)
      ensures Current() == Extended(st.limit, old(Current()), pairs)
    {
      pairs := FindCandidates(os, ts, f, g, st.k);
      Extend(st.limit, pairs);
    }

    /** Count the front pair if both keys are the same. */
    method CheckFront()
      requires qo != [] && qt != []
      modifies this`correct
      ensures Current() == Checked(old(Current()))
    {
      if qo[0].key == qt[0].key { correct := correct + 1; }
    }

    method RemoveFront()
      requires qo != [] && qt != []
      modifies this`qo, this`qt, this`involve
      ensures Current() == Work(old(qo)[1..], old(qt)[1..], uniq, correct)
    {
      qo, qt, involve := qo[1..], qt[1..], involve + 1;
    }

    /** Check the front pair; enqueue candidates among its left and then its right neighbours; remove it. */
    method Step(st: Settings, f: Fingerprint, g: Fingerprint) returns (ls: seq<Pair>, rs: seq<Pair>)
      requires st.k >= 1 && Regular(o.left) && Regular(o.right) && Regular(t.left) && Regular(t.right)
      requires qo != [] && qt != [] && f == qo[0].key && g == qt[0].key
      modifies this`qo, this`qt, this`uniq, this`correct, this`involve
      ensures Candidates(Neighbours(o.left, f), Neighbours(t.left, g), st.k, ls)
      ensures Candidates(Neighbours(o.right, f), Neighbours(t.right, g), st.k, rs)
      ensures Current() == Advanced(st.limit, old(Current()), ls, rs)
    {
      ghost var w := Current();
      CheckFront();
      ghost var c := Current();
      ls := Explore(st, o.left, t.left, f, g);
      ghost var l := Current();
      rs := Explore(st, o.right, t.right, f, g);
      AdvancedFrom(st.limit, w, c, l, Current(), ls, rs);
      RemoveFront();
    }

    /** One turn of the main loop. */
    method DoRound(st: Settings)
      requires st.k >= 1 && Regular(o.left) && Regular(o.right) && Regular(t.left) && Regular(t.right)
      requires qo != [] && qt != []
      modifies this`qo, this`qt, this`uniq, this`correct, this`involve
      ensures Round(st, o, t, old(Current()), Current())
    {
      ghost var w := Current();
      var f, g := qo[0].key, qt[0].key;
      var ls, rs := Step(st, f, g);
      RoundFrom(st, o, t, w, f, g, ls, rs);
    }

    /** A turn seen from outside: the run stays consistent and its potential falls. */
    method Turn(st: Settings, ghost ok: set<Fingerprint>, ghost tk: set<Fingerprint>, ghost hist: seq<Fingerprint>,
                ghost matched: set<Fingerprint>)
      returns (ghost hist': seq<Fingerprint>, ghost matched': set<Fingerprint>)
      requires st.k >= 1 && Regular(o.left) && Regular(o.right) && Regular(t.left) && Regular(t.right)
      requires qo != [] && qt != [] && NamesOnly(o, ok) && NamesOnly(t, tk)
        && Consistent(ok, tk, Current(), hist, matched)
      modifies this`qo, this`qt, this`uniq, this`correct, this`involve
      ensures Rounds(st, o, t)(old(Current()), Current())
      ensures Consistent(ok, tk, Current(), hist', matched') && hist <= hist'
      ensures Potential(NeighbourKeys(t), Current()) < Potential(NeighbourKeys(t), old(Current()))
    {
      ghost var w := Current();
      DoRound(st);
      RoundMeasures(st, o, t, w, Current());
      hist', matched' := RoundConsistent(st, o, t, ok, tk, w, Current(), hist, matched);
    }

    /** The main loop: it ends, never enqueues a target key twice, keeps the queue in bounds, and infers only chunks of
        both sides. */
    method MainLoop(st: Settings, ghost ok: set<Fingerprint>, ghost tk: set<Fingerprint>,
                    ghost hist0: seq<Fingerprint>)
      returns (ghost ws: seq<Work>, ghost hist: seq<Fingerprint>, ghost matched: set<Fingerprint>)
      requires st.k >= 1 && Regular(o.left) && Regular(o.right) && Regular(t.left) && Regular(t.right)
      requires NamesOnly(o, ok) && NamesOnly(t, tk) && Consistent(ok, tk, Current(), hist0, {})
      modifies this`qo, this`qt, this`uniq, this`correct, this`involve
      ensures qo == [] || qt == []
      ensures RunsTo(Rounds(st, o, t), old(Current()), ws, Current())
      ensures Consistent(ok, tk, Current(), hist, matched) && hist0 <= hist
    {
      ghost var first, now := Current(), Current();
      ws, hist, matched := [now], hist0, {};
      while qo != [] && qt != []
        invariant now == Current() && RunsTo(Rounds(st, o, t), first, ws, now)
        invariant Consistent(ok, tk, Current(), hist, matched) && hist0 <= hist
        decreases Potential(NeighbourKeys(t), Current())
      {
        hist, matched := Turn(st, ok, tk, hist, matched);
        RunsToAppend(Rounds(st, o, t), first, ws, now, Current());
        now := Current();
        ws := ws + [now];
      }
    }

    /** Count the target chunks, and enqueue leaked chunks or else the most frequent ones. */
    method Prepare(leaking: bool, chosen: set<Fingerprint>, init: nat)
      returns (ghost leaked: set<Fingerprint>, ghost hist: seq<Fingerprint>)
      requires (leaking || init >= 1) && Current() == Work([], [], {}, 0) && total == common == leak == 0
      modifies this`total, this`common, this`leak, this`qo, this`qt, this`uniq
      ensures Tallied(total, common, leak, t.freq.Keys, leaked, o.freq.Keys) && (!leaking ==> leaked == {})
      ensures Consistent(o.freq.Keys, t.freq.Keys, Current(), hist, {})
      ensures leaking ==> leaked == chosen && Leaked(o, t, chosen, Current())
      ensures !leaking ==> Seeded(o, t, init, Current())
    {
      if leaking {
        hist := StatDb(chosen);
        leaked := chosen;
      } else {
        hist := StatDb({});
        leaked := {};
        hist := SeedMostFrequent(init);
      }
    }

    /** The main loop and its report, from any prepared state and on any stores: it ends in a run of rounds, the report
        is not negative, and it is within the number of target chunks if the target's records, and where chunks are
        leaked also the auxiliary ones, name only chunks. */
    method Execute(leaking: bool, st: Settings, ghost leaked: set<Fingerprint>, ghost hist: seq<Fingerprint>)
      returns (inferred: nat, ghost ws: seq<Work>)
      requires st.k >= 1 && Regular(o.left) && Regular(o.right) && Regular(t.left) && Regular(t.right)
      requires Consistent(o.freq.Keys, t.freq.Keys, Current(), hist, {}) && (!leaking ==> leaked == {})
      requires Tallied(total, common, leak, t.freq.Keys, leaked, o.freq.Keys)
      modifies this`qo, this`qt, this`uniq, this`correct, this`involve
      ensures RunsTo(Rounds(st, o, t), old(Current()), ws, Current()) && (qo == [] || qt == [])
      ensures inferred == Reported(o, t, leaked, Current())
      ensures Closed(t) && (leaking ==> Closed(o)) ==> inferred <= total
    {
      ghost var ok, tk := FindSides(leaking, o, t, Current(), hist);
      ghost var hist', matched;
      ws, hist', matched := MainLoop(st, ok, tk, hist);
      ReportFits(leaking, o, t, leaked, ok, tk, Current(), hist', matched);
      inferred := correct + common - leak;
    }
  }

  /** `ok` and `tk` are no more than the chunks of their sides where the report is to fit. */
  ghost predicate Sides(leaking: bool, o: Databases, t: Databases, ok: set<Fingerprint>, tk: set<Fingerprint>) {
    Closed(t) && (leaking ==> Closed(o)) ==> tk == t.freq.Keys && (leaking ==> ok == o.freq.Keys)
  }

  /** The keys that can show up on each side: its chunks if that is enough, else also whatever its records name. */
  lemma {:induction false} FindSides(leaking: bool, o: Databases, t: Databases, w: Work, hist: seq<Fingerprint>)
    returns (ok: set<Fingerprint>, tk: set<Fingerprint>)
    ensures NamesOnly(o, ok) && NamesOnly(t, tk) && Sides(leaking, o, t, ok, tk)
    ensures Consistent(o.freq.Keys, t.freq.Keys, w, hist, {}) ==> Consistent(ok, tk, w, hist, {})
  {
    NamesNeighbours(o);
    NamesNeighbours(t);
    ok := if leaking && Closed(o) then o.freq.Keys else o.freq.Keys + NeighbourKeys(o);
    tk := if Closed(t) then t.freq.Keys else t.freq.Keys + NeighbourKeys(t);
    if Consistent(o.freq.Keys, t.freq.Keys, w, hist, {}) {
      WiderConsistent(o.freq.Keys, ok, t.freq.Keys, tk, w, hist);
    }
  }

  /** When the report of a run cannot exceed the number of target chunks. */
  lemma {:induction false} ReportFits(leaking: bool, o: Databases, t: Databases, leaked: set<Fingerprint>,
                                      ok: set<Fingerprint>, tk: set<Fingerprint>,
                                      w: Work, hist: seq<Fingerprint>, matched: set<Fingerprint>)
    requires !leaking ==> leaked == {}
    ensures 0 <= Reported(o, t, leaked, w)
    ensures Sides(leaking, o, t, ok, tk) && Consistent(ok, tk, w, hist, matched) && Closed(t) && (leaking ==> Closed(o))
      ==> Reported(o, t, leaked, w) <= |t.freq.Keys|
  {
    SubsetSize(t.freq.Keys * (leaked * o.freq.Keys), t.freq.Keys * leaked);
    if Sides(leaking, o, t, ok, tk) && Consistent(ok, tk, w, hist, matched) && Closed(t) && (leaking ==> Closed(o)) {
      CorrectAtMostShared(ok, tk, w, hist, matched);
      ReportBound(w.correct, tk, leaked, ok, o.freq.Keys);
    }
  }

  /** All keys of a side: its chunks and whatever its neighbour records name. */
  lemma {:induction false} NamesNeighbours(o: Databases)
    ensures NamesOnly(o, o.freq.Keys + NeighbourKeys(o))
  {
    forall f: Fingerprint, e | e in Neighbours(o.left, f)
      ensures e.key in o.freq.Keys + NeighbourKeys(o)
    {
      NeighbourKeyOf(o, f, e);
    }
    forall f: Fingerprint, e | e in Neighbours(o.right, f)
      ensures e.key in o.freq.Keys + NeighbourKeys(o)
    {
      NeighbourKeyOf(o, f, e);
    }
  }

  lemma {:induction false} WiderConsistent(ok: set<Fingerprint>, ok': set<Fingerprint>, tk: set<Fingerprint>,
                                           tk': set<Fingerprint>, w: Work, hist: seq<Fingerprint>)
    requires Consistent(ok, tk, w, hist, {}) && ok <= ok' && tk <= tk'
    ensures Consistent(ok', tk', w, hist, {})
  {
  }

  lemma {:induction false} AdvancedFrom(limit: nat, w: Work, c: Work, l: Work, e: Work, ls: seq<Pair>, rs: seq<Pair>)
    requires w.qo != [] && w.qt != [] && c == Checked(w) && l == Extended(limit, c, ls) && e == Extended(limit, l, rs)
    ensures e.qo != [] && e.qt != [] && Advanced(limit, w, ls, rs) == Work(e.qo[1..], e.qt[1..], e.uniq, e.correct)
  {
  }

  lemma {:induction false} RoundFrom(st: Settings, o: Databases, t: Databases, w: Work, f: Fingerprint, g: Fingerprint,
                                     ls: seq<Pair>, rs: seq<Pair>)
    requires w.qo != [] && w.qt != [] && f == w.qo[0].key && g == w.qt[0].key
    requires Candidates(Neighbours(o.left, f), Neighbours(t.left, g), st.k, ls)
    requires Candidates(Neighbours(o.right, f), Neighbours(t.right, g), st.k, rs)
    ensures Round(st, o, t, w, Advanced(st.limit, w, ls, rs))
  {
  }

  lemma {:induction false} TakenStep(limit: nat, size: nat, uniq: set<Fingerprint>, stack: seq<Pair>, done: seq<Pair>)
    requires stack != []
    ensures var (p, rest) := (stack[|stack| - 1], stack[..|stack| - 1]);
      done + Taken(limit, size, uniq, stack)
        == if p.t.key in uniq then done + Taken(limit, size, uniq, rest)
           else if size + 1 > limit then done
           else (done + [p]) + Taken(limit, size + 1, uniq + {p.t.key}, rest)
  {
    var p, rest := stack[|stack| - 1], stack[..|stack| - 1];
    var more := Taken(limit, size + 1, uniq + {p.t.key}, rest);
    assert done + ([p] + more) == (done + [p]) + more && done + [] == done;
  }

  lemma {:induction false} PushedNothing(w: Work)
    ensures Pushed(w, []) == w
  {
    assert w.qo + Origins([]) == w.qo && w.qt + Targets([]) == w.qt && w.uniq + KeySet(Targets([])) == w.uniq;
  }

  lemma {:induction false} PushedNext(w: Work, done: seq<Pair>, p: Pair)
    ensures var v := Pushed(w, done);
      Pushed(w, done + [p]) == v.(qo := v.qo + [p.o], qt := v.qt + [p.t], uniq := v.uniq + {p.t.key})
  {
    assert Origins(done + [p]) == Origins(done) + [p.o];
    var a, b := Targets(done + [p]), Targets(done);
    assert a == b + [p.t];
    forall f ensures f in KeySet(a) <==> f in KeySet(b) || f == p.t.key {
      KeySetOfKeys(a, f);
      KeySetOfKeys(b, f);
      KeysConcat(b, [p.t]);
    }
    assert w.uniq + KeySet(a) == w.uniq + KeySet(b) + {p.t.key};
  }

  // ---------------------------------------------------------------- what is reported

  lemma {:induction false} CountedRegular(d: Databases, s: seq<Fingerprint>)
    requires Counted(d, s)
    ensures Regular(d.left) && Regular(d.right)
  {
    forall f | f in d.left ensures |d.left[f]| % ENTRY_SIZE == 0 { assert d.left[f] == Pack(Lefts(s)(f)); }
    forall f | f in d.right ensures |d.right[f]| % ENTRY_SIZE == 0 { assert d.right[f] == Pack(Rights(s)(f)); }
  }

  /** Leaked chunks unknown to the auxiliary side and chunks shared by both sides make up no more than all target
      chunks. */
  lemma {:induction false} ReportBound(correct: nat, targets: set<Fingerprint>, chosen: set<Fingerprint>,
                                       ok: set<Fingerprint>, known: set<Fingerprint>)
    requires correct <= |ok * targets| && (ok == known || chosen == {})
    ensures correct + |targets * chosen| - |targets * (chosen * known)| <= |targets|
  {
    var a, b := targets * chosen, targets * (chosen * known);
    var unknown := a - b;
    assert a == b + unknown && |a| == |b| + |unknown|;
    assert unknown !! (ok * targets);
    assert |unknown + ok * targets| == |unknown| + |ok * targets|;
    SubsetSize(unknown + ok * targets, targets);
  }

  /** Whether the reported number is bound to fit: the copied fingerprints of the target stream, and where chunks are
      leaked those of the auxiliary stream, are chunks again. */
  ghost predicate Fitting(leaking: bool, so: seq<Fingerprint>, ts: seq<Fingerprint>) {
    (|ts| < 2 || CopyClosed(ts)) && (leaking ==> |so| < 2 || CopyClosed(so))
  }

  lemma {:induction false} RunReported(o: Databases, t: Databases, leaking: bool, chosen: set<Fingerprint>, init: nat,
                                       st: Settings, first: Work, ws: seq<Work>, last: Work, leaked: set<Fingerprint>,
                                       inferred: int)
    requires leaked == (if leaking then chosen else {}) && inferred == Reported(o, t, leaked, last)
    requires leaking ==> LeakedRun(st, o, t, chosen, first, ws, last)
    requires !leaking ==> SeededRun(st, o, t, init, first, ws, last)
    ensures Outcome(o, t, leaking, chosen, init, st, inferred)
  {
    ReportedIs(o, t, chosen, last);
    NothingLeaked(o, t, last);
  }

  /** The inference program on the stores of any two counted streams: it reports the outcome of a finished run, which
      fits where the streams allow it. */
  method Infer(o: Databases, t: Databases, leaking: bool, chosen: set<Fingerprint>, init: nat, st: Settings,
               ghost so: seq<Fingerprint>, ghost ts: seq<Fingerprint>)
    returns (total: nat, inferred: nat)
    requires Counted(o, so) && Counted(t, ts) && (leaking || init >= 1) && st.k >= 1
    ensures total == |t.freq.Keys| && (Fitting(leaking, so, ts) ==> inferred <= total)
    ensures Outcome(o, t, leaking, chosen, init, st, inferred)
  {
    CountedClosed(o, so);
    CountedClosed(t, ts);
    CountedRegular(o, so);
    CountedRegular(t, ts);
    var attacker := new Attacker(o, t);
    ghost var leaked, hist := attacker.Prepare(leaking, chosen, init);
    ghost var first, ws := attacker.Current(), [];
    inferred, ws := attacker.Execute(leaking, st, leaked, hist);
    total := attacker.total;
    RunReported(o, t, leaking, chosen, init, st, first, ws, attacker.Current(), leaked, inferred);
  }

  /** Count a stream into fresh stores. */
  method CountStream(s: seq<Fingerprint>) returns (d: Databases)
    requires |s| <= MAX_COUNT
    ensures Counted(d, s) && d.freq.Keys == set f | f in s
  {
    var counter := new Counter();
    counter.ReadHashes(s);
    d := Databases(counter.db, counter.left, counter.right);
  }

  lemma {:induction false} OutcomeOnStreams(o: Databases, so: seq<Fingerprint>, t: Databases, ts: seq<Fingerprint>,
                                            leaking: bool, chosen: set<Fingerprint>, init: nat, st: Settings,
                                            inferred: int)
    requires Counted(o, so) && Counted(t, ts) && Outcome(o, t, leaking, chosen, init, st, inferred)
    requires o.freq.Keys == (set f | f in so) && t.freq.Keys == (set f | f in ts)
    ensures leaking ==> inferred >= |set f | f in ts && f in chosen|
    ensures leaking && (forall f :: f in ts && f in chosen ==> f !in so)
      ==> inferred == |set f | f in ts && f in chosen|
    ensures !leaking && multiset(so) == multiset(ts) && NoTies(ts) ==> inferred >= Min(init, |set f | f in ts|)
    ensures !leaking && (so == [] || ts == []) ==> inferred == 0
  {
    if leaking {
      LeakedChunksReported(o, t, chosen, init, st, inferred);
      assert LeakedChunks(t, chosen) == set f | f in ts && f in chosen;
    } else {
      SeedsReported(o, t, chosen, init, st, inferred);
      if multiset(so) == multiset(ts) && NoTies(ts) {
        RearrangedSameCounts(o, so, t, ts);
        CountedTieFree(t, ts);
      }
    }
  }

  /** Both programs in turn, on any two streams. All leaked target chunks are reported, and nothing else if the
      auxiliary stream has none of them; without leaked chunks and without ties, all seeds are if the one stream is a
      rearrangement of the other. */
  method CountAndInfer(so: seq<Fingerprint>, ts: seq<Fingerprint>, leaking: bool, chosen: set<Fingerprint>, init: nat,
                       st: Settings)
    returns (total: nat, inferred: nat)
    requires |so| <= MAX_COUNT && |ts| <= MAX_COUNT && (leaking || init >= 1) && st.k >= 1
    ensures total == |set f | f in ts| && (Fitting(leaking, so, ts) ==> inferred <= total)
    ensures AllNulSafe(ts) && (leaking ==> AllNulSafe(so)) ==> inferred <= total
    ensures exists o, t :: Counted(o, so) && Counted(t, ts) && Outcome(o, t, leaking, chosen, init, st, inferred)
    ensures leaking ==> inferred >= |set f | f in ts && f in chosen|
    ensures leaking && (forall f :: f in ts && f in chosen ==> f !in so)
      ==> inferred == |set f | f in ts && f in chosen|
    ensures !leaking && multiset(so) == multiset(ts) && NoTies(ts) ==> inferred >= Min(init, total)
    ensures !leaking && (so == [] || ts == []) ==> inferred == 0
  {
    var o := CountStream(so);
    var t := CountStream(ts);
    NulSafeIsClosed(ts);
    NulSafeIsClosed(so);
    total, inferred := Infer(o, t, leaking, chosen, init, st, so, ts);
    OutcomeOnStreams(o, so, t, ts, leaking, chosen, init, st, inferred);
  }

  lemma {:induction false} NulSafeIsClosed(s: seq<Fingerprint>)
    ensures AllNulSafe(s) ==> CopyClosed(s)
  {
    if AllNulSafe(s) {
      forall i | 0 <= i < |s| ensures Trunc(s[i]) in s { CopiedUnchanged(s[i]); }
    }
  }
}
