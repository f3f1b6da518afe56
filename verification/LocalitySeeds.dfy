/** What a run starts from, the most frequent chunks or leaked ones, and what it reports. */
module LocalitySeeds {
  import opened Sets
  import opened Integers
  import opened Bytes
  import opened Records
  import opened LocalityCount
  import opened LocalityAttack
  import opened LocalityRun
  import opened LocalityScore

  // ---------------------------------------------------------------- the most frequent chunks

  /** Entries from the most frequent down. */
  ghost predicate Descending(es: seq<Entry>) {
    forall i, j :: 0 <= i < j < |es| ==> es[i].count >= es[j].count
  }

  /** The entry has its key's stored count. */
  predicate Genuine(freq: Store, e: Entry) { e.key in freq && e.count == Decode(freq[e.key]) }

  /** The entries of some keys of a frequency store, each once. */
  ghost predicate Listing(freq: Store, keys: set<Fingerprint>, es: seq<Entry>) {
    KeySet(es) == keys && NoDuplicates(Keys(es)) && forall i :: 0 <= i < |es| ==> Genuine(freq, es[i])
  }

  /** All entries of a frequency store, in any order. */
  ghost predicate Lists(freq: Store, es: seq<Entry>) { Listing(freq, freq.Keys, es) }

  lemma {:induction false} CountedOnce(all: seq<Entry>, x: Entry)
    requires NoDuplicates(Keys(all))
    ensures multiset(all)[x] <= 1
    decreases |all|
  {
    if all != [] {
      var front, y := all[..|all| - 1], all[|all| - 1];
      assert all == front + [y];
      assert forall i :: 0 <= i < |front| ==> Keys(front)[i] == Keys(all)[i];
      CountedOnce(front, x);
      forall i | 0 <= i < |front| ensures front[i] != y { assert Keys(all)[i] != Keys(all)[|all| - 1]; }
    }
  }

  lemma {:induction false} CountedTwice(es: seq<Entry>, i: nat, j: nat)
    requires i < j < |es| && es[i] == es[j]
    ensures multiset(es)[es[i]] >= 2
  {
    assert es == es[..j] + es[j..];
    assert es[i] in es[..j];
    assert es[j..][0] == es[j];
  }

  /** Entries drawn from a listing have distinct keys of that listing. */
  lemma {:induction false} DrawnFromListing(all: seq<Entry>, es: seq<Entry>)
    requires NoDuplicates(Keys(all)) && multiset(es) <= multiset(all)
    ensures NoDuplicates(Keys(es)) && forall i :: 0 <= i < |es| ==> es[i].key in KeySet(all)
  {
    forall i | 0 <= i < |es| ensures es[i] in all { assert es[i] in multiset(es); }
    forall i, j | 0 <= i < j < |es| ensures Keys(es)[i] != Keys(es)[j] { DrawnApart(all, es, i, j); }
  }

  lemma {:induction false} DrawnApart(all: seq<Entry>, es: seq<Entry>, i: nat, j: nat)
    requires NoDuplicates(Keys(all)) && multiset(es) <= multiset(all) && i < j < |es|
    ensures es[i].key != es[j].key
  {
    assert es[i] in multiset(es) && es[j] in multiset(es);
    var a :| 0 <= a < |all| && all[a] == es[i];
    var b :| 0 <= b < |all| && all[b] == es[j];
    assert es[i].key == Keys(all)[a] && es[j].key == Keys(all)[b];
    CountedOnce(all, es[i]);
    if es[i] == es[j] { CountedTwice(es, i, j); }
  }

  /** Seeds from listings of both sides are consistent. */
  lemma {:induction false} SeedsConsistent(o: Databases, t: Databases, allo: seq<Entry>, allt: seq<Entry>,
                                           eo: seq<Entry>, et: seq<Entry>)
    requires Lists(o.freq, allo) && Lists(t.freq, allt) && multiset(eo) <= multiset(allo)
      && multiset(et) <= multiset(allt)
    ensures Consistent(o.freq.Keys, t.freq.Keys, Work(eo, et, KeySet(et), 0), Keys(et), {})
  {
    DrawnFromListing(allo, eo);
    DrawnFromListing(allt, et);
    forall f | f in Keys(et) ensures f in KeySet(et) && f in t.freq {
      KeySetOfKeys(et, f);
      var i :| 0 <= i < |et| && Keys(et)[i] == f;
    }
    assert Keys(et)[|Keys(et)| - |et|..] == Keys(et);
  }

  /** The queue that the most frequent chunks of a store make up. */
  ghost predicate Seeds(freq: Store, init: nat, es: seq<Entry>) {
    exists all :: Lists(freq, all) && TopK(multiset(all), init, multiset(es)) && Descending(es)
  }

  /** A state that the most frequent chunks of both sides make up. */
  ghost predicate Seeded(o: Databases, t: Databases, init: nat, w: Work) {
    init >= 1 && Seeds(o.freq, init, w.qo) && Seeds(t.freq, init, w.qt) && w.uniq == KeySet(w.qt) && w.correct == 0
  }

  /** A finished run from seeds of both sides, without leaked chunks. */
  ghost predicate SeededRun(st: Settings, o: Databases, t: Databases, init: nat, first: Work, ws: seq<Work>,
                            last: Work) {
    st.k >= 1 && Seeded(o, t, init, first) && RunsTo(Rounds(st, o, t), first, ws, last)
      && (last.qo == [] || last.qt == [])
  }

  /** A state that stat_db leaves: the leaked chunks that the auxiliary side knows, queued on both sides and
      recorded. */
  ghost predicate Leaked(o: Databases, t: Databases, chosen: set<Fingerprint>, w: Work) {
    && NoDuplicates(Keys(w.qt)) && Keys(w.qo) == Keys(w.qt) && w.correct == 0
    && (forall f :: f in Keys(w.qt) <==> f in t.freq.Keys * (chosen * o.freq.Keys))
    && (forall f :: f in w.uniq <==> f in Keys(w.qt))
  }

  /** A finished run from leaked chunks. */
  ghost predicate LeakedRun(st: Settings, o: Databases, t: Databases, chosen: set<Fingerprint>,
                            first: Work, ws: seq<Work>, last: Work) {
    && st.k >= 1 && Leaked(o, t, chosen, first) && RunsTo(Rounds(st, o, t), first, ws, last)
    && (last.qo == [] || last.qt == [])
  }

  /** The number of inferred chunks that a run from leaked chunks reports. */
  function Reported(o: Databases, t: Databases, chosen: set<Fingerprint>, last: Work): int {
    last.correct + |t.freq.Keys * chosen| - |t.freq.Keys * (chosen * o.freq.Keys)|
  }

  // ---------------------------------------------------------------- which chunks are seeds, and in which order

  /** The chunks of a store that occur more than n times. */
  ghost function MoreFrequent(freq: Store, n: nat): set<Fingerprint> {
    set f | f in freq && Decode(freq[f]) > n
  }

  /** The chunks of a store that occur at least n times. */
  ghost function NoLessFrequent(freq: Store, n: nat): set<Fingerprint> {
    set f | f in freq && Decode(freq[f]) >= n
  }

  /** No two chunks of a store occur equally often. */
  ghost predicate TieFree(freq: Store) {
    forall f, g :: f in freq && g in freq && Decode(freq[f]) == Decode(freq[g]) ==> f == g
  }

  /** Two stores hold the same chunks, equally often. */
  ghost predicate SameCounts(a: Store, b: Store) {
    a.Keys == b.Keys && forall f :: f in a && f in b ==> Decode(a[f]) == Decode(b[f])
  }

  lemma {:induction false} ListedEntry(freq: Store, all: seq<Entry>, f: Fingerprint)
    requires Lists(freq, all) && f in freq
    ensures Entry(f, Decode(freq[f])) in all
  {
    assert f in KeySet(all);
    var e :| e in all && e.key == f;
    var i :| 0 <= i < |all| && all[i] == e;
    assert Genuine(freq, all[i]);
  }

  /** The entries drawn from a listing are genuine, with distinct keys. */
  lemma {:induction false} SeedsGenuine(freq: Store, all: seq<Entry>, es: seq<Entry>)
    requires Lists(freq, all) && multiset(es) <= multiset(all)
    ensures NoDuplicates(Keys(es)) && forall i :: 0 <= i < |es| ==> Genuine(freq, es[i])
  {
    DrawnFromListing(all, es);
    forall i | 0 <= i < |es| ensures Genuine(freq, es[i]) {
      assert es[i] in multiset(es);
      var j :| 0 <= j < |all| && all[j] == es[i];
    }
  }

  /** A chunk that is more frequent than a seed is an earlier seed. */
  lemma {:induction false} MoreFrequentEarlier(freq: Store, init: nat, all: seq<Entry>, es: seq<Entry>, i: nat,
                                               f: Fingerprint)
    requires Lists(freq, all) && TopK(multiset(all), init, multiset(es)) && Descending(es) && i < |es|
    requires f in MoreFrequent(freq, es[i].count)
    ensures f in KeySet(es[..i])
  {
    var e := Entry(f, Decode(freq[f]));
    ListedEntry(freq, all, f);
    assert es[i] in multiset(es) && e in multiset(all);
    NotLeftOut(multiset(all), init, multiset(es), es[i], e);
    var j :| 0 <= j < |es| && es[j] == e;
    assert j < i && es[..i][j] == e;
  }

  lemma {:induction false} NotLeftOut(es: multiset<Entry>, k: nat, bag: multiset<Entry>, x: Entry, e: Entry)
    requires TopK(es, k, bag) && x in bag && e in es && e.count > x.count
    ensures e in bag
  {
    assert e in bag || e in es - bag;
  }

  lemma {:induction false} KeySetSize(es: seq<Entry>)
    ensures |KeySet(es)| <= |es| && (NoDuplicates(Keys(es)) ==> |KeySet(es)| == |es|)
  {
    if NoDuplicates(Keys(es)) { DistinctSize(es); }
    KeySetAtMost(es);
  }

  lemma {:induction false} KeySetAtMost(es: seq<Entry>)
    ensures |KeySet(es)| <= |es|
  {
    if es == [] {
      assert KeySet(es) == {};
    } else {
      var front, x := es[..|es| - 1], es[|es| - 1];
      KeySetAtMost(front);
      assert es == front + [x];
      assert KeySet(es) == KeySet(front) + {x.key};
    }
  }

  /** Fewer chunks than its position are more frequent than a seed, and more are at least as frequent. */
  lemma {:induction false} SeedRank(freq: Store, init: nat, es: seq<Entry>, i: nat)
    requires Seeds(freq, init, es) && i < |es|
    ensures Genuine(freq, es[i])
    ensures |MoreFrequent(freq, es[i].count)| <= i < |NoLessFrequent(freq, es[i].count)|
  {
    var all :| Lists(freq, all) && TopK(multiset(all), init, multiset(es)) && Descending(es);
    SeedsGenuine(freq, all, es);
    forall f | f in MoreFrequent(freq, es[i].count) ensures f in KeySet(es[..i]) {
      MoreFrequentEarlier(freq, init, all, es, i, f);
    }
    KeySetAtMost(es[..i]);
    SubsetSize(MoreFrequent(freq, es[i].count), KeySet(es[..i]));
    FirstNoLess(freq, es, i);
  }

  lemma {:induction false} FirstNoLess(freq: Store, es: seq<Entry>, i: nat)
    requires Descending(es) && NoDuplicates(Keys(es)) && i < |es|
    requires forall j :: 0 <= j < |es| ==> Genuine(freq, es[j])
    ensures |NoLessFrequent(freq, es[i].count)| > i
  {
    var front := es[..i + 1];
    assert Keys(front) == Keys(es)[..i + 1];
    DistinctSize(front);
    forall f | f in KeySet(front) ensures f in NoLessFrequent(freq, es[i].count) {
      KeySetOfKeys(front, f);
      var j :| 0 <= j < |front| && Keys(front)[j] == f;
      assert Genuine(freq, es[j]);
    }
    SubsetSize(KeySet(front), NoLessFrequent(freq, es[i].count));
  }

  /** As many chunks are seeds as there are, up to the number asked for, and none twice. */
  lemma {:induction false} SeedsNumber(freq: Store, init: nat, es: seq<Entry>)
    requires Seeds(freq, init, es)
    ensures |es| == Min(init, |freq.Keys|) && NoDuplicates(Keys(es))
  {
    var all :| Lists(freq, all) && TopK(multiset(all), init, multiset(es)) && Descending(es);
    SeedsGenuine(freq, all, es);
    DistinctSize(all);
    assert |multiset(es)| == |es| && |multiset(all)| == |all|;
  }

  /** The first seed is a most frequent chunk. */
  lemma {:induction false} MostFrequentFirst(freq: Store, init: nat, es: seq<Entry>)
    requires Seeds(freq, init, es) && es != []
    ensures es[0].key in freq && forall f :: f in freq ==> Decode(freq[f]) <= Decode(freq[es[0].key])
  {
    SeedRank(freq, init, es, 0);
    var c := es[0].count;
    assert MoreFrequent(freq, c) == {};
    forall f | f in freq ensures Decode(freq[f]) <= c { assert f !in MoreFrequent(freq, c); }
  }

  lemma {:induction false} FewerMoreFrequent(a: Store, b: Store, c: nat, d: nat)
    requires SameCounts(a, b)
    ensures c > d ==> |NoLessFrequent(a, c)| <= |MoreFrequent(b, d)|
  {
    if c > d {
      forall f | f in NoLessFrequent(a, c) ensures f in MoreFrequent(b, d) { assert f in a && f in b; }
      SubsetSize(NoLessFrequent(a, c), MoreFrequent(b, d));
    }
  }

  lemma {:induction false} SeedCountAtMost(a: Store, b: Store, m: nat, n: nat, es: seq<Entry>, ds: seq<Entry>, i: nat)
    requires SameCounts(a, b) && Seeds(a, m, es) && Seeds(b, n, ds) && i < |es| && i < |ds|
    ensures es[i].count <= ds[i].count
  {
    SeedRank(a, m, es, i);
    SeedRank(b, n, ds, i);
    FewerMoreFrequent(a, b, es[i].count, ds[i].count);
  }

  /** The i-th seeds of two stores with the same chunks and counts are equally frequent, and without ties they are the
      same chunk, however many seeds each side has. */
  lemma {:induction false} SeedsAgree(a: Store, b: Store, m: nat, n: nat, es: seq<Entry>, ds: seq<Entry>, i: nat)
    requires SameCounts(a, b) && Seeds(a, m, es) && Seeds(b, n, ds) && i < |es| && i < |ds|
    ensures es[i].count == ds[i].count && (TieFree(b) ==> es[i] == ds[i])
  {
    SeedCountAtMost(a, b, m, n, es, ds, i);
    SeedCountAtMost(b, a, n, m, ds, es, i);
    SeedRank(a, m, es, i);
    SeedRank(b, n, ds, i);
    assert es[i].key in a && es[i].key in b;
  }

  lemma {:induction false} SeedsSame(a: Store, b: Store, init: nat, es: seq<Entry>, ds: seq<Entry>)
    requires SameCounts(a, b) && Seeds(a, init, es) && Seeds(b, init, ds) && TieFree(b)
    ensures es == ds
  {
    SeedsNumber(a, init, es);
    SeedsNumber(b, init, ds);
    forall i | 0 <= i < |es| ensures es[i] == ds[i] { SeedsAgree(a, b, init, init, es, ds, i); }
  }

  /** Without ties, the seeds of two sides with the same chunks and counts are certain inferences. */
  lemma {:induction false} SeedsCertain(o: Databases, t: Databases, init: nat, w: Work)
    requires Seeded(o, t, init, w) && SameCounts(o.freq, t.freq) && TieFree(t.freq)
    ensures Hits(w.qo, w.qt) == Min(init, |t.freq.Keys|)
  {
    SeedsNumber(t.freq, init, w.qt);
    SeedsSame(o.freq, t.freq, init, w.qo, w.qt);
    HitsDiagonal(w.qo, w.qt);
  }

  // ---------------------------------------------------------------- what a run reports

  /** The target chunks that are leaked. */
  ghost function LeakedChunks(t: Databases, chosen: set<Fingerprint>): set<Fingerprint> {
    set f | f in t.freq && f in chosen
  }

  /** Those of them that the auxiliary side does not know. */
  ghost function UnknownChunks(o: Databases, t: Databases, chosen: set<Fingerprint>): set<Fingerprint> {
    set f | f in t.freq && f in chosen && f !in o.freq
  }

  /** The report: the correct inferences of a finished run, from seeds of both sides or from leaked chunks, and the
      leaked chunks that the auxiliary side does not know. */
  ghost predicate Outcome(o: Databases, t: Databases, leaking: bool, chosen: set<Fingerprint>, init: nat, st: Settings,
                          inferred: int) {
    if leaking then
      exists first, ws, last :: LeakedRun(st, o, t, chosen, first, ws, last)
        && inferred == last.correct + |UnknownChunks(o, t, chosen)|
    else
      exists first, ws, last :: SeededRun(st, o, t, init, first, ws, last) && inferred == last.correct
  }

  /** Of the leaked chunks, those that the auxiliary side knows, and the others. */
  lemma {:induction false} LeakedParts(targets: set<Fingerprint>, chosen: set<Fingerprint>, ok: set<Fingerprint>,
                                       unknown: set<Fingerprint>)
    requires forall f :: f in unknown <==> f in targets && f in chosen && f !in ok
    ensures |targets * chosen| == |targets * (chosen * ok)| + |unknown|
  {
    var a, b := targets * chosen, targets * (chosen * ok);
    assert a == b + unknown && b !! unknown;
    DisjointSizes(b, unknown);
  }

  lemma {:induction false} ReportedIs(o: Databases, t: Databases, chosen: set<Fingerprint>, last: Work)
    ensures Reported(o, t, chosen, last) == last.correct + |UnknownChunks(o, t, chosen)|
  {
    LeakedParts(t.freq.Keys, chosen, o.freq.Keys, UnknownChunks(o, t, chosen));
  }

  lemma {:induction false} NothingLeaked(o: Databases, t: Databases, last: Work)
    ensures Reported(o, t, {}, last) == last.correct
  {
    LeakedParts(t.freq.Keys, {}, o.freq.Keys, {});
  }

  /** As many chunks are queued as are leaked and known. */
  lemma {:induction false} LeakedSize(o: Databases, t: Databases, chosen: set<Fingerprint>, w: Work)
    requires Leaked(o, t, chosen, w)
    ensures |w.qt| == |t.freq.Keys * (chosen * o.freq.Keys)|
  {
    DistinctSize(w.qt);
    forall f ensures f in KeySet(w.qt) <==> f in t.freq.Keys * (chosen * o.freq.Keys) { KeySetOfKeys(w.qt, f); }
    assert KeySet(w.qt) == t.freq.Keys * (chosen * o.freq.Keys);
  }

  /** A run from leaked chunks infers at least those that the auxiliary side knows, and nothing if there are none. */
  lemma {:induction false} LeakedInferred(st: Settings, o: Databases, t: Databases, chosen: set<Fingerprint>,
                                          first: Work, ws: seq<Work>, last: Work)
    requires LeakedRun(st, o, t, chosen, first, ws, last)
    ensures last.correct >= |t.freq.Keys * (chosen * o.freq.Keys)|
    ensures |t.freq.Keys * (chosen * o.freq.Keys)| == 0 ==> last.correct == 0
  {
    LeakedSize(o, t, chosen, first);
    HitsDiagonal(first.qo, first.qt);
    CertainAreInferred(st, o, t, first, ws, last);
    if first.qt == [] { NothingInferred(st, o, t, first, ws, last); }
  }

  lemma {:induction false} LeakedKnown(o: Databases, t: Databases, chosen: set<Fingerprint>)
    ensures |LeakedChunks(t, chosen)| == |t.freq.Keys * (chosen * o.freq.Keys)| + |UnknownChunks(o, t, chosen)|
    ensures LeakedChunks(t, chosen) !! o.freq.Keys ==> |t.freq.Keys * (chosen * o.freq.Keys)| == 0
  {
    LeakedParts(t.freq.Keys, chosen, o.freq.Keys, UnknownChunks(o, t, chosen));
    assert LeakedChunks(t, chosen) == t.freq.Keys * chosen;
    assert t.freq.Keys * (chosen * o.freq.Keys) == LeakedChunks(t, chosen) * o.freq.Keys;
  }

  /** With leaked chunks the report is at least their number, and exactly their number if the auxiliary side knows none
      of them. */
  lemma {:induction false} LeakedChunksReported(o: Databases, t: Databases, chosen: set<Fingerprint>, init: nat,
                                                st: Settings, inferred: int)
    requires Outcome(o, t, true, chosen, init, st, inferred)
    ensures inferred >= |LeakedChunks(t, chosen)|
    ensures LeakedChunks(t, chosen) !! o.freq.Keys ==> inferred == |LeakedChunks(t, chosen)|
  {
    var first, ws, last :| LeakedRun(st, o, t, chosen, first, ws, last)
      && inferred == last.correct + |UnknownChunks(o, t, chosen)|;
    LeakedInferred(st, o, t, chosen, first, ws, last);
    LeakedKnown(o, t, chosen);
  }

  /** A run from seeds infers at least those that are certain, and nothing if a side has no chunks. */
  lemma {:induction false} SeedsInferred(st: Settings, o: Databases, t: Databases, init: nat, first: Work,
                                         ws: seq<Work>, last: Work)
    requires SeededRun(st, o, t, init, first, ws, last)
    ensures last.correct >= Hits(first.qo, first.qt)
    ensures |o.freq.Keys| == 0 || |t.freq.Keys| == 0 ==> last.correct == 0
  {
    CertainAreInferred(st, o, t, first, ws, last);
    SeedsNumber(o.freq, init, first.qo);
    SeedsNumber(t.freq, init, first.qt);
    if first.qo == [] || first.qt == [] { NothingInferred(st, o, t, first, ws, last); }
  }

  /** Without leaked chunks and without ties, the report on two sides with the same chunks and counts is at least the
      number of seeds; and it is zero if a side has no chunks. */
  lemma {:induction false} SeedsReported(o: Databases, t: Databases, chosen: set<Fingerprint>, init: nat,
                                         st: Settings, inferred: int)
    requires Outcome(o, t, false, chosen, init, st, inferred)
    ensures SameCounts(o.freq, t.freq) && TieFree(t.freq) ==> inferred >= Min(init, |t.freq.Keys|)
    ensures |o.freq.Keys| == 0 || |t.freq.Keys| == 0 ==> inferred == 0
  {
    var first, ws, last :| SeededRun(st, o, t, init, first, ws, last) && inferred == last.correct;
    SeedsInferred(st, o, t, init, first, ws, last);
    if SameCounts(o.freq, t.freq) && TieFree(t.freq) { SeedsCertain(o, t, init, first); }
  }

  // ---------------------------------------------------------------- the same for two streams

  /** No two chunks of a stream occur equally often. */
  ghost predicate NoTies(s: seq<Fingerprint>) {
    forall i, j :: 0 <= i < |s| && 0 <= j < |s| && Occurrences(s, s[i]) == Occurrences(s, s[j]) ==> s[i] == s[j]
  }

  lemma {:induction false} CountedTieFree(d: Databases, s: seq<Fingerprint>)
    requires Counted(d, s) && NoTies(s)
    ensures TieFree(d.freq)
  {
    forall f, g | f in d.freq && g in d.freq && Decode(d.freq[f]) == Decode(d.freq[g]) ensures f == g {
      CountedAt(d, s, f);
      CountedAt(d, s, g);
    }
  }

  lemma {:induction false} CountedAt(d: Databases, s: seq<Fingerprint>, f: Fingerprint)
    requires Counted(d, s)
    ensures f in d.freq <==> f in s
    ensures f in d.freq ==> Decode(d.freq[f]) == Occurrences(s, f)
  {
    OccurrencesBound(s, f);
    if f in d.freq { EncodeRoundTrip(Occurrences(s, f)); }
  }

  /** The stores of rearranged streams hold the same chunks and counts. */
  lemma {:induction false} RearrangedSameCounts(o: Databases, so: seq<Fingerprint>, t: Databases, ts: seq<Fingerprint>)
    requires Counted(o, so) && Counted(t, ts) && multiset(so) == multiset(ts)
    ensures SameCounts(o.freq, t.freq)
  {
    forall f ensures f in o.freq <==> f in t.freq {
      CountedAt(o, so, f);
      CountedAt(t, ts, f);
      assert f in so <==> f in multiset(so);
      assert f in ts <==> f in multiset(ts);
    }
    forall f | f in o.freq && f in t.freq ensures Decode(o.freq[f]) == Decode(t.freq[f]) {
      CountedAt(o, so, f);
      CountedAt(t, ts, f);
      OccurrencesMultiplicity(so, f);
      OccurrencesMultiplicity(ts, f);
    }
  }

  lemma {:induction false} OccurrencesMultiplicity(s: seq<Fingerprint>, f: Fingerprint)
    ensures Occurrences(s, f) == multiset(s)[f]
  {
    if s != [] {
      OccurrencesMultiplicity(s[..|s| - 1], f);
      assert s == s[..|s| - 1] + [s[|s| - 1]];
    }
  }
}
