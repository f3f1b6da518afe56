/** The co-occurrence index: how often each chunk occurs, and next to which neighbours. */
module LocalityCount {
  import opened Bytes
  import opened Records

  // ---------------------------------------------------------------- what is counted

  /** A string copied up to its first zero byte and padded with zeros, as fingerprints are copied into neighbour
      records. */
  function Copied(s: seq<Byte>): (r: seq<Byte>)
    ensures |r| == |s|
  {
    if s == [] then [] else if s[0] == 0 then seq(|s|, i => 0) else [s[0]] + Copied(s[1..])
  }

  function Trunc(f: Fingerprint): Fingerprint { Copied(f) }

  /** No zero byte comes before a non-zero one. */
  predicate NulSafe(s: seq<Byte>) {
    forall i, j :: 0 <= i < j < |s| && s[i] == 0 ==> s[j] == 0
  }

  /** Exactly the fingerprints without embedded zero bytes are copied unchanged. */
  lemma {:induction false} CopiedUnchanged(s: seq<Byte>)
    ensures Copied(s) == s <==> NulSafe(s)
  {
    if s != [] {
      CopiedUnchanged(s[1..]);
      if s[0] != 0 {
        assert Copied(s)[1..] == Copied(s[1..]);
        assert Copied(s) == s <==> Copied(s[1..]) == s[1..];
        assert NulSafe(s[1..]) ==> NulSafe(s) by {
          forall i, j | NulSafe(s[1..]) && 0 <= i < j < |s| && s[i] == 0 ensures s[j] == 0 {
            assert s[1..][i - 1] == s[i] && s[1..][j - 1] == s[j];
          }
        }
      }
    }
  }

  /** A byte is copied if no zero byte comes at or before it, and is zero otherwise. */
  lemma {:induction false} CopiedAt(s: seq<Byte>, i: nat)
    requires i < |s|
    ensures Copied(s)[i] == if (exists j :: 0 <= j <= i && s[j] == 0) then 0 else s[i]
  {
    if s[0] != 0 && i > 0 {
      CopiedAt(s[1..], i - 1);
      if j :| 0 <= j <= i && s[j] == 0 { assert s[1..][j - 1] == 0; }
    }
  }

  /** Copying twice changes nothing more. */
  lemma {:induction false} CopiedTwice(s: seq<Byte>)
    ensures Copied(Copied(s)) == Copied(s)
  {
    if s != [] && s[0] != 0 {
      CopiedTwice(s[1..]);
      assert Copied(s)[1..] == Copied(s[1..]);
    }
  }

  /** How often f occurs. */
  function Occurrences(s: seq<Fingerprint>, f: Fingerprint): nat {
    if s == [] then 0 else Occurrences(s[..|s| - 1], f) + if s[|s| - 1] == f then 1 else 0
  }

  /** The positions of a stream where f occurs. */
  function Positions(s: seq<Fingerprint>, f: Fingerprint): set<int> {
    set i | 0 <= i < |s| && s[i] == f
  }

  /** `Occurrences` is their number. */
  lemma {:induction false} OccurrencesArePositions(s: seq<Fingerprint>, f: Fingerprint)
    ensures Occurrences(s, f) == |Positions(s, f)|
  {
    if s == [] {
      assert Positions(s, f) == {};
    } else {
      var n := |s| - 1;
      OccurrencesArePositions(s[..n], f);
      assert Positions(s, f) == Positions(s[..n], f) + if s[n] == f then {n} else {};
    }
  }

  /** How often a chunk whose copied fingerprint is k comes right before f. */
  function Before(s: seq<Fingerprint>, k: Fingerprint, f: Fingerprint): nat {
    if |s| < 2 then 0
    else Before(s[..|s| - 1], k, f) + if s[|s| - 1] == f && Trunc(s[|s| - 2]) == k then 1 else 0
  }

  /** How often a chunk whose copied fingerprint is k comes right after f. */
  function After(s: seq<Fingerprint>, f: Fingerprint, k: Fingerprint): nat {
    if |s| < 2 then 0
    else After(s[..|s| - 1], f, k) + if s[|s| - 2] == f && Trunc(s[|s| - 1]) == k then 1 else 0
  }

  /** The left record of f: its left neighbours in order of first appearance, with counts. */
  function LeftEntries(s: seq<Fingerprint>, f: Fingerprint): seq<Entry> {
    if |s| < 2 then []
    else if s[|s| - 1] == f then Bump(LeftEntries(s[..|s| - 1], f), Trunc(s[|s| - 2])) else LeftEntries(s[..|s| - 1], f)
  }

  /** The right record of f. */
  function RightEntries(s: seq<Fingerprint>, f: Fingerprint): seq<Entry> {
    if |s| < 2 then []
    else if s[|s| - 2] == f then Bump(RightEntries(s[..|s| - 1], f), Trunc(s[|s| - 1]))
      else RightEntries(s[..|s| - 1], f)
  }

  /** At position i, a chunk whose copied fingerprint is k comes right before f. */
  predicate BeforeAt(s: seq<Fingerprint>, k: Fingerprint, f: Fingerprint, i: int) {
    1 <= i < |s| && Trunc(s[i - 1]) == k && s[i] == f
  }

  /** At position i, a chunk whose copied fingerprint is k comes right after f. */
  predicate AfterAt(s: seq<Fingerprint>, f: Fingerprint, k: Fingerprint, i: int) {
    1 <= i < |s| && s[i - 1] == f && Trunc(s[i]) == k
  }

  function PositionsBefore(s: seq<Fingerprint>, k: Fingerprint, f: Fingerprint): set<int> {
    set i | 1 <= i < |s| && BeforeAt(s, k, f, i)
  }

  function PositionsAfter(s: seq<Fingerprint>, f: Fingerprint, k: Fingerprint): set<int> {
    set i | 1 <= i < |s| && AfterAt(s, f, k, i)
  }

  /** `Before` is the number of positions where k comes right before f. */
  lemma {:induction false} BeforeArePositions(s: seq<Fingerprint>, k: Fingerprint, f: Fingerprint)
    ensures Before(s, k, f) == |PositionsBefore(s, k, f)|
  {
    if |s| < 2 {
      assert PositionsBefore(s, k, f) == {};
    } else {
      var n := |s| - 1;
      BeforeArePositions(s[..n], k, f);
      var more := if BeforeAt(s, k, f, n) then {n} else {};
      assert PositionsBefore(s, k, f) == PositionsBefore(s[..n], k, f) + more;
    }
  }

  /** `After` is the number of positions where k comes right after f. */
  lemma {:induction false} AfterArePositions(s: seq<Fingerprint>, f: Fingerprint, k: Fingerprint)
    ensures After(s, f, k) == |PositionsAfter(s, f, k)|
  {
    if |s| < 2 {
      assert PositionsAfter(s, f, k) == {};
    } else {
      var n := |s| - 1;
      AfterArePositions(s[..n], f, k);
      var more := if AfterAt(s, f, k, n) then {n} else {};
      assert PositionsAfter(s, f, k) == PositionsAfter(s[..n], f, k) + more;
    }
  }

  // ---------------------------------------------------------------- what the records mean

  /** Left records have one entry per neighbour, counting the adjacent pairs. */
  lemma {:induction false} LeftCountsPairs(s: seq<Fingerprint>, f: Fingerprint, k: Fingerprint)
    ensures Distinct(LeftEntries(s, f)) && CountOf(LeftEntries(s, f), k) == Before(s, k, f)
  {
    if |s| >= 2 {
      LeftCountsPairs(s[..|s| - 1], f, k);
      if s[|s| - 1] == f {
        BumpKeepsDistinct(LeftEntries(s[..|s| - 1], f), Trunc(s[|s| - 2]));
        BumpCounts(LeftEntries(s[..|s| - 1], f), Trunc(s[|s| - 2]), k);
      }
    }
  }

  lemma {:induction false} RightCountsPairs(s: seq<Fingerprint>, f: Fingerprint, k: Fingerprint)
    ensures Distinct(RightEntries(s, f)) && CountOf(RightEntries(s, f), k) == After(s, f, k)
  {
    if |s| >= 2 {
      RightCountsPairs(s[..|s| - 1], f, k);
      if s[|s| - 2] == f {
        BumpKeepsDistinct(RightEntries(s[..|s| - 1], f), Trunc(s[|s| - 1]));
        BumpCounts(RightEntries(s[..|s| - 1], f), Trunc(s[|s| - 1]), k);
      }
    }
  }

  /** The left record of f adds up to its frequency, less one if f comes first. */
  lemma {:induction false} LeftTotal(s: seq<Fingerprint>, f: Fingerprint)
    ensures Total(LeftEntries(s, f)) == Occurrences(s, f) - if s != [] && s[0] == f then 1 else 0
  {
    if |s| >= 2 {
      LeftTotal(s[..|s| - 1], f);
      if s[|s| - 1] == f { BumpTotal(LeftEntries(s[..|s| - 1], f), Trunc(s[|s| - 2])); }
    } else if |s| == 1 {
      assert Occurrences(s[..0], f) == 0;
    }
  }

  /** The right record of f adds up to its frequency, less one if f comes last. */
  lemma {:induction false} RightTotal(s: seq<Fingerprint>, f: Fingerprint)
    ensures Total(RightEntries(s, f)) == Occurrences(s, f) - if s != [] && s[|s| - 1] == f then 1 else 0
  {
    if |s| >= 2 {
      RightTotal(s[..|s| - 1], f);
      if s[|s| - 2] == f { BumpTotal(RightEntries(s[..|s| - 1], f), Trunc(s[|s| - 1])); }
    } else if |s| == 1 {
      assert Occurrences(s[..0], f) == 0;
    }
  }

  predicate AllNulSafe(s: seq<Fingerprint>) {
    forall i :: 0 <= i < |s| ==> NulSafe(s[i])
  }

  /** Where a pair is counted there is one. */
  lemma {:induction false} BeforeWitness(s: seq<Fingerprint>, k: Fingerprint, f: Fingerprint) returns (i: nat)
    requires Before(s, k, f) > 0
    ensures i + 1 < |s| && s[i + 1] == f && Trunc(s[i]) == k
  {
    if s[|s| - 1] == f && Trunc(s[|s| - 2]) == k { i := |s| - 2; } else { i := BeforeWitness(s[..|s| - 1], k, f); }
  }

  lemma {:induction false} AfterWitness(s: seq<Fingerprint>, f: Fingerprint, k: Fingerprint) returns (i: nat)
    requires After(s, f, k) > 0
    ensures i + 1 < |s| && s[i] == f && Trunc(s[i + 1]) == k
  {
    if s[|s| - 2] == f && Trunc(s[|s| - 1]) == k { i := |s| - 2; } else { i := AfterWitness(s[..|s| - 1], f, k); }
  }

  lemma {:induction false} PairCounted(s: seq<Fingerprint>, i: nat)
    requires i + 1 < |s|
    ensures Before(s, Trunc(s[i]), s[i + 1]) > 0 && After(s, s[i], Trunc(s[i + 1])) > 0
  {
    if i + 2 < |s| { PairCounted(s[..|s| - 1], i); }
  }

  /** Left and right records are transposes of each other. */
  ghost predicate Transposed(s: seq<Fingerprint>) {
    forall a: Fingerprint, b: Fingerprint :: CountOf(LeftEntries(s, b), a) == CountOf(RightEntries(s, a), b)
  }

  /** They are exactly if there are no neighbours at all or no chunk has an embedded zero byte. */
  lemma {:induction false} RecordsTransposed(s: seq<Fingerprint>)
    ensures Transposed(s) <==> |s| < 2 || AllNulSafe(s)
  {
    if |s| < 2 || AllNulSafe(s) {
      forall a: Fingerprint, b: Fingerprint ensures CountOf(LeftEntries(s, b), a) == CountOf(RightEntries(s, a), b) {
        LeftCountsPairs(s, b, a);
        RightCountsPairs(s, a, b);
        if |s| >= 2 { PairsTransposed(s, a, b); }
      }
    } else {
      var i :| 0 <= i < |s| && !NulSafe(s[i]);
      UntruncatableKey(s, i);
    }
  }

  /** A fingerprint with an embedded zero byte is never the key of a record entry. */
  lemma {:induction false} NeverAKey(s: seq<Fingerprint>, f: Fingerprint, g: Fingerprint)
    requires !NulSafe(f)
    ensures Before(s, f, g) == 0 && After(s, g, f) == 0
  {
    CopiedUnchanged(f);
    if Before(s, f, g) > 0 {
      var i := BeforeWitness(s, f, g);
      CopiedTwice(s[i]);
    }
    if After(s, g, f) > 0 {
      var i := AfterWitness(s, g, f);
      CopiedTwice(s[i + 1]);
    }
  }

  lemma {:induction false} UntruncatableKey(s: seq<Fingerprint>, i: nat)
    requires |s| >= 2 && i < |s| && !NulSafe(s[i])
    ensures !Transposed(s)
  {
    var f := s[i];
    if i + 1 < |s| {
      var b := Trunc(s[i + 1]);
      PairCounted(s, i);
      NeverAKey(s, f, b);
      LeftCountsPairs(s, b, f);
      RightCountsPairs(s, f, b);
    } else {
      var a := Trunc(s[i - 1]);
      PairCounted(s, i - 1);
      NeverAKey(s, f, a);
      LeftCountsPairs(s, f, a);
      RightCountsPairs(s, a, f);
    }
  }

  lemma {:induction false} PairsTransposed(s: seq<Fingerprint>, a: Fingerprint, b: Fingerprint)
    requires AllNulSafe(s)
    ensures Before(s, a, b) == After(s, a, b)
  {
    if |s| >= 2 {
      PairsTransposed(s[..|s| - 1], a, b);
      CopiedUnchanged(s[|s| - 1]);
      CopiedUnchanged(s[|s| - 2]);
    }
  }

  /** With an embedded zero byte they need not be: the chunk before is recorded under a fingerprint that never
      occurs. */
  lemma {:induction false} EmbeddedZeroBreaksTransposition(x: Fingerprint, a: Fingerprint)
    requires x == [0, 1, 0, 0, 0, 0] && a == [1, 1, 1, 1, 1, 1]
    ensures CountOf(LeftEntries([x, a], a), x) == 0 && CountOf(RightEntries([x, a], x), a) == 1
  {
    var s := [x, a];
    LeftCountsPairs(s, a, x);
    RightCountsPairs(s, x, a);
    CopiedUnchanged(a);
    CopiedUnchanged(x);
    assert s[..1] == [x];
    assert !NulSafe(x) by { assert x[0] == 0 && x[1] != 0; }
  }

  // ---------------------------------------------------------------- the program

  /** Scan a packed record for a key; `i` is the number of entries passed. */
  method Scan(record: seq<Byte>, key: Fingerprint, ghost es: seq<Entry>) returns (pos: nat, found: bool, ghost i: nat)
    requires record == Pack(es) && es != []
    ensures pos == 14 * i && i == Find(es, key) && (found <==> i < |es|)
  {
    pos, found, i := 0, false, 0;
    while pos < |record| - 1
      invariant 0 <= i <= |es| && pos == 14 * i
      invariant forall j :: 0 <= j < i ==> es[j].key != key
    {
      PackAt(es, i);
      EntryAt(record, es[i], pos);
      if record[pos..pos + FP_SIZE] == key { return pos, true, i; }
      pos := pos + ENTRY_SIZE;
      i := i + 1;
    }
  }

  /** A stored count plus one, in 64-bit arithmetic. */
  method Incremented(bytes: seq<Byte>, ghost v: nat) returns (out: seq<Byte>)
    requires bytes == Encode(v) && v < MAX_COUNT
    ensures out == Encode(v + 1)
  {
    EncodeRoundTrip(v);
    var count := Decode(bytes);
    count := if count == MAX_COUNT then 0 else count + 1;
    out := Encode(count);
  }

  /** Add one to the count of the entry at a position, in place. */
  method Increment(record: seq<Byte>, pos: nat, ghost es: seq<Entry>, ghost i: nat) returns (out: seq<Byte>)
    requires record == Pack(es) && i < |es| && pos == 14 * i && es[i].count < MAX_COUNT
    ensures out == Pack(es[i := Entry(es[i].key, es[i].count + 1)])
  {
    PackAt(es, i);
    EntryAt(record, es[i], pos);
    var bytes := Incremented(record[pos + FP_SIZE..pos + ENTRY_SIZE], es[i].count);
    PackUpdate(es, i, Entry(es[i].key, es[i].count + 1));
    out := record[..pos + FP_SIZE] + bytes + record[pos + ENTRY_SIZE..];
    Replaced(record, pos, es[i].key, bytes);
  }

  lemma {:induction false} Replaced(record: seq<Byte>, pos: int, key: Fingerprint, bytes: seq<Byte>)
    requires 0 <= pos <= pos + ENTRY_SIZE <= |record| && record[pos..pos + FP_SIZE] == key
    ensures record[..pos + FP_SIZE] + bytes + record[pos + ENTRY_SIZE..] == record[..pos] + (key + bytes)
      + record[pos + ENTRY_SIZE..]
  {
    assert record[..pos + FP_SIZE] == record[..pos] + record[pos..pos + FP_SIZE];
  }

  /** Count one more occurrence of a key in a packed record. */
  method BumpRecord(record: seq<Byte>, key: Fingerprint, ghost es: seq<Entry>) returns (out: seq<Byte>)
    requires record == Pack(es) && es != [] && Total(es) < MAX_COUNT
    ensures out == Pack(Bump(es, key))
  {
    var pos, found, i := Scan(record, key, es);
    if found {
      MemberAtMostTotal(es, i);
      out := Increment(record, pos, es, i);
    } else {
      PackSnoc(es, Entry(key, 1));
      out := record + key + Encode(1);
      assert out == record + (key + Encode(1));
    }
  }

  lemma {:induction false} EntryAt(record: seq<Byte>, e: Entry, pos: int)
    requires 0 <= pos <= pos + ENTRY_SIZE <= |record| && record[pos..pos + ENTRY_SIZE] == PackEntry(e)
    ensures record[pos..pos + FP_SIZE] == e.key && record[pos + FP_SIZE..pos + ENTRY_SIZE] == Encode(e.count)
  {
    var t := record[pos..pos + ENTRY_SIZE];
    assert record[pos..pos + FP_SIZE] == t[..FP_SIZE];
    assert record[pos + FP_SIZE..pos + ENTRY_SIZE] == t[FP_SIZE..];
  }

  /** The store holds exactly the packed non-empty records. */
  ghost predicate Holds(store: map<Fingerprint, seq<Byte>>, records: Fingerprint -> seq<Entry>) {
    forall f: Fingerprint :: (f in store <==> records(f) != []) && (f in store ==> store[f] == Pack(records(f)))
  }

  /** Look the record up, create or extend it, and store it again. */
  method BumpStore(store: map<Fingerprint, seq<Byte>>, f: Fingerprint, key: Fingerprint,
                   ghost records: Fingerprint -> seq<Entry>)
    returns (out: map<Fingerprint, seq<Byte>>)
    requires Holds(store, records) && Total(records(f)) < MAX_COUNT
    ensures out == store[f := Pack(Bump(records(f), key))]
  {
    var value;
    if f in store {
      value := BumpRecord(store[f], key, records(f));
      out := store - {f};
      out := out[f := value];
      assert out == store[f := value];
    } else {
      value := key + Encode(1);
      assert Bump([], key) == [Entry(key, 1)] && [Entry(key, 1)][1..] == [];
      assert Pack([Entry(key, 1)]) == PackEntry(Entry(key, 1));
      out := store[f := value];
    }
  }

  function Lefts(s: seq<Fingerprint>): Fingerprint -> seq<Entry> { (f: Fingerprint) => LeftEntries(s, f) }
  function Rights(s: seq<Fingerprint>): Fingerprint -> seq<Entry> { (f: Fingerprint) => RightEntries(s, f) }

  /** The frequency store holds the encoded number of occurrences of every chunk. */
  ghost predicate Counts(db: map<Fingerprint, seq<Byte>>, s: seq<Fingerprint>) {
    forall f: Fingerprint :: (f in db <==> f in s) && (f in db ==> db[f] == Encode(Occurrences(s, f)))
  }

  lemma {:induction false} OccurrencesBound(s: seq<Fingerprint>, f: Fingerprint)
    ensures Occurrences(s, f) <= |s| && (Occurrences(s, f) > 0 <==> f in s)
  {
    if s != [] { OccurrencesBound(s[..|s| - 1], f); }
  }

  lemma {:induction false} OccurrencesSnoc(s: seq<Fingerprint>, hash: Fingerprint, f: Fingerprint)
    ensures Occurrences(s + [hash], f) == Occurrences(s, f) + if f == hash then 1 else 0
  {
    assert (s + [hash])[..|s|] == s;
  }

  lemma {:induction false} CountsNext(db: map<Fingerprint, seq<Byte>>, db': map<Fingerprint, seq<Byte>>,
                                      s: seq<Fingerprint>, hash: Fingerprint, count: seq<Byte>)
    requires Counts(db, s) && count == Encode(Occurrences(s, hash) + 1)
    requires hash in db' && db'[hash] == count
    requires forall f: Fingerprint :: f != hash ==> (f in db' <==> f in db) && (f in db ==> db'[f] == db[f])
    ensures Counts(db', s + [hash])
  {
    forall f: Fingerprint
      ensures (f in db' <==> f in s + [hash]) && (f in db' ==> db'[f] == Encode(Occurrences(s + [hash], f)))
    {
      OccurrencesSnoc(s, hash, f);
    }
  }

  class Counter {
    var db: map<Fingerprint, seq<Byte>>
    var left: map<Fingerprint, seq<Byte>>
    var right: map<Fingerprint, seq<Byte>>

    /** The three stores index the chunks read so far. */
    ghost predicate Indexes(s: seq<Fingerprint>)
      reads this
    {
      Counts(db, s) && Holds(left, Lefts(s)) && Holds(right, Rights(s))
    }

    constructor ()
      ensures Indexes([])
    {
      db, left, right := map[], map[], map[];
    }

    /** Count the occurrence of a chunk. */
    method CountChunk(hash: Fingerprint, ghost s: seq<Fingerprint>)
      requires Counts(db, s) && |s| < MAX_COUNT
      modifies this`db
      ensures Counts(db, s + [hash])
    {
      OccurrencesBound(s, hash);
      ghost var before := db;
      var count := Encode(1);
      if hash in db {
        count := Incremented(db[hash], Occurrences(s, hash));
        db := db - {hash};
      }
      db := db[hash := count];
      CountsNext(before, db, s, hash, count);
    }

    /** Count the pair of a chunk and the one before it, in both directions. */
    method CountPair(last: Fingerprint, hash: Fingerprint, ghost s: seq<Fingerprint>)
      requires s != [] && last == s[|s| - 1] && |s| < MAX_COUNT && Holds(left, Lefts(s)) && Holds(right, Rights(s))
      modifies this`left, this`right
      ensures Holds(left, Lefts(s + [hash])) && Holds(right, Rights(s + [hash]))
    {
      LeftTotal(s, hash);
      RightTotal(s, last);
      OccurrencesBound(s, hash);
      OccurrencesBound(s, last);
      left := BumpStore(left, hash, Trunc(last), Lefts(s));
      right := BumpStore(right, last, Trunc(hash), Rights(s));
      HoldsLeft(left, s, hash);
      HoldsRight(right, s, hash);
    }

    /** One turn of the reading loop. */
    method CountNext(last: Fingerprint, flag: bool, hash: Fingerprint, ghost s: seq<Fingerprint>)
      requires Indexes(s) && |s| < MAX_COUNT && (flag <==> s != []) && (flag ==> last == s[|s| - 1])
      modifies this
      ensures Indexes(s + [hash])
    {
      CountChunk(hash, s);
      if flag {
        CountPair(last, hash, s);
      } else {
        FirstChunk(left, right, hash);
        assert s + [hash] == [hash];
      }
    }

    /** Read a whole stream into empty stores. */
    method ReadHashes(stream: seq<Fingerprint>)
      requires Indexes([]) && |stream| <= MAX_COUNT
      modifies this
      ensures Indexes(stream)
    {
      var last: Fingerprint, flag := [0, 0, 0, 0, 0, 0], false;
      for i := 0 to |stream|
        invariant Indexes(stream[..i])
        invariant flag <==> i > 0
        invariant flag ==> last == stream[i - 1]
      {
        var hash := stream[i];
        assert stream[..i + 1] == stream[..i] + [hash];
        CountNext(last, flag, hash, stream[..i]);
        last, flag := hash, true;
      }
      assert stream[..|stream|] == stream;
    }
  }

  lemma {:induction false} FirstChunk(left: map<Fingerprint, seq<Byte>>, right: map<Fingerprint, seq<Byte>>,
                                      hash: Fingerprint)
    requires Holds(left, Lefts([])) && Holds(right, Rights([]))
    ensures Holds(left, Lefts([hash])) && Holds(right, Rights([hash]))
  {
    assert forall f: Fingerprint :: Lefts([])(f) == [] == Lefts([hash])(f);
    assert forall f: Fingerprint :: Rights([])(f) == [] == Rights([hash])(f);
  }

  lemma {:induction false} HoldsLeft(out: map<Fingerprint, seq<Byte>>, s: seq<Fingerprint>, hash: Fingerprint)
    requires s != []
    requires exists store ::
      Holds(store, Lefts(s)) && out == store[hash := Pack(Bump(LeftEntries(s, hash), Trunc(s[|s| - 1])))]
    ensures Holds(out, Lefts(s + [hash]))
  {
    var t := s + [hash];
    assert t[..|t| - 1] == s;
    forall f: Fingerprint
      ensures Lefts(t)(f) == if f == hash then Bump(LeftEntries(s, f), Trunc(s[|s| - 1])) else Lefts(s)(f)
    {
    }
  }

  lemma {:induction false} HoldsRight(out: map<Fingerprint, seq<Byte>>, s: seq<Fingerprint>, hash: Fingerprint)
    requires s != []
    requires exists store ::
      Holds(store, Rights(s)) && out == store[s[|s| - 1] := Pack(Bump(RightEntries(s, s[|s| - 1]), Trunc(hash)))]
    ensures Holds(out, Rights(s + [hash]))
  {
    var t := s + [hash];
    assert t[..|t| - 1] == s;
    forall f: Fingerprint
      ensures Rights(t)(f) == if f == s[|s| - 1] then Bump(RightEntries(s, f), Trunc(hash)) else Rights(s)(f)
    {
    }
  }
}
