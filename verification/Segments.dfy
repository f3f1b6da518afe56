/** Greedy segmentation of a chunk stream into segments of bounded size. */
module Segments {
  import opened Bytes

  const SEG_SIZE := 0x80_0000

  /** A chunk: its fingerprint and its size in bytes. */
  datatype Chunk = Chunk(key: Fingerprint, size: nat)

  function Size(seg: seq<Chunk>): nat {
    if seg == [] then 0 else Size(seg[..|seg| - 1]) + seg[|seg| - 1].size
  }

  function Keys(seg: seq<Chunk>): (keys: seq<Fingerprint>)
    ensures |keys| == |seg|
  {
    seq(|seg|, i requires 0 <= i < |seg| => seg[i].key)
  }

  function Flatten(segs: seq<seq<Chunk>>): seq<Chunk> {
    if segs == [] then [] else segs[0] + Flatten(segs[1..])
  }

  /** The segments of an open segment `open` followed by the chunks `rest`. */
  function Cut(open: seq<Chunk>, rest: seq<Chunk>): (segs: seq<seq<Chunk>>)
    ensures |segs| > 0
    decreases rest
  {
    if rest == [] then [open]
    else if Size(open) + rest[0].size > SEG_SIZE then [open] + Cut([rest[0]], rest[1..])
    else Cut(open + [rest[0]], rest[1..])
  }

  function SegmentsOf(stream: seq<Chunk>): (segs: seq<seq<Chunk>>)
    ensures |segs| > 0
  {
    Cut([], stream)
  }

  // ---------------------------------------------------------------- what the greedy cut is

  lemma {:induction false} CutFlattens(open: seq<Chunk>, rest: seq<Chunk>)
    ensures Flatten(Cut(open, rest)) == open + rest
    decreases rest
  {
    if rest != [] {
      assert rest == [rest[0]] + rest[1..];
      if Size(open) + rest[0].size > SEG_SIZE {
        CutFlattens([rest[0]], rest[1..]);
        assert Cut(open, rest)[1..] == Cut([rest[0]], rest[1..]);
      } else {
        CutFlattens(open + [rest[0]], rest[1..]);
      }
    }
  }

  /** Every chunk fits in a segment. */
  predicate ChunksFit(chunks: seq<Chunk>) {
    forall i :: 0 <= i < |chunks| ==> chunks[i].size <= SEG_SIZE
  }

  predicate SegmentsFit(segs: seq<seq<Chunk>>) {
    forall i :: 0 <= i < |segs| ==> Size(segs[i]) <= SEG_SIZE
  }

  /** Each segment could not have taken one more chunk. */
  predicate Tight(segs: seq<seq<Chunk>>) {
    |segs| < 2 || (segs[1] != [] && Size(segs[0]) + segs[1][0].size > SEG_SIZE && Tight(segs[1..]))
  }

  lemma {:induction false} TightTail(segs: seq<seq<Chunk>>, i: int)
    requires Tight(segs) && 0 < i < |segs|
    ensures segs[i] != []
  {
    if i > 1 { TightTail(segs[1..], i - 1); }
  }

  predicate NonEmpty(segs: seq<seq<Chunk>>) {
    forall i :: 0 <= i < |segs| ==> segs[i] != []
  }

  lemma {:induction false} SizeSingle(c: Chunk)
    ensures Size([c]) == c.size
  {
    assert [c][..0] == [];
  }

  lemma {:induction false} SizeSnoc(seg: seq<Chunk>, c: Chunk)
    ensures Size(seg + [c]) == Size(seg) + c.size
  {
    assert (seg + [c])[..|seg|] == seg;
  }

  lemma {:induction false} SizeMember(seg: seq<Chunk>, i: int)
    requires 0 <= i < |seg|
    ensures seg[i].size <= Size(seg)
  {
    if i < |seg| - 1 { SizeMember(seg[..|seg| - 1], i); }
  }

  /** The first segment starts with what is open, and every later one is non-empty. */
  lemma {:induction false} CutHead(open: seq<Chunk>, rest: seq<Chunk>)
    ensures open <= Cut(open, rest)[0]
    ensures open == [] && rest != [] && rest[0].size <= SEG_SIZE ==> Cut(open, rest)[0] != []
    decreases rest
  {
    if rest != [] && Size(open) + rest[0].size <= SEG_SIZE {
      CutHead(open + [rest[0]], rest[1..]);
    }
  }

  lemma {:induction false} CutIsTight(open: seq<Chunk>, rest: seq<Chunk>)
    ensures Tight(Cut(open, rest))
    decreases rest
  {
    if rest != [] {
      if Size(open) + rest[0].size > SEG_SIZE {
        CutIsTight([rest[0]], rest[1..]);
        CutHead([rest[0]], rest[1..]);
        assert Cut(open, rest)[1..] == Cut([rest[0]], rest[1..]);
      } else {
        CutIsTight(open + [rest[0]], rest[1..]);
      }
    }
  }

  lemma {:induction false} CutFits(open: seq<Chunk>, rest: seq<Chunk>)
    requires Size(open) <= SEG_SIZE && ChunksFit(rest)
    ensures SegmentsFit(Cut(open, rest))
    decreases rest
  {
    if rest != [] {
      SizeSingle(rest[0]);
      SizeSnoc(open, rest[0]);
      if Size(open) + rest[0].size > SEG_SIZE {
        CutFits([rest[0]], rest[1..]);
      } else {
        CutFits(open + [rest[0]], rest[1..]);
      }
    }
  }

  lemma {:induction false} FitMembers(segs: seq<seq<Chunk>>)
    requires SegmentsFit(segs)
    ensures ChunksFit(Flatten(segs))
  {
    if segs != [] {
      FitMembers(segs[1..]);
      forall i | 0 <= i < |segs[0]| ensures segs[0][i].size <= SEG_SIZE { SizeMember(segs[0], i); }
    }
  }

  /** Segments concatenate to the stream and are greedy; they fit iff all chunks do, and none is empty iff the stream
      starts with a chunk that fits. */
  lemma {:induction false} SegmentationTheorem(stream: seq<Chunk>)
    ensures Flatten(SegmentsOf(stream)) == stream
    ensures Tight(SegmentsOf(stream))
    ensures SegmentsFit(SegmentsOf(stream)) <==> ChunksFit(stream)
    ensures NonEmpty(SegmentsOf(stream)) <==> stream != [] && stream[0].size <= SEG_SIZE
  {
    CutFlattens([], stream);
    CutIsTight([], stream);
    CutHead([], stream);
    forall i | 0 < i < |SegmentsOf(stream)| ensures SegmentsOf(stream)[i] != [] { TightTail(SegmentsOf(stream), i); }
    if ChunksFit(stream) { CutFits([], stream); }
    if SegmentsFit(SegmentsOf(stream)) { FitMembers(SegmentsOf(stream)); }
  }

  /** There is only one greedy segmentation, whatever produced it. */
  lemma {:induction false} GreedyIsUnique(open: seq<Chunk>, rest: seq<Chunk>, segs: seq<seq<Chunk>>)
    requires segs != [] && Tight(segs) && SegmentsFit(segs) && open <= segs[0] && Flatten(segs) == open + rest
    ensures segs == Cut(open, rest)
    decreases rest
  {
    var tail := segs[1..];
    assert Flatten(segs) == segs[0] + Flatten(tail);
    if rest == [] {
      assert segs[0] == open && Flatten(tail) == [];
      assert segs == [open];
    } else if segs[0] == open {
      assert Flatten(segs)[|open|..] == Flatten(tail) && (open + rest)[|open|..] == rest;
      assert tail != [];
      assert tail[0] == segs[1];
      assert Flatten(tail)[0] == segs[1][0];
      assert rest == [rest[0]] + rest[1..];
      assert [rest[0]] <= tail[0];
      GreedyIsUnique([rest[0]], rest[1..], tail);
      assert segs == [open] + tail;
    } else {
      var c := segs[0][|open|];
      assert Flatten(segs)[|open|] == c && (open + rest)[|open|] == rest[0];
      var more := open + [c];
      assert more <= segs[0];
      assert open + rest == more + rest[1..];
      SizePrefix(more, segs[0]);
      SizeSnoc(open, c);
      GreedyIsUnique(more, rest[1..], segs);
    }
  }

  lemma {:induction false} SizePrefix(p: seq<Chunk>, seg: seq<Chunk>)
    requires p <= seg
    ensures Size(p) <= Size(seg)
  {
    if p != seg {
      assert p <= seg[..|seg| - 1];
      SizePrefix(p, seg[..|seg| - 1]);
    }
  }

  // ---------------------------------------------------------------- recording segments

  /** How often each fingerprint occurs. */
  function Histogram(keys: seq<Fingerprint>): map<Fingerprint, nat> {
    map k | k in keys :: multiset(keys)[k]
  }

  /** The last recorded size of each fingerprint. */
  function Sizes(chunks: seq<Chunk>, before: map<Fingerprint, nat>): map<Fingerprint, nat> {
    if chunks == [] then before
    else Sizes(chunks[..|chunks| - 1], before)[chunks[|chunks| - 1].key := chunks[|chunks| - 1].size]
  }

  /** The last chunk with a fingerprint. */
  predicate LastOf(chunks: seq<Chunk>, k: Fingerprint, i: int) {
    0 <= i < |chunks| && chunks[i].key == k && forall j :: i < j < |chunks| ==> chunks[j].key != k
  }

  /** The size stored for a fingerprint is that of its last chunk. */
  lemma {:induction false} SizesAreLast(chunks: seq<Chunk>, k: Fingerprint, i: int)
    requires LastOf(chunks, k, i)
    ensures k in Sizes(chunks, map[]) && Sizes(chunks, map[])[k] == chunks[i].size
  {
    if i < |chunks| - 1 { SizesAreLast(chunks[..|chunks| - 1], k, i); }
  }

  /** Only fingerprints of chunks have sizes. */
  lemma {:induction false} SizesOfChunks(chunks: seq<Chunk>, k: Fingerprint) returns (i: int)
    requires k in Sizes(chunks, map[])
    ensures LastOf(chunks, k, i)
  {
    i := |chunks| - 1;
    if chunks[i].key != k {
      var n := i;
      i := SizesOfChunks(chunks[..n], k);
      assert chunks[..n][i] == chunks[i];
    }
  }

  lemma {:induction false} SizesSplit(c: seq<Chunk>, d: seq<Chunk>, before: map<Fingerprint, nat>)
    ensures Sizes(c + d, before) == Sizes(d, Sizes(c, before))
  {
    if d == [] {
      assert c + d == c;
    } else {
      assert (c + d)[..|c + d| - 1] == c + d[..|d| - 1];
      SizesSplit(c, d[..|d| - 1], before);
    }
  }

  /** The numbers below n. */
  function Range(n: nat): (r: set<nat>)
    ensures forall i :: i in r <==> 0 <= i < n
    ensures |r| == n
  {
    if n == 0 then {} else Range(n - 1) + {n - 1}
  }

  function Records(segs: seq<seq<Chunk>>): map<nat, map<Fingerprint, nat>> {
    map i: nat | i in Range(|segs|) :: Histogram(Keys(segs[i]))
  }

  function Values(segs: seq<seq<Chunk>>): map<nat, seq<Byte>> {
    map i: nat | i in Range(|segs|) :: Joined(Keys(segs[i]))
  }

  class Slicer {
    /** The number of segments recorded so far. */
    var segCount: nat
    /** Fingerprint counts per segment number. */
    var countMap: map<nat, map<Fingerprint, nat>>
    /** The segment store: the concatenated fingerprints per segment number. */
    var segDb: map<nat, seq<Byte>>
    /** The chunk size store. */
    var chunkSize: map<Fingerprint, nat>

    /** The slicer has recorded exactly these segments. */
    ghost predicate Recorded(segs: seq<seq<Chunk>>)
      reads this
    {
      segCount == |segs| && countMap == Records(segs) && segDb == Values(segs)
        && chunkSize == Sizes(Flatten(segs), map[])
    }

    constructor ()
      ensures Recorded([])
    {
      segCount, countMap, segDb, chunkSize := 0, map[], map[], map[];
    }

    /** Drain the queue: store each chunk's size, string the fingerprints together and count them. */
    method Drain(sq: seq<Chunk>) returns (value: seq<Byte>, counts: map<Fingerprint, nat>)
      modifies this`chunkSize
      ensures value == Joined(Keys(sq)) && counts == Histogram(Keys(sq)) && chunkSize == Sizes(sq, old(chunkSize))
    {
      value, counts := [], map[];
      for i := 0 to |sq|
        invariant value == Joined(Keys(sq[..i])) && counts == Histogram(Keys(sq[..i]))
        invariant chunkSize == Sizes(sq[..i], old(chunkSize))
      {
        var now := sq[i];
        DrainStep(sq, i, old(chunkSize));
        chunkSize := chunkSize[now.key := now.size];
        value := value + now.key;
        counts := counts[now.key := if now.key in counts then counts[now.key] + 1 else 1];
      }
      assert sq[..|sq|] == sq;
    }

    /** Record one segment under the next number. */
    method ProcessSeg(sq: seq<Chunk>, ghost segs: seq<seq<Chunk>>)
      requires Recorded(segs)
      modifies this
      ensures Recorded(segs + [sq])
    {
      var value, counts := Drain(sq);
      segDb := segDb[segCount := value];
      countMap := countMap[segCount := counts];
      segCount := segCount + 1;
      RecordsSnoc(segs, sq);
      ValuesSnoc(segs, sq);
      FlattenSnoc(segs, sq);
      SizesSplit(Flatten(segs), sq, map[]);
    }

    /** Segment a whole stream: the counting map, the segment store and the size store at the end. */
    method ReadHashes(stream: seq<Chunk>)
      requires Recorded([])
      modifies this
      ensures Recorded(SegmentsOf(stream)) && chunkSize == Sizes(stream, map[])
    {
      var sqSize: nat, sq: seq<Chunk> := 0, [];
      ghost var done: seq<seq<Chunk>> := [];
      for i := 0 to |stream|
        invariant sqSize == Size(sq)
        invariant Recorded(done)
        invariant Underway(stream, i, done, sq)
      {
        var c := stream[i];
        UnderwayStep(stream, i, done, sq);
        SizeSnoc(sq, c);
        if sqSize + c.size > SEG_SIZE {
          ProcessSeg(sq, done);
          done := done + [sq];
          sq, sqSize := [], 0;
          SizeSnoc(sq, c);
        }
        sq, sqSize := sq + [c], sqSize + c.size;
      }
      ProcessSeg(sq, done);
      assert done + [sq] == SegmentsOf(stream) by { assert stream[|stream|..] == []; }
      assert Flatten(SegmentsOf(stream)) == stream by { CutFlattens([], stream); }
    }
  }

  /** With `done` closed and `sq` open, the chunks from i on complete the segmentation. */
  ghost predicate Underway(stream: seq<Chunk>, i: int, done: seq<seq<Chunk>>, sq: seq<Chunk>)
    requires 0 <= i <= |stream|
  {
    done + Cut(sq, stream[i..]) == SegmentsOf(stream)
  }

  lemma {:induction false} UnderwayStep(stream: seq<Chunk>, i: int, done: seq<seq<Chunk>>, sq: seq<Chunk>)
    requires 0 <= i < |stream| && Underway(stream, i, done, sq)
    ensures if Size(sq) + stream[i].size > SEG_SIZE then Underway(stream, i + 1, done + [sq], [] + [stream[i]])
      else Underway(stream, i + 1, done, sq + [stream[i]])
  {
    var c := stream[i];
    assert stream[i..][0] == c && stream[i..][1..] == stream[i + 1..];
    assert [] + [c] == [c];
    assert done + ([sq] + Cut([c], stream[i + 1..])) == (done + [sq]) + Cut([c], stream[i + 1..]);
  }

  lemma {:induction false} FlattenSnoc(segs: seq<seq<Chunk>>, sq: seq<Chunk>)
    ensures Flatten(segs + [sq]) == Flatten(segs) + sq
  {
    if segs == [] {
      assert [sq][1..] == [] && segs + [sq] == [sq];
    } else {
      assert (segs + [sq])[1..] == segs[1..] + [sq];
      FlattenSnoc(segs[1..], sq);
    }
  }

  lemma {:induction false} HistogramSnoc(keys: seq<Fingerprint>, k: Fingerprint)
    ensures Histogram(keys + [k]) == Histogram(keys)[k := if k in Histogram(keys) then Histogram(keys)[k] + 1 else 1]
  {
    assert multiset(keys + [k]) == multiset(keys) + multiset{k};
    assert forall x :: x in keys + [k] <==> x in keys || x == k;
  }

  lemma {:induction false} DrainStep(sq: seq<Chunk>, i: int, before: map<Fingerprint, nat>)
    requires 0 <= i < |sq|
    ensures var (k, h) := (sq[i].key, Histogram(Keys(sq[..i])));
      && Joined(Keys(sq[..i + 1])) == Joined(Keys(sq[..i])) + k
      && Histogram(Keys(sq[..i + 1])) == h[k := if k in h then h[k] + 1 else 1]
      && Sizes(sq[..i + 1], before) == Sizes(sq[..i], before)[k := sq[i].size]
  {
    var k := sq[i].key;
    assert sq[..i + 1][..i] == sq[..i];
    assert Keys(sq[..i + 1]) == Keys(sq[..i]) + [k];
    assert Keys(sq[..i + 1])[..i] == Keys(sq[..i]);
    HistogramSnoc(Keys(sq[..i]), k);
  }

  lemma {:induction false} RecordsSnoc(segs: seq<seq<Chunk>>, sq: seq<Chunk>)
    ensures Records(segs + [sq]) == Records(segs)[|segs| := Histogram(Keys(sq))]
  {
    var l, r := Records(segs + [sq]), Records(segs)[|segs| := Histogram(Keys(sq))];
    assert l.Keys == r.Keys;
    forall i: nat | i in l ensures l[i] == r[i] {
      assert (segs + [sq])[i] == if i < |segs| then segs[i] else sq;
    }
  }

  lemma {:induction false} ValuesSnoc(segs: seq<seq<Chunk>>, sq: seq<Chunk>)
    ensures Values(segs + [sq]) == Values(segs)[|segs| := Joined(Keys(sq))]
  {
    var l, r := Values(segs + [sq]), Values(segs)[|segs| := Joined(Keys(sq))];
    assert l.Keys == r.Keys;
    forall i: nat | i in l ensures l[i] == r[i] {
      assert (segs + [sq])[i] == if i < |segs| then segs[i] else sq;
    }
  }
}
