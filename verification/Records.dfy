/** Counts as eight little-endian bytes, and neighbour records: fingerprints with counts packed one after another. */
module Records {
  import opened Bytes

  const COUNT_SIZE := 8
  /** FP_SIZE + COUNT_SIZE. */
  const ENTRY_SIZE := 14

  function Pow256(k: nat): nat {
    if k == 0 then 1 else 256 * Pow256(k - 1)
  }

  /** The lowest k bytes of v, lowest first. */
  function LittleEndian(v: nat, k: nat): (s: seq<Byte>)
    ensures |s| == k
  {
    if k == 0 then [] else [(v % 256) as Byte] + LittleEndian(v / 256, k - 1)
  }

  function FromLittleEndian(s: seq<Byte>): nat {
    if s == [] then 0 else s[0] as int + 256 * FromLittleEndian(s[1..])
  }

  /** A number that fits can be read back from its bytes. */
  lemma {:induction false} LittleEndianRoundTrip(v: nat, k: nat)
    requires v < Pow256(k)
    ensures FromLittleEndian(LittleEndian(v, k)) == v
  {
    if k > 0 {
      LittleEndianRoundTrip(v / 256, k - 1);
      assert LittleEndian(v, k)[1..] == LittleEndian(v / 256, k - 1);
    }
  }

  /** A count as it is stored. */
  function Encode(v: nat): (s: seq<Byte>)
    ensures |s| == COUNT_SIZE
  {
    LittleEndian(v, COUNT_SIZE)
  }

  function Decode(s: seq<Byte>): nat { FromLittleEndian(s) }

  /** The eight bytes of a stored count, lowest first. */
  lemma {:induction false} EncodeBytes(v: nat)
    ensures var s := Encode(v);
      && s[0] as int == v % 256 && s[1] as int == v / 0x100 % 256 && s[2] as int == v / 0x1_0000 % 256
      && s[3] as int == v / 0x100_0000 % 256 && s[4] as int == v / 0x1_0000_0000 % 256
      && s[5] as int == v / 0x100_0000_0000 % 256 && s[6] as int == v / 0x1_0000_0000_0000 % 256
      && s[7] as int == v / 0x100_0000_0000_0000 % 256
  {
    var u := v / 0x1_0000;
    var w := u / 0x1_0000;
    var x := w / 0x1_0000;
    FirstBytes(v, 8);
    FirstBytes(u, 6);
    FirstBytes(w, 4);
    FirstBytes(x, 2);
    assert w == v / 0x1_0000_0000 && x == v / 0x1_0000_0000_0000;
    assert u / 256 == v / 0x100_0000 && w / 256 == v / 0x100_0000_0000 && x / 256 == v / 0x100_0000_0000_0000;
  }

  lemma {:induction false} FirstBytes(v: nat, k: nat)
    requires k >= 2
    ensures var s := LittleEndian(v, k);
      s[0] as int == v % 256 && s[1] as int == v / 256 % 256 && s[2..] == LittleEndian(v / 0x1_0000, k - 2)
  {
    var t := LittleEndian(v / 256, k - 1);
    assert v / 256 / 256 == v / 0x1_0000;
    assert LittleEndian(v, k)[1..] == t && t[1..] == LittleEndian(v / 0x1_0000, k - 2);
    assert LittleEndian(v, k)[2..] == t[1..];
  }

  /** The largest count that is stored without wrapping around. */
  const MAX_COUNT: nat := 0xFFFF_FFFF_FFFF_FFFF

  lemma {:induction false} EncodeRoundTrip(v: nat)
    requires v <= MAX_COUNT
    ensures Decode(Encode(v)) == v
  {
    assert Pow256(2) == 0x1_0000 && Pow256(4) == 0x1_0000_0000 && Pow256(6) == 0x1_0000_0000_0000;
    assert Pow256(8) == MAX_COUNT + 1;
    LittleEndianRoundTrip(v, 8);
  }

  // ---------------------------------------------------------------- packed records

  /** A neighbour and how often it was seen. */
  datatype Entry = Entry(key: Fingerprint, count: nat)

  function PackEntry(e: Entry): (s: seq<Byte>)
    ensures |s| == ENTRY_SIZE
  {
    e.key + Encode(e.count)
  }

  function Pack(es: seq<Entry>): (s: seq<Byte>)
    ensures |s| == 14 * |es|
  {
    if es == [] then [] else PackEntry(es[0]) + Pack(es[1..])
  }

  /** Read a record entry by entry. */
  function Unpack(s: seq<Byte>): seq<Entry> {
    if |s| < ENTRY_SIZE then []
    else [Entry(s[..FP_SIZE], Decode(s[FP_SIZE..ENTRY_SIZE]))] + Unpack(s[ENTRY_SIZE..])
  }

  predicate Storable(es: seq<Entry>) {
    forall i :: 0 <= i < |es| ==> es[i].count <= MAX_COUNT
  }

  lemma {:induction false} PackRoundTrip(es: seq<Entry>)
    requires Storable(es)
    ensures Unpack(Pack(es)) == es
  {
    if es != [] {
      var s := Pack(es);
      assert s[ENTRY_SIZE..] == Pack(es[1..]);
      assert s[..FP_SIZE] == es[0].key && s[FP_SIZE..ENTRY_SIZE] == Encode(es[0].count);
      EncodeRoundTrip(es[0].count);
      PackRoundTrip(es[1..]);
    }
  }

  lemma {:induction false} PackSnoc(es: seq<Entry>, e: Entry)
    ensures Pack(es + [e]) == Pack(es) + PackEntry(e)
  {
    if es == [] {
      assert [e][1..] == [] && es + [e] == [e];
    } else {
      assert (es + [e])[1..] == es[1..] + [e];
      PackSnoc(es[1..], e);
    }
  }

  /** Entry i sits at offset 14*i. */
  lemma {:induction false} PackAt(es: seq<Entry>, i: nat)
    requires i < |es|
    ensures Pack(es)[14 * i..14 * i + ENTRY_SIZE] == PackEntry(es[i])
  {
    var s := Pack(es);
    if i > 0 {
      PackAt(es[1..], i - 1);
      assert s[ENTRY_SIZE..] == Pack(es[1..]);
      assert s[14 * i..14 * i + ENTRY_SIZE]
          == s[ENTRY_SIZE..][14 * (i - 1)..14 * (i - 1) + ENTRY_SIZE];
    }
  }

  /** Replacing the packed form of entry i replaces the entry. */
  lemma {:induction false} PackUpdate(es: seq<Entry>, i: nat, e: Entry)
    requires i < |es|
    ensures var s := Pack(es);
      Pack(es[i := e]) == s[..14 * i] + PackEntry(e) + s[14 * i + ENTRY_SIZE..]
  {
    var s := Pack(es);
    var t := Pack(es[1..]);
    assert s[..ENTRY_SIZE] == PackEntry(es[0]) && s[ENTRY_SIZE..] == t;
    if i == 0 {
      assert es[0 := e][1..] == es[1..];
    } else {
      PackUpdate(es[1..], i - 1, e);
      assert es[i := e][1..] == es[1..][i - 1 := e];
      assert s[..14 * i] == PackEntry(es[0]) + t[..14 * (i - 1)];
      assert s[14 * i + ENTRY_SIZE..] == t[14 * (i - 1) + ENTRY_SIZE..];
    }
  }

  // ---------------------------------------------------------------- counting in a record

  /** The position of the first entry for a key, or the number of entries. */
  function Find(es: seq<Entry>, key: Fingerprint): (i: nat)
    ensures i <= |es| && (i < |es| ==> es[i].key == key) && forall j :: 0 <= j < i ==> es[j].key != key
  {
    if es == [] || es[0].key == key then 0 else 1 + Find(es[1..], key)
  }

  /** One more occurrence of a key. */
  function Bump(es: seq<Entry>, key: Fingerprint): seq<Entry> {
    var i := Find(es, key);
    if i < |es| then es[i := Entry(key, es[i].count + 1)] else es + [Entry(key, 1)]
  }

  /** Entries keep their places, and a new one comes last. */
  lemma {:induction false} BumpKeepsPlaces(es: seq<Entry>, key: Fingerprint)
    ensures var b := Bump(es, key);
      && (forall i :: 0 <= i < |es| ==> i < |b| && b[i].key == es[i].key)
      && (if (exists i :: 0 <= i < |es| && es[i].key == key) then |b| == |es| else b == es + [Entry(key, 1)])
  {
  }

  /** The count recorded for a key; zero if there is none. */
  function CountOf(es: seq<Entry>, key: Fingerprint): nat {
    var i := Find(es, key);
    if i < |es| then es[i].count else 0
  }

  function Total(es: seq<Entry>): nat {
    if es == [] then 0 else es[0].count + Total(es[1..])
  }

  /** No key has two entries, and none has count zero. */
  predicate Distinct(es: seq<Entry>) {
    && (forall i, j :: 0 <= i < j < |es| ==> es[i].key != es[j].key)
    && (forall i :: 0 <= i < |es| ==> es[i].count > 0)
  }

  lemma {:induction false} FindUnique(es: seq<Entry>, key: Fingerprint, i: nat)
    requires Distinct(es) && i < |es| && es[i].key == key
    ensures Find(es, key) == i
  {
  }

  lemma {:induction false} BumpKeepsDistinct(es: seq<Entry>, key: Fingerprint)
    requires Distinct(es)
    ensures Distinct(Bump(es, key))
  {
  }

  /** Bumping adds one to the count of its key and leaves the others alone. */
  lemma {:induction false} BumpCounts(es: seq<Entry>, key: Fingerprint, k: Fingerprint)
    requires Distinct(es)
    ensures CountOf(Bump(es, key), k) == CountOf(es, k) + if k == key then 1 else 0
  {
    var b, i := Bump(es, key), Find(es, k);
    BumpKeepsDistinct(es, key);
    if i < |es| {
      FindUnique(b, k, i);
    } else if k == key {
      FindUnique(b, k, |es|);
    } else {
      assert forall j :: 0 <= j < |b| ==> b[j].key != k;
    }
  }

  lemma {:induction false} TotalSnoc(es: seq<Entry>, e: Entry)
    ensures Total(es + [e]) == Total(es) + e.count
  {
    if es == [] {
      assert [e][1..] == [] && es + [e] == [e];
    } else {
      assert (es + [e])[1..] == es[1..] + [e];
      TotalSnoc(es[1..], e);
    }
  }

  lemma {:induction false} TotalUpdate(es: seq<Entry>, i: nat, e: Entry)
    requires i < |es|
    ensures Total(es[i := e]) == Total(es) - es[i].count + e.count
  {
    if i == 0 {
      assert es[0 := e][1..] == es[1..];
    } else {
      assert es[i := e][1..] == es[1..][i - 1 := e];
      TotalUpdate(es[1..], i - 1, e);
    }
  }

  lemma {:induction false} BumpTotal(es: seq<Entry>, key: Fingerprint)
    ensures Total(Bump(es, key)) == Total(es) + 1
  {
    var i := Find(es, key);
    if i < |es| {
      TotalUpdate(es, i, Entry(key, es[i].count + 1));
    } else {
      TotalSnoc(es, Entry(key, 1));
    }
  }

  lemma {:induction false} MemberAtMostTotal(es: seq<Entry>, i: nat)
    requires i < |es|
    ensures es[i].count <= Total(es)
  {
    if i > 0 { MemberAtMostTotal(es[1..], i - 1); }
  }
}
