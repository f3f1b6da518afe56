/** Bytes and chunk fingerprints. */
module Bytes {

  newtype Byte = v: int | 0 <= v < 256

  const FP_SIZE := 6

  /** A chunk fingerprint: FP_SIZE bytes. */
  type Fingerprint = f: seq<Byte> | |f| == FP_SIZE witness [0, 0, 0, 0, 0, 0]

  /** Fingerprints written one after another. */
  function Joined(fps: seq<Fingerprint>): (s: seq<Byte>)
    ensures |s| == FP_SIZE * |fps|
  {
    if fps == [] then [] else Joined(fps[..|fps| - 1]) + fps[|fps| - 1]
  }

  /** Cut a string into fingerprints. */
  function Unjoined(s: seq<Byte>): (fps: seq<Fingerprint>) {
    if |s| < FP_SIZE then [] else [s[..FP_SIZE]] + Unjoined(s[FP_SIZE..])
  }

  lemma {:induction false} UnjoinedSnoc(s: seq<Byte>, f: Fingerprint)
    requires |s| % FP_SIZE == 0
    ensures Unjoined(s + f) == Unjoined(s) + [f]
  {
    if s == [] {
      assert s + f == f && f[..FP_SIZE] == f && Unjoined(f[FP_SIZE..]) == [];
    } else {
      assert (s + f)[..FP_SIZE] == s[..FP_SIZE];
      assert (s + f)[FP_SIZE..] == s[FP_SIZE..] + f;
      UnjoinedSnoc(s[FP_SIZE..], f);
    }
  }

  /** Fingerprints can be read back from their concatenation. */
  lemma {:induction false} JoinedRoundTrip(fps: seq<Fingerprint>)
    ensures Unjoined(Joined(fps)) == fps
  {
    if fps != [] {
      var front := fps[..|fps| - 1];
      JoinedRoundTrip(front);
      UnjoinedSnoc(Joined(front), fps[|fps| - 1]);
      assert front + [fps[|fps| - 1]] == fps;
    }
  }
}
