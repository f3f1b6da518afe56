/** What a run infers: how many pairs it finds to be the same chunk, and how many of those are certain beforehand. */
module LocalityScore {
  import opened Sets
  import opened Records
  import opened Bytes
  import opened LocalityAttack
  import opened LocalityRun

  // ---------------------------------------------------------------- certain inferences

  /** How many positions of the two queues hold the same key. */
  function Hits(qo: seq<Entry>, qt: seq<Entry>): nat {
    if qo == [] || qt == [] then 0 else (if qo[0].key == qt[0].key then 1 else 0) + Hits(qo[1..], qt[1..])
  }

  /** A position that holds the same key in both queues. */
  predicate HitAt(qo: seq<Entry>, qt: seq<Entry>, i: int) {
    0 <= i < |qo| && i < |qt| && qo[i].key == qt[i].key
  }

  /** The positions that hold the same key in both queues. */
  function HitPositions(qo: seq<Entry>, qt: seq<Entry>): set<int> {
    set i | 0 <= i < |qt| && HitAt(qo, qt, i)
  }

  /** `Hits` is their number. */
  lemma {:induction false} HitsCountPositions(qo: seq<Entry>, qt: seq<Entry>)
    ensures Hits(qo, qt) == |HitPositions(qo, qt)|
  {
    if qo == [] || qt == [] {
      assert HitPositions(qo, qt) == {};
    } else {
      HitsCountPositions(qo[1..], qt[1..]);
      HitsShifted(qo, qt);
    }
  }

  lemma {:induction false} HitsShifted(qo: seq<Entry>, qt: seq<Entry>)
    requires qo != [] && qt != []
    ensures |HitPositions(qo, qt)| == |HitPositions(qo[1..], qt[1..])| + if qo[0].key == qt[0].key then 1 else 0
  {
    var here, after := HitPositions(qo, qt), HitPositions(qo[1..], qt[1..]);
    var later := here - {0};
    forall i | i in later ensures i - 1 in after { assert HitAt(qo[1..], qt[1..], i - 1); }
    forall i | i in after ensures i + 1 in later { assert HitAt(qo, qt, i + 1); }
    Shifted(after, later);
    assert 0 in here <==> HitAt(qo, qt, 0);
    assert here == later + (if 0 in here then {0} else {});
  }

  lemma {:induction false} HitsConcat(a: seq<Entry>, b: seq<Entry>, c: seq<Entry>, d: seq<Entry>)
    requires |a| == |b|
    ensures Hits(a + c, b + d) == Hits(a, b) + Hits(c, d)
  {
    if a == [] {
      assert a + c == c && b + d == d;
    } else {
      assert (a + c)[1..] == a[1..] + c && (b + d)[1..] == b[1..] + d;
      HitsConcat(a[1..], b[1..], c, d);
    }
  }

  lemma {:induction false} HitsDiagonal(qo: seq<Entry>, qt: seq<Entry>)
    requires Keys(qo) == Keys(qt)
    ensures Hits(qo, qt) == |qt|
  {
    if qt != [] {
      assert Keys(qo)[0] == qo[0].key && Keys(qt)[0] == qt[0].key;
      assert Keys(qo[1..]) == Keys(qo)[1..] && Keys(qt[1..]) == Keys(qt)[1..];
      HitsDiagonal(qo[1..], qt[1..]);
    }
  }

  /** Whatever is enqueued later, the positions that hold the same key still do. */
  lemma {:induction false} HitsGrow(a: seq<Entry>, b: seq<Entry>, c: seq<Entry>, d: seq<Entry>)
    ensures Hits(a + c, b + d) >= Hits(a, b)
  {
    if a != [] && b != [] {
      assert (a + c)[1..] == a[1..] + c && (b + d)[1..] == b[1..] + d;
      HitsGrow(a[1..], b[1..], c, d);
    }
  }

  /** Correct inferences made or already certain. */
  function Score(w: Work): nat { w.correct + Hits(w.qo, w.qt) }

  predicate Aligned(w: Work) { |w.qo| == |w.qt| }

  lemma {:induction false} PushedScore(w: Work, r: seq<Pair>)
    requires Aligned(w)
    ensures Aligned(Pushed(w, r)) && Score(Pushed(w, r)) == Score(w) + Hits(Origins(r), Targets(r))
  {
    HitsConcat(w.qo, w.qt, Origins(r), Targets(r));
  }

  /** A round never lowers the score. */
  lemma {:induction false} AdvancedScore(limit: nat, w: Work, ls: seq<Pair>, rs: seq<Pair>)
    requires Aligned(w) && w.qt != []
    ensures var c := Checked(w);
      var l := Extended(limit, c, ls);
      var (rl, rr) := (Taken(limit, |c.qo|, c.uniq, ls), Taken(limit, |l.qo|, l.uniq, rs));
      var w' := Advanced(limit, w, ls, rs);
      Aligned(w') && Score(w') == Score(w) + Hits(Origins(rl), Targets(rl)) + Hits(Origins(rr), Targets(rr))
  {
    var c := Checked(w);
    var l := Extended(limit, c, ls);
    PushedScore(c, Taken(limit, |c.qo|, c.uniq, ls));
    PushedScore(l, Taken(limit, |l.qo|, l.uniq, rs));
  }

  // ---------------------------------------------------------------- the inferences of a run

  /** The front pair of both queues is one chunk. */
  predicate FrontsAgree(w: Work) { w.qo != [] && w.qt != [] && w.qo[0].key == w.qt[0].key }

  /** The rounds of a run that infer correctly, by number. */
  ghost function CorrectRounds(ws: seq<Work>): set<int> {
    set i | 0 <= i < |ws| - 1 && FrontsAgree(ws[i])
  }

  /** A step that counts the front pair exactly if it is a correct inference. */
  ghost predicate CountsFront(w: Work, w': Work) {
    w'.correct == w.correct + if FrontsAgree(w) then 1 else 0
  }

  lemma {:induction false} CorrectRoundsNext(ws: seq<Work>)
    requires |ws| >= 2
    ensures |CorrectRounds(ws)| == |CorrectRounds(ws[..|ws| - 1])| + if FrontsAgree(ws[|ws| - 2]) then 1 else 0
  {
    var n := |ws| - 2;
    var before := CorrectRounds(ws[..|ws| - 1]);
    if FrontsAgree(ws[n]) {
      assert CorrectRounds(ws) == before + {n} && n !in before;
    } else {
      assert CorrectRounds(ws) == before;
    }
  }

  lemma {:induction false} ChainsCount(step: (Work, Work) -> bool, ws: seq<Work>)
    requires Chain(step, ws) && forall a, b :: step(a, b) ==> CountsFront(a, b)
    ensures ws[|ws| - 1].correct == ws[0].correct + |CorrectRounds(ws)|
    decreases |ws|
  {
    if |ws| == 1 {
      assert CorrectRounds(ws) == {};
    } else {
      ChainsCount(step, ws[..|ws| - 1]);
      CorrectRoundsNext(ws);
      assert CountsFront(ws[|ws| - 2], ws[|ws| - 1]);
    }
  }

  /** A run counts exactly the rounds in which both front keys are the same. */
  lemma {:induction false} CorrectCounts(st: Settings, o: Databases, t: Databases, ws: seq<Work>)
    requires Chain(Rounds(st, o, t), ws)
    ensures ws[|ws| - 1].correct == ws[0].correct + |CorrectRounds(ws)|
  {
    forall a, b | Rounds(st, o, t)(a, b) ensures CountsFront(a, b) { RoundMeasures(st, o, t, a, b); }
    ChainsCount(Rounds(st, o, t), ws);
  }

  lemma {:induction false} RoundScore(st: Settings, o: Databases, t: Databases, w: Work, w': Work)
    requires Round(st, o, t, w, w')
    ensures Score(w') >= Score(w)
  {
    var ls, rs := RoundChoice(st, o, t, w, w');
    var c := Checked(w);
    var l := Extended(st.limit, c, ls);
    var rl, rr := Taken(st.limit, |c.qo|, c.uniq, ls), Taken(st.limit, |l.qo|, l.uniq, rs);
    HitsGrow(w.qo, w.qt, Origins(rl), Targets(rl));
    HitsGrow(l.qo, l.qt, Origins(rr), Targets(rr));
  }

  lemma {:induction false} ScoreNeverFalls(st: Settings, o: Databases, t: Databases, ws: seq<Work>)
    requires Chain(Rounds(st, o, t), ws)
    ensures Score(ws[|ws| - 1]) >= Score(ws[0])
    decreases |ws|
  {
    if |ws| > 1 {
      ScoreNeverFalls(st, o, t, ws[..|ws| - 1]);
      RoundScore(st, o, t, ws[|ws| - 2], ws[|ws| - 1]);
    }
  }

  /** A finished run infers at least the chunks that both queues hold in the same place at its start. */
  lemma {:induction false} CertainAreInferred(st: Settings, o: Databases, t: Databases, first: Work, ws: seq<Work>,
                                              last: Work)
    requires RunsTo(Rounds(st, o, t), first, ws, last) && (last.qo == [] || last.qt == [])
    ensures last.correct >= first.correct + Hits(first.qo, first.qt)
  {
    ScoreNeverFalls(st, o, t, ws);
  }

  /** From an empty queue there is no round, and nothing is inferred. */
  lemma {:induction false} NothingInferred(st: Settings, o: Databases, t: Databases, first: Work, ws: seq<Work>,
                                           last: Work)
    requires RunsTo(Rounds(st, o, t), first, ws, last) && (first.qo == [] || first.qt == [])
    ensures ws == [first] && last == first
  {
    if |ws| > 1 { ChainStarts(Rounds(st, o, t), ws); }
  }

  /** A chain of several states begins with a step. */
  lemma {:induction false} ChainStarts(step: (Work, Work) -> bool, ws: seq<Work>)
    requires Chain(step, ws) && |ws| > 1
    ensures step(ws[0], ws[1])
    decreases |ws|
  {
    if |ws| > 2 { ChainStarts(step, ws[..|ws| - 1]); }
  }
}
