/**
 * Worked rounds of the game, each checked against the model.  The
 * sequences are built one element at a time so that every fold is
 * unfolded once per step.
 */
module Scenarios {
  import opened Round
  import opened RoundProps
  import opened Controller

  lemma EntrySnoc(es: seq<Entry>, e: Entry)
    ensures Numeric(es + [e]) == Numeric(es) + (if e.sub.Num? then [Ballot(e.name, e.sub.n)] else [])
  {
    assert (es + [e])[..|es|] == es;
  }

  lemma BallotSnoc(bs: seq<Ballot>, b: Ballot, t: Target, d: nat)
    ensures Total(bs + [b]) == Total(bs) + b.value
    ensures MinDist(bs + [b], t) ==
            if MinDist(bs, t).None? || Dist(b.value, t) < MinDist(bs, t).value then Some(Dist(b.value, t))
            else MinDist(bs, t)
    ensures AtDist(bs + [b], t, d) == AtDist(bs, t, d) + (if Dist(b.value, t) == d then [b.name] else [])
  {
    assert (bs + [b])[..|bs|] == bs;
  }

  lemma HoldingSnoc(bs: seq<Ballot>, b: Ballot, v: nat)
    ensures Total(bs + [b]) == Total(bs) + b.value
    ensures Holding(bs + [b], v) == Holding(bs, v) + (if b.value == v then [b.name] else [])
  {
    assert (bs + [b])[..|bs|] == bs;
  }

  lemma FiveAliveEntries(es: seq<Entry>)
    requires es == [Entry("A", Num(30)), Entry("B", Num(40)), Entry("C", Num(50)), Entry("D", Num(60)), Entry("E", Num(70))]
    ensures Numeric(es) == [Ballot("A", 30), Ballot("B", 40), Ballot("C", 50), Ballot("D", 60), Ballot("E", 70)]
  {
    var e0, e1, e2, e3, e4 := Entry("A", Num(30)), Entry("B", Num(40)), Entry("C", Num(50)), Entry("D", Num(60)), Entry("E", Num(70));
    var s1 := [e0];
    var s2 := s1 + [e1];
    var s3 := s2 + [e2];
    var s4 := s3 + [e3];
    var s5 := s4 + [e4];
    assert [] + [e0] == s1 && s5 == es;
    EntrySnoc([], e0); EntrySnoc(s1, e1); EntrySnoc(s2, e2); EntrySnoc(s3, e3); EntrySnoc(s4, e4);
  }

  lemma FiveAliveBallots(bs: seq<Ballot>)
    requires bs == [Ballot("A", 30), Ballot("B", 40), Ballot("C", 50), Ballot("D", 60), Ballot("E", 70)]
    ensures Total(bs) == 250
    ensures MinDist(bs, Target(5, 250, 8)) == Some(0)
    ensures AtDist(bs, Target(5, 250, 8), 0) == ["B"]
  {
    var t := Target(5, 250, 8);
    var b0, b1, b2, b3, b4 := Ballot("A", 30), Ballot("B", 40), Ballot("C", 50), Ballot("D", 60), Ballot("E", 70);
    var c1 := [b0];
    var c2 := c1 + [b1];
    var c3 := c2 + [b2];
    var c4 := c3 + [b3];
    var c5 := c4 + [b4];
    assert [] + [b0] == c1 && c5 == bs;
    BallotSnoc([], b0, t, 0); BallotSnoc(c1, b1, t, 0); BallotSnoc(c2, b2, t, 0); BallotSnoc(c3, b3, t, 0); BallotSnoc(c4, b4, t, 0);
    assert AtDist(c1, t, 0) == [];
    assert AtDist(c2, t, 0) == [b1.name];
    assert AtDist(c3, t, 0) == [b1.name];
    assert AtDist(c4, t, 0) == [b1.name];
    assert AtDist(c5, t, 0) == [b1.name];
  }

  lemma PairSeq<T>(s: seq<T>)
    requires |s| == 2
    ensures s == [s[0], s[1]] && s[..1] == [s[0]]
  {
  }

  /** Five alive, round 1, numbers 30..70: mean 50, target 40 (x 0.8), the
      40-submitter wins alone; everybody else loses 1. */
  lemma FiveAliveDefaultRule(es: seq<Entry>)
    requires es == [Entry("A", Num(30)), Entry("B", Num(40)), Entry("C", Num(50)), Entry("D", Num(60)), Entry("E", Num(70))]
    ensures Resolve(es, 1) == Outcome(Closest(8), ["B"])
  {
    FiveAliveEntries(es);
    FiveAliveBallots(Numeric(es));
    FiveOrMoreAlive(es, 1);
  }

  lemma NotPrimeEntries(es: seq<Entry>)
    requires es == [Entry("A", Num(10)), Entry("B", Num(20)), Entry("C", Num(15)), Entry("D", Num(25))]
    ensures Numeric(es) == [Ballot("A", 10), Ballot("B", 20), Ballot("C", 15), Ballot("D", 25)]
  {
    var e0, e1, e2, e3 := Entry("A", Num(10)), Entry("B", Num(20)), Entry("C", Num(15)), Entry("D", Num(25));
    var s1 := [e0];
    var s2 := s1 + [e1];
    var s3 := s2 + [e2];
    var s4 := s3 + [e3];
    assert [] + [e0] == s1 && s4 == es;
    EntrySnoc([], e0); EntrySnoc(s1, e1); EntrySnoc(s2, e2); EntrySnoc(s3, e3);
  }

  lemma NotPrimeBallots(bs: seq<Ballot>)
    requires bs == [Ballot("A", 10), Ballot("B", 20), Ballot("C", 15), Ballot("D", 25)]
    ensures Total(bs) == 70
    ensures MinDist(bs, Target(4, 70, 8)) == Some(40)
    ensures AtDist(bs, Target(4, 70, 8), 40) == ["C"]
  {
    var t := Target(4, 70, 8);
    var b0, b1, b2, b3 := Ballot("A", 10), Ballot("B", 20), Ballot("C", 15), Ballot("D", 25);
    var c1 := [b0];
    var c2 := c1 + [b1];
    var c3 := c2 + [b2];
    var c4 := c3 + [b3];
    assert [] + [b0] == c1 && c4 == bs;
    BallotSnoc([], b0, t, 40); BallotSnoc(c1, b1, t, 40); BallotSnoc(c2, b2, t, 40); BallotSnoc(c3, b3, t, 40);
    assert AtDist(c1, t, 40) == [];
    assert AtDist(c2, t, 40) == [];
    assert AtDist(c3, t, 40) == [b2.name];
    assert AtDist(c4, t, 40) == [b2.name];
  }

  lemma NotPrimeResolve(es: seq<Entry>)
    requires |es| == 4 && Numeric(es) == [Ballot("A", 10), Ballot("B", 20), Ballot("C", 15), Ballot("D", 25)]
    ensures RevelationTarget(Numeric(es)) == 14
    ensures Resolve(es, 6) == Outcome(Closest(8), ["C"])
  {
    var bs := Numeric(es);
    NotPrimeBallots(bs);
    assert RoundHalfUp(560, 40) == 14;
    assert !IsPrime(14) by {
      assert 14 % 2 == 0;
    }
    FourAliveNoRevelation(es, 6);
  }

  /** Four alive in round 6 with 10, 20, 15, 25: round(17.5 * 0.8) = 14 is
      not prime, so the default rule with target 14 picks the 15. */
  lemma RevelationTargetNotPrime(es: seq<Entry>)
    requires es == [Entry("A", Num(10)), Entry("B", Num(20)), Entry("C", Num(15)), Entry("D", Num(25))]
    ensures RevelationTarget(Numeric(es)) == 14
    ensures Resolve(es, 6) == Outcome(Closest(8), ["C"])
  {
    NotPrimeEntries(es);
    NotPrimeResolve(es);
  }

  lemma ScaledMeanEntries(es: seq<Entry>)
    requires es == [Entry("A", Num(11)), Entry("B", Num(12)), Entry("C", Num(13)), Entry("D", Num(14))]
    ensures Numeric(es) == [Ballot("A", 11), Ballot("B", 12), Ballot("C", 13), Ballot("D", 14)]
  {
    var e0, e1, e2, e3 := Entry("A", Num(11)), Entry("B", Num(12)), Entry("C", Num(13)), Entry("D", Num(14));
    var s1 := [e0];
    var s2 := s1 + [e1];
    var s3 := s2 + [e2];
    var s4 := s3 + [e3];
    assert [] + [e0] == s1 && s4 == es;
    EntrySnoc([], e0); EntrySnoc(s1, e1); EntrySnoc(s2, e2); EntrySnoc(s3, e3);
  }

  lemma ScaledMeanBallots(bs: seq<Ballot>)
    requires bs == [Ballot("A", 11), Ballot("B", 12), Ballot("C", 13), Ballot("D", 14)]
    ensures Total(bs) == 50
    ensures MinDist(bs, Target(4, 50, 8)) == Some(40)
    ensures AtDist(bs, Target(4, 50, 8), 40) == ["A"]
  {
    var t := Target(4, 50, 8);
    var b0, b1, b2, b3 := Ballot("A", 11), Ballot("B", 12), Ballot("C", 13), Ballot("D", 14);
    var c1 := [b0];
    var c2 := c1 + [b1];
    var c3 := c2 + [b2];
    var c4 := c3 + [b3];
    assert [] + [b0] == c1 && c4 == bs;
    BallotSnoc([], b0, t, 40); BallotSnoc(c1, b1, t, 40); BallotSnoc(c2, b2, t, 40); BallotSnoc(c3, b3, t, 40);
    assert AtDist(c1, t, 40) == [b0.name];
    assert AtDist(c2, t, 40) == [b0.name];
    assert AtDist(c3, t, 40) == [b0.name];
    assert AtDist(c4, t, 40) == [b0.name];
  }

  lemma ScaledMeanResolve(es: seq<Entry>)
    requires |es| == 4 && Numeric(es) == [Ballot("A", 11), Ballot("B", 12), Ballot("C", 13), Ballot("D", 14)]
    ensures RevelationTarget(Numeric(es)) == 10
    ensures Resolve(es, 6) == Outcome(Closest(8), ["A"])
  {
    var bs := Numeric(es);
    ScaledMeanBallots(bs);
    assert RoundHalfUp(400, 40) == 10;
    assert !IsPrime(10) by {
      assert 10 % 2 == 0;
    }
    FourAliveNoRevelation(es, 6);
  }

  /** Four alive in round 6 with 11, 12, 13, 14: the mean is 12.5, and the
      revelation target is round(12.5 * 0.8) = 10, not round(12.5) = 13; 10
      is not prime, so revelation does not fire and the 11 wins. */
  lemma RevelationUsesScaledMean(es: seq<Entry>)
    requires es == [Entry("A", Num(11)), Entry("B", Num(12)), Entry("C", Num(13)), Entry("D", Num(14))]
    ensures RevelationTarget(Numeric(es)) == 10
    ensures Resolve(es, 6) == Outcome(Closest(8), ["A"])
  {
    ScaledMeanEntries(es);
    ScaledMeanResolve(es);
  }

  lemma RevelationEntries(es: seq<Entry>)
    requires es == [Entry("A", Num(2)), Entry("B", Num(3)), Entry("C", Num(5)), Entry("D", Joker)]
    ensures Numeric(es) == [Ballot("A", 2), Ballot("B", 3), Ballot("C", 5)]
  {
    var e0, e1, e2, e3 := Entry("A", Num(2)), Entry("B", Num(3)), Entry("C", Num(5)), Entry("D", Joker);
    var s1 := [e0];
    var s2 := s1 + [e1];
    var s3 := s2 + [e2];
    var s4 := s3 + [e3];
    assert [] + [e0] == s1 && s4 == es;
    EntrySnoc([], e0); EntrySnoc(s1, e1); EntrySnoc(s2, e2); EntrySnoc(s3, e3);
  }

  lemma RevelationBallots(bs: seq<Ballot>)
    requires bs == [Ballot("A", 2), Ballot("B", 3), Ballot("C", 5)]
    ensures Total(bs) == 10
    ensures Holding(bs, 3) == ["B"]
  {
    var b0, b1, b2 := Ballot("A", 2), Ballot("B", 3), Ballot("C", 5);
    var c1 := [b0];
    var c2 := c1 + [b1];
    var c3 := c2 + [b2];
    assert [] + [b0] == c1 && c3 == bs;
    HoldingSnoc([], b0, 3); HoldingSnoc(c1, b1, 3); HoldingSnoc(c2, b2, 3);
    assert Holding(c1, 3) == [];
    assert Holding(c2, 3) == [b1.name];
    assert Holding(c3, 3) == [b1.name];
  }

  /** Four alive in round 5 with 2, 3, 5 and a joker: round(10 / 3 * 0.8)
      = 3 is prime and B hit it, so B is the only winner. */
  lemma RevelationFires(es: seq<Entry>)
    requires es == [Entry("A", Num(2)), Entry("B", Num(3)), Entry("C", Num(5)), Entry("D", Joker)]
    ensures Resolve(es, 5) == Outcome(Revelation(3), ["B"])
  {
    RevelationEntries(es);
    RevelationBallots(Numeric(es));
    assert RoundHalfUp(80, 30) == 3;
    assert IsPrime(3);
  }

  /** Two alive with 0 and 100: the 100-submitter wins the duel and only
      the 0-submitter loses 1. */
  lemma DuelScenario(es: seq<Entry>)
    requires es == [Entry("A", Num(0)), Entry("B", Num(100))]
    ensures Resolve(es, 3) == Outcome(FinalDuel("A"), ["B"])
  {
    FinalDuelOutcome(es, 3, 1);
  }

  lemma DuplicateEntries(es: seq<Entry>)
    requires es == [Entry("A", Num(20)), Entry("B", Num(20)), Entry("C", Num(50))]
    ensures Numeric(es) == [Ballot("A", 20), Ballot("B", 20), Ballot("C", 50)]
  {
    var e0, e1, e2 := Entry("A", Num(20)), Entry("B", Num(20)), Entry("C", Num(50));
    var s1 := [e0];
    var s2 := s1 + [e1];
    var s3 := s2 + [e2];
    assert [] + [e0] == s1 && s3 == es;
    EntrySnoc([], e0); EntrySnoc(s1, e1); EntrySnoc(s2, e2);
  }

  /** Three alive with 20, 20, 50: the duplicate rule fires and nobody
      wins (and all three lose 1). */
  lemma DuplicateScenario(es: seq<Entry>)
    requires es == [Entry("A", Num(20)), Entry("B", Num(20)), Entry("C", Num(50))]
    ensures Resolve(es, 2) == Outcome(Duplicate, [])
  {
    DuplicateEntries(es);
    assert Numeric(es)[0].value == Numeric(es)[1].value;
  }

  lemma EliminationEntries(es: seq<Entry>)
    requires es == [Entry("A", Num(10)), Entry("B", Num(50))]
    ensures Numeric(es) == [Ballot("A", 10), Ballot("B", 50)]
  {
    var e0, e1 := Entry("A", Num(10)), Entry("B", Num(50));
    var s1 := [e0];
    var s2 := s1 + [e1];
    assert [] + [e0] == s1 && s2 == es;
    EntrySnoc([], e0); EntrySnoc(s1, e1);
  }

  lemma EliminationBallots(bs: seq<Ballot>)
    requires bs == [Ballot("A", 10), Ballot("B", 50)]
    ensures Total(bs) == 60
    ensures MinDist(bs, Target(2, 60, 12)) == Some(280)
    ensures AtDist(bs, Target(2, 60, 12), 280) == ["B"]
  {
    var t := Target(2, 60, 12);
    var b0, b1 := Ballot("A", 10), Ballot("B", 50);
    var c1 := [b0];
    var c2 := c1 + [b1];
    assert [] + [b0] == c1 && c2 == bs;
    BallotSnoc([], b0, t, 280); BallotSnoc(c1, b1, t, 280);
    assert AtDist(c1, t, 280) == [];
    assert AtDist(c2, t, 280) == [b1.name];
  }

  /** The roster of the elimination round, collected into entries. */
  lemma EliminationRoster(ps: seq<Player>, boxes: map<string, Option<nat>>)
    requires ps == [Player("A", -9, true, false), Player("B", 0, true, false)]
    requires boxes == map["A" := Some(10), "B" := Some(50)]
    ensures NoneMissing(ps, boxes, map[])
    ensures Entries(ps, boxes, map[]) == [Entry("A", Num(10)), Entry("B", Num(50))]
  {
    var p0, p1 := Player("A", -9, true, false), Player("B", 0, true, false);
    assert [p0][..0] == [] && ps[..1] == [p0];
    assert Entries([p0], boxes, map[]) == [Entry("A", Num(10))];
  }

  /** Without joker selections nobody is flagged. */
  lemma NoJokersMarked(ps: seq<Player>)
    ensures MarkJokers(ps, map[]) == ps
  {
    var marked := MarkJokers(ps, map[]);
    assert forall k :: 0 <= k < |ps| ==> marked[k] == ps[k];
  }

  /** Scoring a two-player roster scores each of them. */
  lemma ScoredPair(ps: seq<Player>, o: Outcome, sel: map<string, bool>)
    requires |ps| == 2
    ensures ScoreAll(ps, o, sel) == [Scored(ps[0], o, sel), Scored(ps[1], o, sel)]
  {
    PairSeq(ScoreAll(ps, o, sel));
  }

  /** Under the default rule won by B, A loses 1 and B keeps their score. */
  lemma EliminationDeltas(o: Outcome)
    requires o == Outcome(Closest(12), ["B"])
    ensures Delta(o, "A", false) == -1 && Delta(o, "B", false) == 0
  {
    assert "A" != "B";
  }

  /** The score changes of that round: A loses 1, B keeps 0. */
  lemma EliminationScored(ps: seq<Player>, o: Outcome)
    requires ps == [Player("A", -9, true, false), Player("B", 0, true, false)]
    requires o == Outcome(Closest(12), ["B"])
    ensures ScoreAll(MarkJokers(ps, map[]), o, map[])
            == [Player("A", -10, true, false), Player("B", 0, true, false)]
  {
    NoJokersMarked(ps);
    ScoredPair(ps, o, map[]);
    EliminationDeltas(o);
  }

  /** At -10 A is out and reported; B stays. */
  lemma EliminationFalls(qs: seq<Player>)
    requires qs == [Player("A", -10, true, false), Player("B", 0, true, false)]
    ensures EliminatedNames(qs) == ["A"]
    ensures Eliminate(qs) == [Player("A", -10, false, false), Player("B", 0, true, false)]
  {
    PairSeq(Eliminate(qs));
    PairSeq(qs);
    assert EliminatedNames([qs[0]]) == [qs[0].name];
  }

  /** Two alive with 10 and 50: mean 30, target 36 (x 1.2), no duel, no
      duplicate, no exact hit; B is closer, A loses 1, drops from -9 to -10
      and is out, and the report names them. */
  lemma EliminationAtMinusTen(ps: seq<Player>, boxes: map<string, Option<nat>>)
    requires ps == [Player("A", -9, true, false), Player("B", 0, true, false)]
    requires boxes == map["A" := Some(10), "B" := Some(50)]
    ensures PlayRound(ps, boxes, map[], 1).0 == Resolved(Outcome(Closest(12), ["B"]), ["A"])
    ensures PlayRound(ps, boxes, map[], 1).1 == [Player("A", -10, false, false), Player("B", 0, true, false)]
  {
    EliminationRoster(ps, boxes);
    var es := Entries(ps, boxes, map[]);
    EliminationEntries(es);
    var bs := Numeric(es);
    EliminationBallots(bs);
    var t := Target(2, 60, 12);
    BallotSnoc([], bs[0], t, 0);
    BallotSnoc([bs[0]], bs[1], t, 0);
    assert [bs[0]] + [bs[1]] == bs && [] + [bs[0]] == [bs[0]];
    assert AtDist(bs, t, 0) == [];
    assert !HasDuplicate(bs);
    EndGameDefault(es, 1);
    var o := Outcome(Closest(12), ["B"]);
    assert Resolve(es, 1) == o;
    EliminationScored(ps, o);
    EliminationFalls(ScoreAll(MarkJokers(ps, map[]), o, map[]));
  }
}
