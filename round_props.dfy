/**
 * What the rule chain of processRound promises: which rule fires under
 * which conditions, who wins, and what every alive player loses.
 */
module RoundProps {
  import opened Round

  // ---------------------------------------------------------------------
  // The folds over entries and ballots

  /** A ballot is in `numberInputs` exactly when its author submitted that number. */
  lemma {:induction false} NumericMember(es: seq<Entry>, b: Ballot)
    ensures b in Numeric(es) <==> Entry(b.name, Num(b.value)) in es
  {
    if es != [] {
      var pre := es[..|es| - 1];
      assert es == pre + [es[|es| - 1]];
      NumericMember(pre, b);
    }
  }

  /** With distinct names, the entry of player i is the only one carrying its name. */
  lemma EntryNamed(es: seq<Entry>, i: nat, s: Sub)
    requires UniqueNames(es) && i < |es|
    ensures Entry(es[i].name, s) in es <==> es[i].sub == s
  {
    if Entry(es[i].name, s) in es {
      var k :| 0 <= k < |es| && es[k] == Entry(es[i].name, s);
      assert es[k].name == es[i].name;
      assert k == i;
    }
  }

  lemma {:induction false} HoldingMember(bs: seq<Ballot>, v: nat, name: string)
    ensures name in Holding(bs, v) <==> Ballot(name, v) in bs
  {
    if bs != [] {
      var pre := bs[..|bs| - 1];
      assert bs == pre + [bs[|bs| - 1]];
      HoldingMember(pre, v, name);
    }
  }

  lemma {:induction false} AtDistMember(bs: seq<Ballot>, t: Target, d: nat, name: string)
    ensures name in AtDist(bs, t, d) <==> exists b :: b in bs && b.name == name && Dist(b.value, t) == d
  {
    if bs != [] {
      var pre := bs[..|bs| - 1];
      var last := bs[|bs| - 1];
      assert bs == pre + [last];
      AtDistMember(pre, t, d, name);
      if name in AtDist(bs, t, d) && name !in AtDist(pre, t, d) {
        assert last.name == name && Dist(last.value, t) == d;
      }
    }
  }

  /** The default rule picks exactly the ballots no other ballot is closer than. */
  lemma ClosestMember(bs: seq<Ballot>, t: Target, name: string)
    ensures name in ClosestNames(bs, t) <==>
            exists b :: b in bs && b.name == name
                        && forall c :: c in bs ==> Dist(b.value, t) <= Dist(c.value, t)
  {
    var m := MinDist(bs, t);
    if m.Some? {
      MinDistLeast(bs, t);
      AtDistMember(bs, t, m.value, name);
      if exists b :: b in bs && b.name == name
                     && forall c :: c in bs ==> Dist(b.value, t) <= Dist(c.value, t) {
        var b :| b in bs && b.name == name
                 && forall c :: c in bs ==> Dist(b.value, t) <= Dist(c.value, t);
        var w :| w in bs && Dist(w.value, t) == m.value;
        assert Dist(b.value, t) == m.value;
      }
    }
  }

  /** The default rule has a winner exactly when someone submitted a number. */
  lemma ClosestNonEmpty(bs: seq<Ballot>, t: Target)
    ensures ClosestNames(bs, t) != [] <==> bs != []
  {
    if bs != [] {
      var m := MinDist(bs, t);
      MinDistLeast(bs, t);
      var w :| w in bs && Dist(w.value, t) == m.value;
      AtDistMember(bs, t, m.value, w.name);
    }
  }

  // ---------------------------------------------------------------------
  // The duplicate check: the `counts` tally against the reference definition

  lemma {:induction false} TallyCount(bs: seq<Ballot>, v: nat)
    ensures v in Tally(bs) <==> Count(bs, v) > 0
    ensures v in Tally(bs) ==> Tally(bs)[v] == Count(bs, v)
  {
    if bs != [] {
      TallyCount(bs[..|bs| - 1], v);
    }
  }

  lemma {:induction false} CountPositive(bs: seq<Ballot>, v: nat)
    ensures Count(bs, v) > 0 <==> exists i :: 0 <= i < |bs| && bs[i].value == v
  {
    if bs != [] {
      var pre := bs[..|bs| - 1];
      CountPositive(pre, v);
      if exists i :: 0 <= i < |bs| && bs[i].value == v {
        var i :| 0 <= i < |bs| && bs[i].value == v;
        if i < |pre| {
          assert pre[i].value == v;
        }
      }
      if exists i :: 0 <= i < |pre| && pre[i].value == v {
        var i :| 0 <= i < |pre| && pre[i].value == v;
        assert bs[i].value == v;
      }
    }
  }

  lemma {:induction false} CountTwo(bs: seq<Ballot>, v: nat)
    ensures Count(bs, v) > 1 <==>
            exists i, j :: 0 <= i < j < |bs| && bs[i].value == v && bs[j].value == v
  {
    if bs != [] {
      var pre := bs[..|bs| - 1];
      var n := |bs| - 1;
      CountTwo(pre, v);
      CountPositive(pre, v);
      if Count(bs, v) > 1 {
        if bs[n].value == v {
          var i :| 0 <= i < |pre| && pre[i].value == v;
          assert bs[i].value == v && bs[n].value == v;
        } else {
          var i, j :| 0 <= i < j < |pre| && pre[i].value == v && pre[j].value == v;
          assert bs[i].value == v && bs[j].value == v;
        }
      }
      if exists i, j :: 0 <= i < j < |bs| && bs[i].value == v && bs[j].value == v {
        var i, j :| 0 <= i < j < |bs| && bs[i].value == v && bs[j].value == v;
        assert pre[i].value == v;
        if j < n {
          assert pre[j].value == v;
        }
      }
    }
  }

  /** The tally-based check in the code detects exactly the duplicate values. */
  lemma RepeatsIff(bs: seq<Ballot>)
    ensures TallyRepeats(bs) <==> HasDuplicate(bs)
  {
    if TallyRepeats(bs) {
      var c :| c in Tally(bs).Values && c > 1;
      var v :| v in Tally(bs) && Tally(bs)[v] == c;
      TallyCount(bs, v);
      CountTwo(bs, v);
    }
    if HasDuplicate(bs) {
      var i, j :| 0 <= i < j < |bs| && bs[i].value == bs[j].value;
      var v := bs[i].value;
      CountTwo(bs, v);
      TallyCount(bs, v);
      assert Tally(bs)[v] in Tally(bs).Values;
    }
  }

  // ---------------------------------------------------------------------
  // Winner lists read back on the entries

  /** Holding(v) names exactly the players who submitted v. */
  lemma HoldingOnEntries(es: seq<Entry>, v: nat)
    requires UniqueNames(es)
    ensures forall i :: 0 <= i < |es| ==> (es[i].name in Holding(Numeric(es), v) <==> es[i].sub == Num(v))
  {
    forall i | 0 <= i < |es|
      ensures es[i].name in Holding(Numeric(es), v) <==> es[i].sub == Num(v)
    {
      HoldingMember(Numeric(es), v, es[i].name);
      NumericMember(es, Ballot(es[i].name, v));
      EntryNamed(es, i, Num(v));
    }
  }

  /** AtDist(d) names exactly the players whose number lies at distance d. */
  lemma AtDistOnEntries(es: seq<Entry>, t: Target, d: nat)
    requires UniqueNames(es)
    ensures forall i :: 0 <= i < |es| ==>
              (es[i].name in AtDist(Numeric(es), t, d) <==> es[i].sub.Num? && Dist(es[i].sub.n, t) == d)
  {
    var bs := Numeric(es);
    forall i | 0 <= i < |es|
      ensures es[i].name in AtDist(bs, t, d) <==> es[i].sub.Num? && Dist(es[i].sub.n, t) == d
    {
      AtDistMember(bs, t, d, es[i].name);
      if es[i].name in AtDist(bs, t, d) {
        var b :| b in bs && b.name == es[i].name && Dist(b.value, t) == d;
        NumericMember(es, b);
        EntryNamed(es, i, Num(b.value));
      }
      if es[i].sub.Num? {
        NumericMember(es, Ballot(es[i].name, es[i].sub.n));
      }
    }
  }

  /** AtDist(d) is non-empty exactly when some player's number lies at distance d. */
  lemma AtDistNonEmpty(es: seq<Entry>, t: Target, d: nat)
    ensures AtDist(Numeric(es), t, d) != [] <==>
            exists i :: 0 <= i < |es| && es[i].sub.Num? && Dist(es[i].sub.n, t) == d
  {
    var bs := Numeric(es);
    if AtDist(bs, t, d) != [] {
      var nm := AtDist(bs, t, d)[0];
      AtDistMember(bs, t, d, nm);
      var b :| b in bs && b.name == nm && Dist(b.value, t) == d;
      NumericMember(es, b);
    }
    if exists i :: 0 <= i < |es| && es[i].sub.Num? && Dist(es[i].sub.n, t) == d {
      var i :| 0 <= i < |es| && es[i].sub.Num? && Dist(es[i].sub.n, t) == d;
      NumericMember(es, Ballot(es[i].name, es[i].sub.n));
      AtDistMember(bs, t, d, es[i].name);
    }
  }

  /** Player i submitted a number and nobody's number is closer to t. */
  ghost predicate Nearest(es: seq<Entry>, t: Target, i: nat)
    requires i < |es|
  {
    es[i].sub.Num?
    && forall j :: 0 <= j < |es| && es[j].sub.Num? ==> Dist(es[i].sub.n, t) <= Dist(es[j].sub.n, t)
  }

  /** The least-distance winner of the ballots is the player on the entries. */
  lemma ClosestOnEntryWinner(es: seq<Entry>, t: Target, i: nat)
    requires UniqueNames(es) && i < |es|
    requires es[i].name in ClosestNames(Numeric(es), t)
    ensures Nearest(es, t, i)
  {
    var bs := Numeric(es);
    ClosestMember(bs, t, es[i].name);
    var b :| b in bs && b.name == es[i].name
             && forall c :: c in bs ==> Dist(b.value, t) <= Dist(c.value, t);
    NumericMember(es, b);
    EntryNamed(es, i, Num(b.value));
    forall j | 0 <= j < |es| && es[j].sub.Num?
      ensures Dist(es[i].sub.n, t) <= Dist(es[j].sub.n, t)
    {
      NumericMember(es, Ballot(es[j].name, es[j].sub.n));
    }
  }

  /** A nearest player on the entries is among the least-distance winners. */
  lemma ClosestOnEntryNearest(es: seq<Entry>, t: Target, i: nat)
    requires i < |es| && Nearest(es, t, i)
    ensures es[i].name in ClosestNames(Numeric(es), t)
  {
    var bs := Numeric(es);
    var b := Ballot(es[i].name, es[i].sub.n);
    NumericMember(es, b);
    forall c | c in bs
      ensures Dist(b.value, t) <= Dist(c.value, t)
    {
      NumericMember(es, c);
      var j :| 0 <= j < |es| && es[j] == Entry(c.name, Num(c.value));
    }
    ClosestMember(bs, t, es[i].name);
  }

  /** ClosestNames names exactly the numeric submitters nobody is closer
      than, and is non-empty exactly when someone submitted a number. */
  lemma ClosestOnEntries(es: seq<Entry>, t: Target)
    requires UniqueNames(es)
    ensures ClosestNames(Numeric(es), t) != [] <==> exists i :: 0 <= i < |es| && es[i].sub.Num?
    ensures forall i :: 0 <= i < |es| ==> (es[i].name in ClosestNames(Numeric(es), t) <==> Nearest(es, t, i))
  {
    var bs := Numeric(es);
    ClosestNonEmpty(bs, t);
    if bs != [] {
      NumericMember(es, bs[0]);
    }
    if exists i :: 0 <= i < |es| && es[i].sub.Num? {
      var i :| 0 <= i < |es| && es[i].sub.Num?;
      NumericMember(es, Ballot(es[i].name, es[i].sub.n));
    }
    forall i | 0 <= i < |es|
      ensures es[i].name in ClosestNames(bs, t) <==> Nearest(es, t, i)
    {
      if es[i].name in ClosestNames(bs, t) {
        ClosestOnEntryWinner(es, t, i);
      }
      if Nearest(es, t, i) {
        ClosestOnEntryNearest(es, t, i);
      }
    }
  }

  // ---------------------------------------------------------------------
  // The rule chain, rule by rule

  /** Revelation fires exactly with four alive, round five or later, some
      number submitted, round(mean * 0.8) prime and someone on that prime;
      a prime nobody hit falls through. */
  lemma RevelationIff(es: seq<Entry>, round: int)
    ensures Resolve(es, round).rule.Revelation? <==>
            |es| == 4 && round >= 5 && |Numeric(es)| > 0
            && IsPrime(RevelationTarget(Numeric(es)))
            && exists i :: 0 <= i < |es| && es[i].sub == Num(RevelationTarget(Numeric(es)))
  {
    var bs := Numeric(es);
    if |bs| > 0 {
      var p := RevelationTarget(bs);
      if Holding(bs, p) != [] {
        var nm := Holding(bs, p)[0];
        HoldingMember(bs, p, nm);
        NumericMember(es, Ballot(nm, p));
      }
      if exists i :: 0 <= i < |es| && es[i].sub == Num(p) {
        var i :| 0 <= i < |es| && es[i].sub == Num(p);
        NumericMember(es, Ballot(es[i].name, p));
        HoldingMember(bs, p, es[i].name);
      }
    }
  }

  /** When revelation fires, the winners are exactly the submitters of the
      prime, and every other alive player, joker users included, loses 2. */
  lemma RevelationOutcome(es: seq<Entry>, round: int)
    requires UniqueNames(es)
    requires Resolve(es, round).rule.Revelation?
    ensures |Numeric(es)| > 0 && Resolve(es, round).rule == Revelation(RevelationTarget(Numeric(es)))
    ensures forall i :: 0 <= i < |es| ==>
              (es[i].name in Resolve(es, round).winners <==> es[i].sub == Num(Resolve(es, round).rule.prime))
    ensures forall i :: 0 <= i < |es| ==>
              Delta(Resolve(es, round), es[i].name, es[i].sub.Joker?)
              == if es[i].sub == Num(Resolve(es, round).rule.prime) then 0 else -2
  {
    var o := Resolve(es, round);
    var p := RevelationTarget(Numeric(es));
    assert o == Outcome(Revelation(p), Holding(Numeric(es), p));
    HoldingOnEntries(es, p);
  }

  lemma NumericOfPair(es: seq<Entry>)
    requires |es| == 2
    ensures es[0].sub.Num? && es[1].sub.Num? ==>
            Numeric(es) == [Ballot(es[0].name, es[0].sub.n), Ballot(es[1].name, es[1].sub.n)]
    ensures !(es[0].sub.Num? && es[1].sub.Num?) ==> |Numeric(es)| < 2
  {
    assert es[..1] == [es[0]];
    assert es[..1][..0] == [];
  }

  /** The 0-100 duel fires exactly with two alive who submitted 0 and 100. */
  lemma FinalDuelIff(es: seq<Entry>, round: int)
    ensures Resolve(es, round).rule.FinalDuel? <==>
            |es| == 2 && es[0].sub.Num? && es[1].sub.Num?
            && ((es[0].sub.n == 0 && es[1].sub.n == 100) || (es[0].sub.n == 100 && es[1].sub.n == 0))
  {
    if |es| == 2 {
      NumericOfPair(es);
    }
  }

  /** In the duel the 100-submitter is the sole winner, the 0-submitter
      loses 1, and nobody else's score moves. */
  lemma FinalDuelOutcome(es: seq<Entry>, round: int, w: nat)
    requires |es| == 2 && w < 2 && es[0].name != es[1].name
    requires es[w].sub == Num(100) && es[1 - w].sub == Num(0)
    ensures Resolve(es, round) == Outcome(FinalDuel(es[1 - w].name), [es[w].name])
    ensures Delta(Resolve(es, round), es[w].name, false) == 0
    ensures Delta(Resolve(es, round), es[1 - w].name, false) == -1
  {
    NumericOfPair(es);
  }

  /** The end-game duplicate rule fires exactly with at most three alive and
      some number submitted twice; nobody wins and everybody loses 1. */
  lemma DuplicateIff(es: seq<Entry>, round: int)
    ensures Resolve(es, round).rule.Duplicate? <==> |es| <= 3 && HasDuplicate(Numeric(es))
    ensures Resolve(es, round).rule.Duplicate? ==>
            Resolve(es, round).winners == []
            && forall i :: 0 <= i < |es| ==> Delta(Resolve(es, round), es[i].name, es[i].sub.Joker?) == -1
  {
    if |es| <= 3 && HasDuplicate(Numeric(es)) {
      DuplicateFires(es, round);
    }
  }

  /** A repeated number in the end game: the duel pattern cannot hold (its
      two values differ), so the duplicate rule decides. */
  lemma DuplicateFires(es: seq<Entry>, round: int)
    requires |es| <= 3 && HasDuplicate(Numeric(es))
    ensures Resolve(es, round) == Outcome(Duplicate, [])
  {
    var bs := Numeric(es);
    DuplicateIsNoDuel(bs);
    assert !(|es| == 4);
    assert !(|es| == 2 && |bs| == 2 && IsZeroHundred(bs));
    assert |es| <= 3 && |bs| > 0 && HasDuplicate(bs);
  }

  /** Two equal values are never the pair 0 and 100. */
  lemma DuplicateIsNoDuel(bs: seq<Ballot>)
    requires HasDuplicate(bs)
    ensures |bs| > 0 && !IsZeroHundred(bs)
  {
  }

  /** The 0-100 duel never has an exact hit on mean * 1.2 (which is 60). */
  lemma DuelHasNoExactHit(es: seq<Entry>)
    requires |es| == 2 && IsZeroHundred(Numeric(es))
    ensures forall i :: 0 <= i < |es| && es[i].sub.Num? ==>
              Dist(es[i].sub.n, Target(|Numeric(es)|, Total(Numeric(es)), 12)) != 0
  {
    NumericOfPair(es);
  }

  /** With at most three alive, some number submitted and no duplicate, the
      exact-match rule fires exactly when someone's number is at distance 0
      from mean * 1.2. */
  lemma ExactMatchIff(es: seq<Entry>, round: int)
    requires |es| <= 3 && |Numeric(es)| > 0 && !HasDuplicate(Numeric(es))
    ensures Resolve(es, round).rule.ExactMatch? <==>
            exists i :: 0 <= i < |es| && es[i].sub.Num?
                        && Dist(es[i].sub.n, Target(|Numeric(es)|, Total(Numeric(es)), 12)) == 0
  {
    var bs := Numeric(es);
    var t := Target(|bs|, Total(bs), 12);
    RepeatsIff(bs);
    AtDistNonEmpty(es, t, 0);
    if |es| == 2 && IsZeroHundred(bs) {
      DuelHasNoExactHit(es);
    }
  }

  /** The exact-match winners are exactly the players who hit mean * 1.2,
      and every other alive player, joker users included, loses 2. */
  lemma ExactMatchOutcome(es: seq<Entry>, round: int)
    requires UniqueNames(es)
    requires Resolve(es, round).rule.ExactMatch?
    ensures forall i :: 0 <= i < |es| ==>
              (es[i].name in Resolve(es, round).winners <==>
                 es[i].sub.Num? && Dist(es[i].sub.n, Target(|Numeric(es)|, Total(Numeric(es)), 12)) == 0)
    ensures forall i :: 0 <= i < |es| ==>
              Delta(Resolve(es, round), es[i].name, es[i].sub.Joker?)
              == if es[i].name in Resolve(es, round).winners then 0 else -2
  {
    var bs := Numeric(es);
    var t := Target(|bs|, Total(bs), 12);
    assert Resolve(es, round) == Outcome(ExactMatch, AtDist(bs, t, 0));
    AtDistOnEntries(es, t, 0);
  }

  /** With at most three alive, some number, no duplicate and nobody on the
      target, control reaches the default rule with multiplier 1.2 (the 0-100
      duel aside, which has no exact hit). */
  lemma ExactMatchFallThrough(es: seq<Entry>, round: int)
    requires |es| <= 3 && |Numeric(es)| > 0 && !HasDuplicate(Numeric(es))
    requires !Resolve(es, round).rule.ExactMatch? && !Resolve(es, round).rule.FinalDuel?
    ensures Resolve(es, round).rule == Closest(12)
  {
    RepeatsIff(Numeric(es));
  }

  /** The default rule: the winners are exactly the numeric submitters no one
      is closer to the target than, and there is a winner iff someone
      submitted a number.  The multiplier is 1.2 with three or fewer alive,
      else 0.8. */
  lemma ClosestRule(es: seq<Entry>, round: int)
    requires UniqueNames(es)
    requires Resolve(es, round).rule.Closest?
    ensures Resolve(es, round).rule.tenths == if |es| <= 3 then 12 else 8
    ensures Resolve(es, round).winners != [] <==> exists i :: 0 <= i < |es| && es[i].sub.Num?
    ensures forall i :: 0 <= i < |es| ==>
              (es[i].name in Resolve(es, round).winners <==>
                 Nearest(es, Target(|Numeric(es)|, Total(Numeric(es)), Resolve(es, round).rule.tenths), i))
  {
    var bs := Numeric(es);
    var t := Target(|bs|, Total(bs), if |es| <= 3 then 12 else 8);
    assert Resolve(es, round) == Outcome(Closest(t.tenths), ClosestNames(bs, t));
    ClosestOnEntries(es, t);
  }

  /** Under the default rule every alive player who is neither a winner nor
      a joker user loses 1, and everybody else keeps their score. */
  lemma ClosestPenalty(es: seq<Entry>, round: int)
    requires Resolve(es, round).rule.Closest?
    ensures forall i :: 0 <= i < |es| ==>
              Delta(Resolve(es, round), es[i].name, es[i].sub.Joker?)
              == if es[i].name in Resolve(es, round).winners || es[i].sub.Joker? then 0 else -1
  {
  }

  /** With five or more alive no special rule applies: the default rule
      with multiplier 0.8 decides. */
  lemma FiveOrMoreAlive(es: seq<Entry>, round: int)
    requires |es| >= 5
    ensures Resolve(es, round)
            == Outcome(Closest(8), ClosestNames(Numeric(es), Target(|Numeric(es)|, Total(Numeric(es)), 8)))
  {
  }

  /** With four alive and no revelation hit, the default rule with
      multiplier 0.8 decides. */
  lemma FourAliveNoRevelation(es: seq<Entry>, round: int)
    requires |es| == 4
    requires round < 5 || Numeric(es) == [] || !IsPrime(RevelationTarget(Numeric(es)))
             || Holding(Numeric(es), RevelationTarget(Numeric(es))) == []
    ensures Resolve(es, round)
            == Outcome(Closest(8), ClosestNames(Numeric(es), Target(|Numeric(es)|, Total(Numeric(es)), 8)))
  {
  }

  /** With at most three alive, no duel, no duplicate and nobody on
      mean * 1.2, the default rule with multiplier 1.2 decides. */
  lemma EndGameDefault(es: seq<Entry>, round: int)
    requires |es| <= 3 && !(|es| == 2 && |Numeric(es)| == 2 && IsZeroHundred(Numeric(es)))
    requires !HasDuplicate(Numeric(es))
    requires AtDist(Numeric(es), Target(|Numeric(es)|, Total(Numeric(es)), 12), 0) == []
    ensures Resolve(es, round)
            == Outcome(Closest(12), ClosestNames(Numeric(es), Target(|Numeric(es)|, Total(Numeric(es)), 12)))
  {
  }

  /** Whatever rule fires, every winner is an alive player who submitted a number. */
  lemma WinnersSubmittedNumbers(es: seq<Entry>, round: int, w: string)
    requires w in Resolve(es, round).winners
    ensures exists i :: 0 <= i < |es| && es[i].name == w && es[i].sub.Num?
  {
    var o := Resolve(es, round);
    var bs := Numeric(es);
    var b: Ballot;
    match o.rule {
      case Revelation(p) =>
        HoldingMember(bs, p, w);
        b := Ballot(w, p);
      case FinalDuel(_) =>
        NumericOfPair(es);
        b := if bs[0].value == 100 then bs[0] else bs[1];
      case Duplicate =>
        assert false;
      case ExactMatch =>
        AtDistMember(bs, Target(|bs|, Total(bs), 12), 0, w);
        b :| b in bs && b.name == w;
      case Closest(tenths) =>
        ClosestMember(bs, Target(|bs|, Total(bs), tenths), w);
        b :| b in bs && b.name == w;
    }
    NumericMember(es, b);
  }
}
