/**
 * The round resolver of the elimination game: what each alive player hands
 * in, and the fixed-priority rule chain that turns those submissions into
 * the round's winners and score penalties (processRound in main.js).
 *
 * JavaScript computes the mean and the target in IEEE doubles.  This model
 * keeps everything exact: with n numeric submissions summing to T and a
 * multiplier of tenths/10, the target is T*tenths/(10*n), and every
 * comparison against it is scaled by 10*n so that it stays in the integers.
 */
module Round {

  datatype Option<T> = None | Some(value: T)

  /** One alive player's hand for the round: the joker pass or a number. */
  datatype Sub = Joker | Num(n: nat)

  /** One element of the round's `inputs` list, in alive-roster order. */
  datatype Entry = Entry(name: string, sub: Sub)

  /** One element of `numberInputs`: a numeric submission with its author. */
  datatype Ballot = Ballot(name: string, value: nat)

  /** The rule of the chain that decided the round. */
  datatype Rule =
    | Revelation(prime: nat)   // the prime target that was hit
    | FinalDuel(loser: string) // the 0-submitter of a 0-100 duel
    | Duplicate                // end game, some number submitted twice
    | ExactMatch               // end game, someone hit mean * 1.2 exactly
    | Closest(tenths: nat)     // default rule, multiplier tenths / 10

  datatype Outcome = Outcome(rule: Rule, winners: seq<string>)

  /** The mean-times-multiplier target, kept as the exact fraction
      total * tenths / (10 * count). */
  datatype Target = Target(count: nat, total: nat, tenths: nat)

  /** Distinct names among a round's entries (the roster's distinct names,
      carried over by Controller.EntriesUnique). */
  ghost predicate UniqueNames(es: seq<Entry>)
  {
    forall i, j :: 0 <= i < j < |es| ==> es[i].name != es[j].name
  }

  /** `inputs.filter(p => p.number !== 'JOKER')`, order kept. */
  function Numeric(es: seq<Entry>): (bs: seq<Ballot>)
    ensures |bs| <= |es|
  {
    if es == [] then []
    else
      var last := es[|es| - 1];
      Numeric(es[..|es| - 1])
        + (if last.sub.Num? then [Ballot(last.name, last.sub.n)] else [])
  }

  /** The `reduce` sum of the numeric submissions. */
  function Total(bs: seq<Ballot>): nat
  {
    if bs == [] then 0 else Total(bs[..|bs| - 1]) + bs[|bs| - 1].value
  }

  /** `Math.round(num / den)` for a non-negative quotient, that is
      floor(num / den + 1/2); RoundHalfUpNearest proves it is the nearest
      integer, halves rounded up. */
  function RoundHalfUp(num: nat, den: nat): nat
    requires den > 0
  {
    (2 * num + den) / (2 * den)
  }

  /** r - 1/2 <= num/den < r + 1/2 for r = RoundHalfUp(num, den). */
  lemma RoundHalfUpNearest(num: nat, den: nat)
    requires den > 0
    ensures 2 * den * RoundHalfUp(num, den) <= 2 * num + den < 2 * den * (RoundHalfUp(num, den) + 1)
  {
    var q := RoundHalfUp(num, den);
    assert 2 * num + den == (2 * den) * q + (2 * num + den) % (2 * den);
    assert 2 * den * (q + 1) == 2 * den * q + 2 * den;
  }

  /** `Math.round(tempAvg * 0.8)`: the revelation rule's candidate prime. */
  function RevelationTarget(bs: seq<Ballot>): nat
    requires |bs| > 0
  {
    RoundHalfUp(8 * Total(bs), 10 * |bs|)
  }

  /** Primality: greater than one, and no divisor between 2 and k - 1. */
  predicate IsPrime(k: int)
  {
    k > 1 && forall d :: 2 <= d < k ==> k % d != 0
  }

  /** Names of the ballots carrying exactly the value v, in order. */
  function Holding(bs: seq<Ballot>, v: nat): seq<string>
  {
    if bs == [] then []
    else
      var last := bs[|bs| - 1];
      Holding(bs[..|bs| - 1], v) + (if last.value == v then [last.name] else [])
  }

  /** Some numeric value occurs on two different ballots. */
  predicate HasDuplicate(bs: seq<Ballot>)
  {
    exists i, j :: 0 <= i < j < |bs| && bs[i].value == bs[j].value
  }

  /** The `counts` object built by `reduce`: value -> how many ballots carry it. */
  function Tally(bs: seq<Ballot>): map<nat, nat>
  {
    if bs == [] then map[]
    else
      var t := Tally(bs[..|bs| - 1]);
      var v := bs[|bs| - 1].value;
      t[v := (if v in t then t[v] else 0) + 1]
  }

  /** `Object.values(counts).some(count => count > 1)`. */
  predicate TallyRepeats(bs: seq<Ballot>)
  {
    exists c :: c in Tally(bs).Values && c > 1
  }

  /** How many ballots carry the value v. */
  function Count(bs: seq<Ballot>, v: nat): nat
  {
    if bs == [] then 0
    else Count(bs[..|bs| - 1], v) + (if bs[|bs| - 1].value == v then 1 else 0)
  }

  function Abs(x: int): nat
  {
    if x < 0 then -x else x
  }

  /** 10 * count * |x - target|: the distance of x to the target, scaled so
      that it is an integer. */
  function Dist(x: nat, t: Target): nat
  {
    Abs(10 * t.count * x - t.tenths * t.total)
  }

  /** Names of the ballots at scaled distance exactly d, in order. */
  function AtDist(bs: seq<Ballot>, t: Target, d: nat): seq<string>
  {
    if bs == [] then []
    else
      var last := bs[|bs| - 1];
      AtDist(bs[..|bs| - 1], t, d) + (if Dist(last.value, t) == d then [last.name] else [])
  }

  /** The least scaled distance over the ballots; None (JavaScript's
      `Infinity`) when there are none. */
  function MinDist(bs: seq<Ballot>, t: Target): (m: Option<nat>)
    ensures m.None? <==> bs == []
  {
    if bs == [] then None
    else
      var m := MinDist(bs[..|bs| - 1], t);
      var d := Dist(bs[|bs| - 1].value, t);
      if m.None? || d < m.value then Some(d) else m
  }

  /** MinDist is the least distance: no ballot is closer, and some ballot
      attains it. */
  lemma {:induction false} MinDistLeast(bs: seq<Ballot>, t: Target)
    requires bs != []
    ensures forall b :: b in bs ==> MinDist(bs, t).value <= Dist(b.value, t)
    ensures exists b :: b in bs && Dist(b.value, t) == MinDist(bs, t).value
  {
    var pre := bs[..|bs| - 1];
    var last := bs[|bs| - 1];
    assert bs == pre + [last];
    if pre != [] {
      MinDistLeast(pre, t);
    }
  }

  /** The default rule's winners: every ballot at the least distance. */
  function ClosestNames(bs: seq<Ballot>, t: Target): seq<string>
  {
    match MinDist(bs, t)
    case None => []
    case Some(d) => AtDist(bs, t, d)
  }

  /** The 0-100 duel pattern: the two values sorted are exactly [0, 100]. */
  predicate IsZeroHundred(bs: seq<Ballot>)
  {
    |bs| == 2
    && ((bs[0].value == 0 && bs[1].value == 100) || (bs[0].value == 100 && bs[1].value == 0))
  }

  /** `numberInputs.find(p => p.number === v).name` for a two-ballot duel. */
  function DuelName(bs: seq<Ballot>, v: nat): string
    requires |bs| == 2
  {
    if bs[0].value == v then bs[0].name else bs[1].name
  }

  /**
   * The rule chain of processRound, first applicable rule wins:
   * revelation, 0-100 duel, end-game duplicate, end-game exact match,
   * and the default closest-to-target rule.  `es` holds one entry per
   * alive player, so |es| is the alive count.
   */
  function Resolve(es: seq<Entry>, round: int): Outcome
  {
    var bs := Numeric(es);
    var alive := |es|;
    if alive == 4 && round >= 5 && |bs| > 0
       && IsPrime(RevelationTarget(bs)) && Holding(bs, RevelationTarget(bs)) != [] then
      Outcome(Revelation(RevelationTarget(bs)), Holding(bs, RevelationTarget(bs)))
    else if alive == 2 && |bs| == 2 && IsZeroHundred(bs) then
      Outcome(FinalDuel(DuelName(bs, 0)), [DuelName(bs, 100)])
    else if alive <= 3 && |bs| > 0 && HasDuplicate(bs) then
      Outcome(Duplicate, [])
    else if alive <= 3 && |bs| > 0 && AtDist(bs, Target(|bs|, Total(bs), 12), 0) != [] then
      Outcome(ExactMatch, AtDist(bs, Target(|bs|, Total(bs), 12), 0))
    else
      var tenths := if alive <= 3 then 12 else 8;
      Outcome(Closest(tenths), ClosestNames(bs, Target(|bs|, Total(bs), tenths)))
  }

  /** The score change the outcome gives an alive player with this name,
      who played the joker or not. */
  function Delta(o: Outcome, name: string, joker: bool): (d: int)
    ensures -2 <= d <= 0
  {
    match o.rule
    case Revelation(_) => if name in o.winners then 0 else -2
    case ExactMatch => if name in o.winners then 0 else -2
    case FinalDuel(loser) => if name == loser then -1 else 0
    case Duplicate => -1
    case Closest(_) => if name in o.winners || joker then 0 else -1
  }
}
