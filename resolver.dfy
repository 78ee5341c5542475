/**
 * The loops of processRound: the `isPrime` counting loop, the single pass
 * of the default rule that tracks `minDiff`, and the rule chain that calls
 * them, each proved against the function of module Round that specifies it.
 */
module Resolver {
  import opened Round
  import opened RoundProps

  /** Euclidean division is unique: k == q * a + r with 0 <= r < q fixes
      k / q and k % q. */
  lemma DivModUnique(k: int, q: int, a: int, r: int)
    requires q > 0 && 0 <= r < q && k == q * a + r
    ensures k / q == a && k % q == r
  {
    var a0, r0 := k / q, k % q;
    assert q * (a - a0) == r0 - r;
    MulAwayFromZero(q, a - a0);
  }

  lemma MulAwayFromZero(q: int, x: int)
    requires q > 0
    ensures x >= 1 ==> q * x >= q
    ensures x <= -1 ==> q * x <= -q
  {
  }

  lemma MulMono(a: int, b: int, c: int, e: int)
    requires 0 <= a <= b && 0 <= c <= e
    ensures a * c <= b * e
  {
    assert a * c <= b * c;
  }

  /** If d divides k, so does its co-divisor k / d. */
  lemma CoDivisor(k: int, d: int)
    requires k > 1 && 2 <= d < k && k % d == 0
    ensures 2 <= k / d && k % (k / d) == 0 && d * (k / d) == k
  {
    var q := k / d;
    assert k == d * q;
    DivModUnique(k, q, d, 0);
  }

  /** Trial division up to the square root suffices: a number with no
      divisor d with 2 <= d and d * d <= k has no divisor below itself. */
  lemma NoDivisorBelowRoot(k: int, i: int)
    requires k > 1 && i >= 2 && i * i > k
    requires forall d :: 2 <= d < i ==> k % d != 0
    ensures IsPrime(k)
  {
    forall d | 2 <= d < k
      ensures k % d != 0
    {
      if d >= i && k % d == 0 {
        CoDivisor(k, d);
        var q := k / d;
        if q >= i {
          MulMono(i, d, i, q);
        }
      }
    }
  }

  /** `isPrime` from processRound: trial division while i * i <= num. */
  method IsPrimeLoop(num: int) returns (prime: bool)
    ensures prime == IsPrime(num)
  {
    if num <= 1 {
      return false;
    }
    var i := 2;
    while i * i <= num
      invariant i >= 2
      invariant forall d :: 2 <= d < i ==> num % d != 0
      decreases num - i
    {
      MulMono(2, i, i, i);
      if num % i == 0 {
        return false;
      }
      i := i + 1;
    }
    NoDivisorBelowRoot(num, i);
    return true;
  }

  lemma AtDistEmpty(bs: seq<Ballot>, t: Target, d: nat)
    requires forall b :: b in bs ==> Dist(b.value, t) != d
    ensures AtDist(bs, t, d) == []
  {
    if AtDist(bs, t, d) != [] {
      AtDistMember(bs, t, d, AtDist(bs, t, d)[0]);
    }
  }

  /** One more ballot b after the prefix p: a strictly closer ballot
      restarts the winner list, an equally close one joins it, a farther
      one changes nothing. */
  lemma ClosestSnoc(p: seq<Ballot>, b: Ballot, t: Target)
    ensures var m := MinDist(p, t); var d := Dist(b.value, t);
      MinDist(p + [b], t) == (if m.None? || d < m.value then Some(d) else m)
      && ClosestNames(p + [b], t)
         == if m.None? || d < m.value then [b.name]
            else if d == m.value then ClosestNames(p, t) + [b.name]
            else ClosestNames(p, t)
  {
    var s := p + [b];
    assert s[..|s| - 1] == p;
    var m := MinDist(p, t);
    var d := Dist(b.value, t);
    if m.Some? {
      MinDistLeast(p, t);
    }
    if m.None? || d < m.value {
      AtDistEmpty(p, t, d);
    }
  }

  /** The default rule's single pass: a strictly closer ballot restarts the
      winner list, an equally close one joins it. */
  method ClosestWinners(bs: seq<Ballot>, t: Target) returns (winners: seq<string>)
    ensures winners == ClosestNames(bs, t)
  {
    var minDiff: Option<nat> := None;
    winners := [];
    for i := 0 to |bs|
      invariant minDiff == MinDist(bs[..i], t)
      invariant winners == ClosestNames(bs[..i], t)
    {
      var diff := Dist(bs[i].value, t);
      ClosestSnoc(bs[..i], bs[i], t);
      assert bs[..i + 1] == bs[..i] + [bs[i]];
      if minDiff.None? || diff < minDiff.value {
        minDiff := Some(diff);
        winners := [bs[i].name];
      } else if diff == minDiff.value {
        winners := winners + [bs[i].name];
      }
    }
    assert bs[..|bs|] == bs;
  }

  /** The `counts` reduce and its `some(count => count > 1)` test. */
  method HasDuplicates(bs: seq<Ballot>) returns (dup: bool)
    ensures dup == HasDuplicate(bs)
  {
    var counts: map<nat, nat> := map[];
    for i := 0 to |bs|
      invariant counts == Tally(bs[..i])
    {
      assert bs[..i + 1][..i] == bs[..i];
      var v := bs[i].value;
      counts := counts[v := (if v in counts then counts[v] else 0) + 1];
    }
    assert bs[..|bs|] == bs;
    dup := exists c :: c in counts.Values && c > 1;
    RepeatsIff(bs);
  }

  /** The rule chain of processRound on the collected inputs, first matching
      rule wins; it decides the round and leaves the scores to the caller. */
  method ResolveRound(es: seq<Entry>, round: int) returns (o: Outcome)
    ensures o == Resolve(es, round)
  {
    var numberInputs := Numeric(es);
    var n := |numberInputs|;
    if |es| == 4 && round >= 5 && n > 0 {
      var target := RevelationTarget(numberInputs);
      var prime := IsPrimeLoop(target);
      if prime {
        var winners := Holding(numberInputs, target);
        if winners != [] {
          return Outcome(Revelation(target), winners);
        }
      }
    }
    if |es| == 2 && n == 2 {
      if IsZeroHundred(numberInputs) {
        return Outcome(FinalDuel(DuelName(numberInputs, 0)), [DuelName(numberInputs, 100)]);
      }
    }
    if |es| <= 3 && n > 0 {
      var dup := HasDuplicates(numberInputs);
      if dup {
        return Outcome(Duplicate, []);
      }
      var exactWinners := AtDist(numberInputs, Target(n, Total(numberInputs), 12), 0);
      if exactWinners != [] {
        return Outcome(ExactMatch, exactWinners);
      }
    }
    var tenths := if |es| <= 3 then 12 else 8;
    var winners: seq<string> := [];
    if n > 0 {
      winners := ClosestWinners(numberInputs, Target(n, Total(numberInputs), tenths));
    }
    return Outcome(Closest(tenths), winners);
  }
}
