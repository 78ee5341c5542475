/**
 * The game controller of main.js: the roster `gameState.players`, the round
 * counter and the per-round joker selections, with the handlers that change
 * them (addPlayer, handleJokerClick, processRound, updateAndDisplayResults,
 * nextRound, resetGame and the state part of startRound).
 *
 * The DOM input boxes are a parameter `boxes`: for every alive player's
 * name, None when the box is empty and Some(n) when it holds the number n.
 */
module Controller {
  import opened Round
  import opened RoundProps
  import opened Resolver
  import opened Names

  /** One element of `gameState.players`. */
  datatype Player = Player(name: string, score: int, isAlive: bool, hasUsedJoker: bool)

  /** A player at or below this score is eliminated. */
  const EliminationScore: int := -10

  /** What addPlayer did with the typed name. */
  datatype AddResult = Added(name: string) | DuplicateName(name: string) | Blank

  /** What processRound did: stopped on the first alive player with an empty
      box, or resolved the round and eliminated some players. */
  datatype Report = Incomplete(name: string) | Resolved(outcome: Outcome, eliminated: seq<string>)

  /** Distinct player names in the roster.  Round.UniqueNames says the same
      of a round's entries, which are another type; EntriesUnique carries the
      one to the other. */
  predicate NamesUnique(ps: seq<Player>)
  {
    forall i, j :: 0 <= i < j < |ps| ==> ps[i].name != ps[j].name
  }

  /** What addPlayer lets into the roster: distinct, non-empty, normalised names. */
  predicate Roster(ps: seq<Player>)
  {
    NamesUnique(ps) && forall i :: 0 <= i < |ps| ==> ps[i].name != [] && IsNormal(ps[i].name)
  }

  /** `players.some(p => p.name === name)`. */
  predicate HasName(ps: seq<Player>, name: string)
  {
    exists i :: 0 <= i < |ps| && ps[i].name == name
  }

  /** `players.filter(p => p.isAlive).length`. */
  function AliveCount(ps: seq<Player>): (n: nat)
    ensures n <= |ps|
  {
    if ps == [] then 0
    else AliveCount(ps[..|ps| - 1]) + (if ps[|ps| - 1].isAlive then 1 else 0)
  }

  /** `jokerSelections[name]` is truthy (an absent key reads as undefined). */
  predicate Selected(sel: map<string, bool>, name: string)
  {
    name in sel && sel[name]
  }

  /** `jokerSelections[name] = !jokerSelections[name]`. */
  function Toggle(sel: map<string, bool>, name: string): map<string, bool>
  {
    sel[name := !Selected(sel, name)]
  }

  /** The content of the player's input box. */
  function Box(boxes: map<string, Option<nat>>, name: string): Option<nat>
  {
    if name in boxes then boxes[name] else None
  }

  /** Every alive player has an input box on the page. */
  predicate HasBoxes(ps: seq<Player>, boxes: map<string, Option<nat>>)
  {
    forall k :: 0 <= k < |ps| && ps[k].isAlive ==> ps[k].name in boxes
  }

  /** An alive player with an empty box and no joker selected. */
  predicate Missing(p: Player, boxes: map<string, Option<nat>>, sel: map<string, bool>)
  {
    p.isAlive && !Selected(sel, p.name) && Box(boxes, p.name).None?
  }

  predicate NoneMissing(ps: seq<Player>, boxes: map<string, Option<nat>>, sel: map<string, bool>)
  {
    forall k :: 0 <= k < |ps| ==> !Missing(ps[k], boxes, sel)
  }

  /** The name the validation loop stops on: the first player, in roster
      order, who is Missing; None when there is none. */
  function FirstIncomplete(ps: seq<Player>, boxes: map<string, Option<nat>>, sel: map<string, bool>)
    : (r: Option<string>)
    ensures r.None? <==> NoneMissing(ps, boxes, sel)
    ensures r.Some? ==> exists k :: 0 <= k < |ps| && Missing(ps[k], boxes, sel) && ps[k].name == r.value
                                    && forall j :: 0 <= j < k ==> !Missing(ps[j], boxes, sel)
  {
    if ps == [] then None
    else if Missing(ps[0], boxes, sel) then Some(ps[0].name)
    else
      var r := FirstIncomplete(ps[1..], boxes, sel);
      assert forall k :: 1 <= k < |ps| ==> ps[k] == ps[1..][k - 1];
      if r.Some? then
        var k :| 0 <= k < |ps[1..]| && Missing(ps[1..][k], boxes, sel) && ps[1..][k].name == r.value
                 && forall j :: 0 <= j < k ==> !Missing(ps[1..][j], boxes, sel);
        assert Missing(ps[k + 1], boxes, sel) && ps[k + 1].name == r.value;
        r
      else r
  }

  /** The element `inputs` receives for an alive player: JOKER when the
      joker is selected, otherwise the number in the box. */
  function EntryOf(p: Player, boxes: map<string, Option<nat>>, sel: map<string, bool>): (e: Entry)
    requires Selected(sel, p.name) || Box(boxes, p.name).Some?
    ensures e.name == p.name && (e.sub.Joker? <==> Selected(sel, p.name))
  {
    Entry(p.name, if Selected(sel, p.name) then Joker else Num(Box(boxes, p.name).value))
  }

  /** The `inputs` list of processRound: one entry per alive player, in
      roster order. */
  function Entries(ps: seq<Player>, boxes: map<string, Option<nat>>, sel: map<string, bool>)
    : (es: seq<Entry>)
    requires NoneMissing(ps, boxes, sel)
    ensures |es| == AliveCount(ps)
  {
    if ps == [] then []
    else
      var last := ps[|ps| - 1];
      Entries(ps[..|ps| - 1], boxes, sel)
        + (if last.isAlive then [EntryOf(last, boxes, sel)] else [])
  }

  /** The collect loop's flagging of a joker user. */
  function MarkJoker(p: Player, sel: map<string, bool>): Player
  {
    if p.isAlive && Selected(sel, p.name) then p.(hasUsedJoker := true) else p
  }

  function MarkJokers(ps: seq<Player>, sel: map<string, bool>): seq<Player>
  {
    seq(|ps|, k requires 0 <= k < |ps| => MarkJoker(ps[k], sel))
  }

  /** The rule's score change, applied to an alive player. */
  function Scored(p: Player, o: Outcome, sel: map<string, bool>): Player
  {
    if p.isAlive then p.(score := p.score + Delta(o, p.name, Selected(sel, p.name))) else p
  }

  function ScoreAll(ps: seq<Player>, o: Outcome, sel: map<string, bool>): seq<Player>
  {
    seq(|ps|, k requires 0 <= k < |ps| => Scored(ps[k], o, sel))
  }

  /** updateAndDisplayResults on one player. */
  function Fall(p: Player): Player
  {
    if p.isAlive && p.score <= EliminationScore then p.(isAlive := false) else p
  }

  function Eliminate(ps: seq<Player>): seq<Player>
  {
    seq(|ps|, k requires 0 <= k < |ps| => Fall(ps[k]))
  }

  /** `newlyEliminated`: the names of the alive players at or below the
      elimination score, in roster order. */
  function EliminatedNames(ps: seq<Player>): seq<string>
  {
    if ps == [] then []
    else
      var last := ps[|ps| - 1];
      EliminatedNames(ps[..|ps| - 1])
        + (if last.isAlive && last.score <= EliminationScore then [last.name] else [])
  }

  /**
   * One call of processRound on the roster `ps` with the box map `boxes`,
   * selections `sel` and round number `round`: the report and the new
   * roster.
   */
  function PlayRound(ps: seq<Player>, boxes: map<string, Option<nat>>, sel: map<string, bool>, round: int)
    : (res: (Report, seq<Player>))
    // incomplete input aborts before anything changes
    ensures res.0.Incomplete? <==> !NoneMissing(ps, boxes, sel)
    ensures res.0.Incomplete? ==> res.1 == ps
    ensures res.0.Resolved? ==> res.0.outcome == Resolve(Entries(ps, boxes, sel), round)
  {
    match FirstIncomplete(ps, boxes, sel)
    case Some(name) => (Incomplete(name), ps)
    case None =>
      var o := Resolve(Entries(ps, boxes, sel), round);
      var scored := ScoreAll(MarkJokers(ps, sel), o, sel);
      (Resolved(o, EliminatedNames(scored)), Eliminate(scored))
  }

  /**
   * What a resolved round does to the player at roster index k: the name
   * stays, an eliminated player is untouched, an alive player's score moves
   * by the rule's delta (0, -1 or -2), exactly the alive joker users get
   * their joker flag set and no flag is cleared, and the player leaves the
   * game iff they were alive and end at or below -10.
   */
  lemma RoundEffect(ps: seq<Player>, boxes: map<string, Option<nat>>, sel: map<string, bool>,
                    round: int, k: nat)
    requires NoneMissing(ps, boxes, sel) && k < |ps|
    ensures var res := PlayRound(ps, boxes, sel, round);
            |res.1| == |ps| && res.1[k].name == ps[k].name
            && (!ps[k].isAlive ==> res.1[k] == ps[k])
            && -2 <= res.1[k].score - ps[k].score <= 0
            && (ps[k].isAlive ==>
                  res.1[k].score == ps[k].score + Delta(res.0.outcome, ps[k].name, Selected(sel, ps[k].name)))
            && res.1[k].hasUsedJoker == (ps[k].hasUsedJoker || (ps[k].isAlive && Selected(sel, ps[k].name)))
            && (res.1[k].isAlive <==> ps[k].isAlive && res.1[k].score > EliminationScore)
  {
    var o := Resolve(Entries(ps, boxes, sel), round);
    var scored := ScoreAll(MarkJokers(ps, sel), o, sel);
    assert PlayRound(ps, boxes, sel, round) == (Resolved(o, EliminatedNames(scored)), Eliminate(scored));
    assert scored[k] == Scored(MarkJoker(ps[k], sel), o, sel);
  }

  /** A roster whose players keep their names stays a roster. */
  lemma RosterKept(ps: seq<Player>, qs: seq<Player>)
    requires Roster(ps) && |qs| == |ps|
    requires (forall k :: 0 <= k < |ps| ==> qs[k].name == ps[k].name)
    ensures Roster(qs)
  {
  }

  /** Toggling a joker twice restores whether it is selected. */
  lemma ToggleTwice(sel: map<string, bool>, name: string, other: string)
    ensures Selected(Toggle(Toggle(sel, name), name), other) == Selected(sel, other)
    ensures Selected(Toggle(sel, name), other) == if other == name then !Selected(sel, other) else Selected(sel, other)
  {
  }

  /** The alive players are more than one iff two distinct roster entries
      are alive: the game goes on exactly then. */
  lemma {:induction false} AliveCountTwo(ps: seq<Player>)
    ensures AliveCount(ps) >= 2 <==> exists i, j :: 0 <= i < j < |ps| && ps[i].isAlive && ps[j].isAlive
  {
    if ps != [] {
      var pre := ps[..|ps| - 1];
      AliveCountTwo(pre);
      AliveCountOne(pre);
      if exists i, j :: 0 <= i < j < |pre| && pre[i].isAlive && pre[j].isAlive {
        var i, j :| 0 <= i < j < |pre| && pre[i].isAlive && pre[j].isAlive;
        assert ps[i].isAlive && ps[j].isAlive;
      }
      if exists i, j :: 0 <= i < j < |ps| && ps[i].isAlive && ps[j].isAlive {
        var i, j :| 0 <= i < j < |ps| && ps[i].isAlive && ps[j].isAlive;
        if j < |ps| - 1 {
          assert pre[i].isAlive && pre[j].isAlive;
        } else {
          assert pre[i].isAlive;
        }
      }
    }
  }

  /** Some player is alive iff the alive count is positive. */
  lemma {:induction false} AliveCountOne(ps: seq<Player>)
    ensures AliveCount(ps) >= 1 <==> exists i :: 0 <= i < |ps| && ps[i].isAlive
  {
    if ps != [] {
      var pre := ps[..|ps| - 1];
      AliveCountOne(pre);
      if exists i :: 0 <= i < |pre| && pre[i].isAlive {
        var i :| 0 <= i < |pre| && pre[i].isAlive;
        assert ps[i].isAlive;
      }
      if exists i :: 0 <= i < |ps| - 1 && ps[i].isAlive {
        var i :| 0 <= i < |ps| - 1 && ps[i].isAlive;
        assert pre[i].isAlive;
      }
    }
  }

  /** Every entry of `inputs` comes from an alive player, and every alive
      player contributes its entry. */
  lemma {:induction false} EntriesMember(ps: seq<Player>, boxes: map<string, Option<nat>>,
                                         sel: map<string, bool>, e: Entry)
    requires NoneMissing(ps, boxes, sel)
    ensures e in Entries(ps, boxes, sel) <==>
            exists k :: 0 <= k < |ps| && ps[k].isAlive && e == EntryOf(ps[k], boxes, sel)
  {
    if ps != [] {
      var pre := ps[..|ps| - 1];
      assert NoneMissing(pre, boxes, sel) by {
        forall k | 0 <= k < |pre| ensures !Missing(pre[k], boxes, sel) {
          assert pre[k] == ps[k];
        }
      }
      EntriesMember(pre, boxes, sel, e);
      if exists k :: 0 <= k < |pre| && pre[k].isAlive && e == EntryOf(pre[k], boxes, sel) {
        var k :| 0 <= k < |pre| && pre[k].isAlive && e == EntryOf(pre[k], boxes, sel);
        assert ps[k] == pre[k];
      }
      if exists k :: 0 <= k < |ps| - 1 && ps[k].isAlive && e == EntryOf(ps[k], boxes, sel) {
        var k :| 0 <= k < |ps| - 1 && ps[k].isAlive && e == EntryOf(ps[k], boxes, sel);
        assert ps[k] == pre[k];
      }
    }
  }

  /** A roster with distinct names yields entries with distinct names. */
  lemma {:induction false} EntriesUnique(ps: seq<Player>, boxes: map<string, Option<nat>>,
                                         sel: map<string, bool>)
    requires NoneMissing(ps, boxes, sel) && NamesUnique(ps)
    ensures UniqueNames(Entries(ps, boxes, sel))
  {
    if ps != [] {
      var pre := ps[..|ps| - 1];
      var last := ps[|ps| - 1];
      assert NoneMissing(pre, boxes, sel) by {
        forall k | 0 <= k < |pre| ensures !Missing(pre[k], boxes, sel) {
          assert pre[k] == ps[k];
        }
      }
      EntriesUnique(pre, boxes, sel);
      var es := Entries(pre, boxes, sel);
      if last.isAlive {
        forall i | 0 <= i < |es| ensures es[i].name != last.name {
          EntriesMember(pre, boxes, sel, es[i]);
          var k :| 0 <= k < |pre| && pre[k].isAlive && es[i] == EntryOf(pre[k], boxes, sel);
          assert pre[k] == ps[k];
        }
      }
    }
  }

  /** `newlyEliminated` lists exactly the alive players at or below -10. */
  lemma {:induction false} EliminatedMember(ps: seq<Player>, name: string)
    ensures name in EliminatedNames(ps) <==>
            exists k :: 0 <= k < |ps| && ps[k].isAlive && ps[k].score <= EliminationScore && ps[k].name == name
  {
    if ps != [] {
      var pre := ps[..|ps| - 1];
      EliminatedMember(pre, name);
      if exists k :: 0 <= k < |pre| && pre[k].isAlive && pre[k].score <= EliminationScore && pre[k].name == name {
        var k :| 0 <= k < |pre| && pre[k].isAlive && pre[k].score <= EliminationScore && pre[k].name == name;
        assert ps[k] == pre[k];
      }
      if exists k :: 0 <= k < |ps| - 1 && ps[k].isAlive && ps[k].score <= EliminationScore && ps[k].name == name {
        var k :| 0 <= k < |ps| - 1 && ps[k].isAlive && ps[k].score <= EliminationScore && ps[k].name == name;
        assert ps[k] == pre[k];
      }
    }
  }

  /** The report of a resolved round names exactly the players it took out
      of the game. */
  lemma EliminatedReported(ps: seq<Player>, boxes: map<string, Option<nat>>,
                           sel: map<string, bool>, round: int, name: string)
    requires NoneMissing(ps, boxes, sel)
    ensures PlayRound(ps, boxes, sel, round).0.Resolved?
    ensures name in PlayRound(ps, boxes, sel, round).0.eliminated <==>
            exists k :: 0 <= k < |ps| && ps[k].isAlive && !PlayRound(ps, boxes, sel, round).1[k].isAlive
                        && ps[k].name == name
  {
    var o := Resolve(Entries(ps, boxes, sel), round);
    var scored := ScoreAll(MarkJokers(ps, sel), o, sel);
    assert PlayRound(ps, boxes, sel, round) == (Resolved(o, EliminatedNames(scored)), Eliminate(scored));
    EliminatedMember(scored, name);
  }

  /** An alive player's entry sits somewhere in `inputs`. */
  lemma EntryOfAlive(ps: seq<Player>, boxes: map<string, Option<nat>>, sel: map<string, bool>, k: nat)
    requires NoneMissing(ps, boxes, sel) && k < |ps| && ps[k].isAlive
    ensures exists i :: 0 <= i < |Entries(ps, boxes, sel)| && Entries(ps, boxes, sel)[i] == EntryOf(ps[k], boxes, sel)
  {
    EntriesMember(ps, boxes, sel, EntryOf(ps[k], boxes, sel));
  }

  /** A revelation round, per player: an alive player keeps their score iff
      they typed the prime, and loses 2 otherwise, joker users included. */
  lemma RevelationRound(ps: seq<Player>, boxes: map<string, Option<nat>>,
                        sel: map<string, bool>, round: int, k: nat)
    requires NoneMissing(ps, boxes, sel) && NamesUnique(ps)
    requires Resolve(Entries(ps, boxes, sel), round).rule.Revelation?
    requires k < |ps| && ps[k].isAlive
    ensures PlayRound(ps, boxes, sel, round).1[k].score - ps[k].score ==
            if !Selected(sel, ps[k].name)
               && Box(boxes, ps[k].name) == Some(Resolve(Entries(ps, boxes, sel), round).rule.prime)
            then 0 else -2
  {
    var es := Entries(ps, boxes, sel);
    EntriesUnique(ps, boxes, sel);
    EntryOfAlive(ps, boxes, sel, k);
    RevelationOutcome(es, round);
    RoundEffect(ps, boxes, sel, round, k);
  }

  /** A default-rule round, per player: an alive player loses 1 iff they
      submitted a number and someone else's is strictly closer. */
  lemma ClosestRound(ps: seq<Player>, boxes: map<string, Option<nat>>,
                     sel: map<string, bool>, round: int, k: nat)
    requires NoneMissing(ps, boxes, sel) && NamesUnique(ps)
    requires Resolve(Entries(ps, boxes, sel), round).rule.Closest?
    requires k < |ps| && ps[k].isAlive
    ensures var es := Entries(ps, boxes, sel);
            var t := Target(|Numeric(es)|, Total(Numeric(es)), Resolve(es, round).rule.tenths);
            PlayRound(ps, boxes, sel, round).1[k].score - ps[k].score ==
            if Selected(sel, ps[k].name)
               || forall j :: 0 <= j < |es| && es[j].sub.Num? ==> Dist(Box(boxes, ps[k].name).value, t) <= Dist(es[j].sub.n, t)
            then 0 else -1
  {
    var es := Entries(ps, boxes, sel);
    EntriesUnique(ps, boxes, sel);
    EntryOfAlive(ps, boxes, sel, k);
    ClosestRule(es, round);
    ClosestPenalty(es, round);
    RoundEffect(ps, boxes, sel, round, k);
  }

  /** processRound's validation loop: the first alive player, in roster
      order, whose box is empty and who did not choose the joker. */
  method FindIncomplete(ps: seq<Player>, boxes: map<string, Option<nat>>, sel: map<string, bool>)
    returns (missing: Option<string>)
    requires HasBoxes(ps, boxes)
    ensures missing == FirstIncomplete(ps, boxes, sel)
  {
    for i := 0 to |ps|
      invariant FirstIncomplete(ps, boxes, sel) == FirstIncomplete(ps[i..], boxes, sel)
    {
      assert ps[i..][1..] == ps[i + 1..];
      var p := ps[i];
      if p.isAlive {
        var isJoker := Selected(sel, p.name);
        if boxes[p.name].None? && !isJoker {
          return Some(p.name);
        }
      }
    }
    assert ps[|ps|..] == [];
    return None;
  }

  /** processRound's collect loop: one entry per alive player, JOKER or the
      typed number, and the joker users' `hasUsedJoker` set. */
  method CollectEntries(ps0: seq<Player>, boxes: map<string, Option<nat>>, sel: map<string, bool>)
    returns (es: seq<Entry>, ps: seq<Player>)
    requires NoneMissing(ps0, boxes, sel)
    ensures es == Entries(ps0, boxes, sel)
    ensures ps == MarkJokers(ps0, sel)
  {
    es := [];
    ps := ps0;
    for i := 0 to |ps|
      invariant |ps| == |ps0|
      invariant forall k :: 0 <= k < i ==> ps[k] == MarkJoker(ps0[k], sel)
      invariant forall k :: i <= k < |ps| ==> ps[k] == ps0[k]
      invariant NoneMissing(ps0[..i], boxes, sel)
      invariant es == Entries(ps0[..i], boxes, sel)
    {
      var pre := ps0[..i + 1];
      assert pre[..i] == ps0[..i];
      assert NoneMissing(pre, boxes, sel) by {
        forall k | 0 <= k < |pre| ensures !Missing(pre[k], boxes, sel) {
          assert pre[k] == ps0[k];
        }
      }
      var p := ps[i];
      if p.isAlive {
        if Selected(sel, p.name) {
          es := es + [Entry(p.name, Joker)];
          ps := ps[i := p.(hasUsedJoker := true)];
        } else {
          es := es + [Entry(p.name, Num(boxes[p.name].value))];
        }
      }
    }
    assert ps0[..|ps0|] == ps0;
  }

  /** The rule's score changes: every alive player's score moves by the
      outcome's delta, everybody else is untouched. */
  method ApplyDeltas(ps0: seq<Player>, o: Outcome, sel: map<string, bool>) returns (ps: seq<Player>)
    ensures ps == ScoreAll(ps0, o, sel)
  {
    ps := ps0;
    for i := 0 to |ps|
      invariant |ps| == |ps0|
      invariant forall k :: 0 <= k < i ==> ps[k] == Scored(ps0[k], o, sel)
      invariant forall k :: i <= k < |ps| ==> ps[k] == ps0[k]
    {
      var p := ps[i];
      if p.isAlive {
        ps := ps[i := p.(score := p.score + Delta(o, p.name, Selected(sel, p.name)))];
      }
    }
  }

  /** updateAndDisplayResults' loop over the whole roster. */
  method EliminateAll(ps0: seq<Player>) returns (ps: seq<Player>, newlyEliminated: seq<string>)
    ensures ps == Eliminate(ps0) && newlyEliminated == EliminatedNames(ps0)
  {
    ps := ps0;
    newlyEliminated := [];
    for i := 0 to |ps|
      invariant |ps| == |ps0|
      invariant forall k :: 0 <= k < i ==> ps[k] == Fall(ps0[k])
      invariant forall k :: i <= k < |ps| ==> ps[k] == ps0[k]
      invariant newlyEliminated == EliminatedNames(ps0[..i])
    {
      assert ps0[..i + 1][..i] == ps0[..i];
      var p := ps[i];
      if p.isAlive && p.score <= EliminationScore {
        ps := ps[i := p.(isAlive := false)];
        newlyEliminated := newlyEliminated + [p.name];
      }
    }
    assert ps0[..|ps0|] == ps0;
  }

  /** The game state gameState holds. */
  class Game {
    var players: seq<Player>
    var currentRound: int
    var jokerSelections: map<string, bool>

    ghost predicate Valid()
      reads this
    {
      Roster(players)
    }

    /** A fresh game: no players, round 1, no selections. */
    constructor()
      ensures players == [] && currentRound == 1 && jokerSelections == map[]
      ensures Valid()
    {
      players := [];
      currentRound := 1;
      jokerSelections := map[];
    }

    /** `gameState.players.some(p => p.name === name)`. */
    method FindName(name: string) returns (found: bool)
      ensures found == HasName(players, name)
    {
      found := false;
      var i := 0;
      while i < |players| && !found
        invariant 0 <= i <= |players|
        invariant found == exists k :: 0 <= k < i && players[k].name == name
      {
        found := players[i].name == name;
        i := i + 1;
      }
    }

    /** `gameState.players.filter(p => p.isAlive).length`. */
    method CountAlive() returns (n: nat)
      ensures n == AliveCount(players)
    {
      n := 0;
      for i := 0 to |players|
        invariant n == AliveCount(players[..i])
      {
        assert players[..i + 1][..i] == players[..i];
        if players[i].isAlive {
          n := n + 1;
        }
      }
      assert players[..|players|] == players;
    }

    /** addPlayer: the trimmed, upper-cased name joins the roster with score
        0, alive and joker unused iff it is non-empty and not taken. */
    method AddPlayer(raw: string) returns (r: AddResult)
      requires Valid()
      modifies this
      ensures Valid()
      ensures currentRound == old(currentRound) && jokerSelections == old(jokerSelections)
      ensures var name := Normalize(raw);
              if name != [] && !HasName(old(players), name) then
                r == Added(name) && players == old(players) + [Player(name, 0, true, false)]
              else
                players == old(players)
                && r == if HasName(old(players), name) then DuplicateName(name) else Blank
    {
      var name := Normalize(raw);
      var isNew := false;
      if name != [] {
        var taken := FindName(name);
        isNew := !taken;
      }
      if isNew {
        NormalizeIsNormal(raw);
        players := players + [Player(name, 0, true, false)];
        r := Added(name);
      } else {
        var taken := FindName(name);
        r := if taken then DuplicateName(name) else Blank;
      }
    }

    /** handleJokerClick: flips the player's joker selection. */
    method HandleJokerClick(name: string)
      modifies this
      ensures jokerSelections == Toggle(old(jokerSelections), name)
      ensures players == old(players) && currentRound == old(currentRound)
    {
      jokerSelections := jokerSelections[name := !Selected(jokerSelections, name)];
    }

    /** The game-state part of startRound: the selections start empty. */
    method StartRound()
      modifies this
      ensures jokerSelections == map[]
      ensures players == old(players) && currentRound == old(currentRound)
    {
      jokerSelections := map[];
    }

    /** processRound: validate, collect and flag jokers, resolve, apply the
        score changes, eliminate. */
    method ProcessRound(boxes: map<string, Option<nat>>) returns (r: Report)
      requires Valid() && HasBoxes(players, boxes)
      modifies this
      ensures Valid()
      ensures (r, players) == PlayRound(old(players), boxes, old(jokerSelections), old(currentRound))
      ensures currentRound == old(currentRound) && jokerSelections == old(jokerSelections)
    {
      var sel := jokerSelections;
      var missing := FindIncomplete(players, boxes, sel);
      if missing.Some? {
        return Incomplete(missing.value);
      }
      var ps0 := players;
      var es, marked := CollectEntries(ps0, boxes, sel);
      var o := ResolveRound(es, currentRound);
      var scored := ApplyDeltas(marked, o, sel);
      RosterKept(ps0, scored);
      players := scored;
      var eliminated := UpdateAndDisplayResults();
      r := Resolved(o, eliminated);
      assert PlayRound(ps0, boxes, sel, old(currentRound)) == (Resolved(o, EliminatedNames(scored)), Eliminate(scored));
    }

    /** updateAndDisplayResults: every alive player at or below -10 leaves
        the game, and their names are reported in roster order. */
    method UpdateAndDisplayResults() returns (newlyEliminated: seq<string>)
      requires Valid()
      modifies this
      ensures Valid()
      ensures players == Eliminate(old(players)) && newlyEliminated == EliminatedNames(old(players))
      ensures currentRound == old(currentRound) && jokerSelections == old(jokerSelections)
    {
      var ps;
      ps, newlyEliminated := EliminateAll(players);
      RosterKept(players, ps);
      players := ps;
    }

    /** nextRound: the game is over iff at most one player is alive;
        otherwise the round counter goes up and a new round starts. */
    method NextRound() returns (gameOver: bool)
      modifies this
      ensures gameOver <==> AliveCount(old(players)) <= 1
      ensures players == old(players)
      ensures gameOver ==> currentRound == old(currentRound) && jokerSelections == old(jokerSelections)
      ensures !gameOver ==> currentRound == old(currentRound) + 1 && jokerSelections == map[]
    {
      var remaining := CountAlive();
      if remaining <= 1 {
        return true;
      }
      currentRound := currentRound + 1;
      StartRound();
      return false;
    }

    /** resetGame: back to the initial state. */
    method ResetGame()
      modifies this
      ensures players == [] && currentRound == 1 && jokerSelections == map[]
      ensures Valid()
    {
      players := [];
      currentRound := 1;
      jokerSelections := map[];
    }
  }
}
