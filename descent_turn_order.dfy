/** The Descent hero/overlord turn order. Slot 0 is the overlord, slots
    1 .. nPlayers-1 are the heroes. Ending a turn alternates between the
    overlord (who activates the next monster group) and the next hero in
    rotation, skips players whose result is no longer ongoing, and ends the
    round once every hero and every monster group has acted. */
module Descent {
  import opened JavaInt

  /** Per-player and per-game result. */
  datatype GameResult = Ongoing | GameEnd | Win | Lose | Draw

  /** A figure whose per-round state is reset at the end of a round. */
  datatype FigureRef = Hero(index: nat) | Monster(group: nat, index: nat) | Overlord

  /** The part of the game state the turn order reads and writes. Heroes are
      counted, monster groups are given by their sizes, and each call of a
      figure's round reset is recorded, in order, in `resetLog` (what that
      reset does inside the figure is not part of this model). */
  class DescentGameState {
    var gameStatus: GameResult
    var playerResults: seq<GameResult>
    var nHeroes: nat
    var monsterGroups: seq<nat>
    var resetLog: seq<FigureRef>

    constructor (status: GameResult, results: seq<GameResult>, heroes: nat, groups: seq<nat>)
      ensures gameStatus == status && playerResults == results
      ensures nHeroes == heroes && monsterGroups == groups && resetLog == []
    {
      gameStatus, playerResults := status, results;
      nHeroes, monsterGroups, resetLog := heroes, groups, [];
    }

    /** The round reset of every hero, then of every monster of every group,
        then of the overlord. */
    method ResetFigures()
      modifies this`resetLog
      ensures resetLog == old(resetLog) + RoundResets(nHeroes, monsterGroups)
    {
      ghost var log0 := resetLog;
      var i := 0;
      while i < nHeroes
        invariant 0 <= i <= nHeroes
        invariant resetLog == log0 + HeroResets(i)
      {
        resetLog := resetLog + [Hero(i)];
        i := i + 1;
      }
      ghost var log1 := resetLog;
      var g := 0;
      while g < |monsterGroups|
        invariant 0 <= g <= |monsterGroups|
        invariant resetLog == log1 + MonsterResets(monsterGroups, g)
      {
        var m := 0;
        while m < monsterGroups[g]
          invariant 0 <= m <= monsterGroups[g]
          invariant resetLog == log1 + MonsterResets(monsterGroups, g) + GroupResets(g, m)
        {
          resetLog := resetLog + [Monster(g, m)];
          m := m + 1;
        }
        g := g + 1;
      }
      resetLog := resetLog + [Overlord];
    }
  }

  /** What the superclass's own round-end step leaves in the fields it owns.
      That step is not part of this model, so its outcome is an input. */
  datatype BaseRoundEnd = BaseRoundEnd(turnCounter: int, turnOwner: int,
                                       reactivePlayers: seq<int>, gameStatus: GameResult)

  // ---------------------------------------------------------------------
  // Specification of the rotation, as values.

  /** The turn owner together with the two pointers `nextPlayer` advances. */
  datatype Rotation = Rotation(owner: int, monsterGroup: int, hero: int)

  /** The hero pointer names a hero slot: 1 + hero < nPlayers. */
  predicate HeroInRange(hero: int, nPlayers: int)
  {
    0 <= hero < nPlayers - 1
  }

  /** `turnOwner = nextPlayer(gameState)`: from the overlord, advance the
      monster-group pointer and hand over to the next hero; from a hero,
      advance the hero pointer and hand back to the overlord. The two
      requires are exactly the divisions by zero of the source. */
  function Advance(r: Rotation, nPlayers: int, nGroups: int): (r': Rotation)
    requires r.owner == 0 ==> nGroups != 0
    requires r.owner != 0 ==> nPlayers != 1
    ensures r.owner == 0 ==> r'.owner == 1 + r.hero && r'.hero == r.hero
    ensures r.owner != 0 ==> r'.owner == 0 && r'.monsterGroup == r.monsterGroup
  {
    if r.owner == 0 then
      Rotation(1 + r.hero, Rem(nGroups + r.monsterGroup + 1, nGroups), r.hero)
    else
      Rotation(0, r.monsterGroup, Rem(nPlayers - 1 + r.hero + 1, nPlayers - 1))
  }

  /** From an in-range hero pointer, `Advance` hands the turn to a valid
      player slot and keeps the hero pointer in range; while the monster-group
      pointer is in range it moves to its successor modulo the group count. */
  lemma AdvanceInRange(r: Rotation, nPlayers: int, nGroups: int)
    requires nPlayers >= 2 && nGroups > 0 && HeroInRange(r.hero, nPlayers)
    ensures 0 <= Advance(r, nPlayers, nGroups).owner < nPlayers
    ensures HeroInRange(Advance(r, nPlayers, nGroups).hero, nPlayers)
    ensures r.owner == 0 && 0 <= r.monsterGroup < nGroups ==>
              Advance(r, nPlayers, nGroups).monsterGroup == (r.monsterGroup + 1) % nGroups
    ensures r.owner != 0 ==>
              Advance(r, nPlayers, nGroups).hero == (r.hero + 1) % (nPlayers - 1)
  {
    if r.owner == 0 {
      if 0 <= r.monsterGroup < nGroups {
        RotateInRange(r.monsterGroup, nGroups);
      }
    } else {
      RotateInRange(r.hero, nPlayers - 1);
    }
  }

  /** Two consecutive hand-overs starting at the overlord come back to the
      overlord, having given exactly one hero a turn: the monster-group
      pointer has moved once and the hero pointer has moved once. */
  lemma OverlordHeroAlternation(r: Rotation, nPlayers: int, nGroups: int)
    requires r.owner == 0 && nPlayers >= 2 && nGroups > 0
    requires HeroInRange(r.hero, nPlayers) && 0 <= r.monsterGroup < nGroups
    ensures Advance(r, nPlayers, nGroups).owner == 1 + r.hero
    ensures Advance(Advance(r, nPlayers, nGroups), nPlayers, nGroups) ==
              Rotation(0, (r.monsterGroup + 1) % nGroups, (r.hero + 1) % (nPlayers - 1))
  {
    var r1 := Advance(r, nPlayers, nGroups);
    AdvanceInRange(r, nPlayers, nGroups);
    AdvanceInRange(r1, nPlayers, nGroups);
  }

  /** The outcome of the skip loop: the final rotation, whether the loop gave
      up and ended the game, and how many extra `nextPlayer` calls it made. */
  datatype SkipOutcome = SkipOutcome(rotation: Rotation, ended: bool, extraCalls: nat)

  /** The loop that skips players whose result is not ongoing, entered after
      `extraCalls` extra calls; it gives up after `nPlayers` of them. */
  function Skip(r: Rotation, results: seq<GameResult>, nPlayers: int, nGroups: int,
                extraCalls: nat): (out: SkipOutcome)
    requires nPlayers >= 2 && nGroups > 0 && |results| == nPlayers
    requires 0 <= r.owner < nPlayers && HeroInRange(r.hero, nPlayers)
    requires extraCalls < nPlayers
    ensures 0 <= out.rotation.owner < nPlayers && HeroInRange(out.rotation.hero, nPlayers)
    ensures extraCalls <= out.extraCalls <= nPlayers
    ensures out.ended <==> out.extraCalls == nPlayers
    ensures out.ended || results[out.rotation.owner] == Ongoing
    decreases nPlayers - extraCalls
  {
    if results[r.owner] == Ongoing then
      SkipOutcome(r, false, extraCalls)
    else
      AdvanceInRange(r, nPlayers, nGroups);
      var r' := Advance(r, nPlayers, nGroups);
      if extraCalls + 1 >= nPlayers then SkipOutcome(r', true, extraCalls + 1)
      else Skip(r', results, nPlayers, nGroups, extraCalls + 1)
  }

  /** One call of the skip loop on a player who is out: the rotation
      advances and, on the last allowed call, the loop gives up. */
  lemma SkipStep(r: Rotation, results: seq<GameResult>, nPlayers: int, nGroups: int, n: nat)
    requires nPlayers >= 2 && nGroups > 0 && |results| == nPlayers
    requires 0 <= r.owner < nPlayers && HeroInRange(r.hero, nPlayers)
    requires n < nPlayers && results[r.owner] != Ongoing
    ensures var r' := Advance(r, nPlayers, nGroups);
            0 <= r'.owner < nPlayers && HeroInRange(r'.hero, nPlayers) &&
            Skip(r, results, nPlayers, nGroups, n) ==
              if n + 1 >= nPlayers then SkipOutcome(r', true, n + 1)
              else Skip(r', results, nPlayers, nGroups, n + 1)
  {
    AdvanceInRange(r, nPlayers, nGroups);
  }

  /** The skip loop stops at the first player who is still in the game. */
  lemma SkipStops(r: Rotation, results: seq<GameResult>, nPlayers: int, nGroups: int, n: nat)
    requires nPlayers >= 2 && nGroups > 0 && |results| == nPlayers
    requires 0 <= r.owner < nPlayers && HeroInRange(r.hero, nPlayers)
    requires n < nPlayers && results[r.owner] == Ongoing
    ensures Skip(r, results, nPlayers, nGroups, n) == SkipOutcome(r, false, n)
  {
  }

  /** When no player is ongoing, the skip loop always gives up and ends the
      game. */
  lemma {:induction false} SkipEndsWhenNobodyOngoing(r: Rotation, results: seq<GameResult>,
                                                     nPlayers: int, nGroups: int, extraCalls: nat)
    requires nPlayers >= 2 && nGroups > 0 && |results| == nPlayers
    requires 0 <= r.owner < nPlayers && HeroInRange(r.hero, nPlayers)
    requires extraCalls < nPlayers
    requires forall i :: 0 <= i < |results| ==> results[i] != Ongoing
    ensures Skip(r, results, nPlayers, nGroups, extraCalls).ended
    decreases nPlayers - extraCalls
  {
    AdvanceInRange(r, nPlayers, nGroups);
    var r' := Advance(r, nPlayers, nGroups);
    if extraCalls + 1 < nPlayers {
      SkipEndsWhenNobodyOngoing(r', results, nPlayers, nGroups, extraCalls + 1);
    }
  }

  /** While the overlord is ongoing the skip loop never ends the game when
      entered with at least two calls to spare: a hero who is out hands the
      turn straight back to the overlord. */
  lemma SkipKeepsGameWhileOverlordOngoing(r: Rotation, results: seq<GameResult>,
                                          nPlayers: int, nGroups: int, extraCalls: nat)
    requires nPlayers >= 2 && nGroups > 0 && |results| == nPlayers
    requires 0 <= r.owner < nPlayers && HeroInRange(r.hero, nPlayers)
    requires extraCalls + 1 < nPlayers
    requires results[0] == Ongoing
    ensures !Skip(r, results, nPlayers, nGroups, extraCalls).ended
    ensures Skip(r, results, nPlayers, nGroups, extraCalls).extraCalls <= extraCalls + 1
  {
    if results[r.owner] != Ongoing {
      AdvanceInRange(r, nPlayers, nGroups);
      var r' := Advance(r, nPlayers, nGroups);
      assert r'.owner == 0;
      assert Skip(r', results, nPlayers, nGroups, extraCalls + 1)
          == SkipOutcome(r', false, extraCalls + 1);
    }
  }

  /** The skip bound is counted in calls, and every other call lands on the
      overlord, so with the overlord out the loop can end the game while a
      hero is still ongoing, and even after handing the turn to that hero:
      two heroes, only hero 2 ongoing, entered at the overlord with the hero
      pointer at hero 1. */
  lemma SkipMayEndWithHeroOngoing(results: seq<GameResult>, start: Rotation)
    requires results == [Lose, Lose, Ongoing] && start == Rotation(0, 0, 0)
    ensures Skip(start, results, 3, 1, 0).ended
    ensures Skip(start, results, 3, 1, 0).rotation.owner == 2 && results[2] == Ongoing
  {
    AdvanceInRange(start, 3, 1);
    var r1 := Advance(start, 3, 1);
    assert r1 == Rotation(1, 0, 0);
    AdvanceInRange(r1, 3, 1);
    var r2 := Advance(r1, 3, 1);
    assert r2 == Rotation(0, 0, 1);
    AdvanceInRange(r2, 3, 1);
    var r3 := Advance(r2, 3, 1);
    assert r3 == Rotation(2, 0, 1);
    assert results[r2.owner] != Ongoing;
    assert Skip(r2, results, 3, 1, 2) == SkipOutcome(r3, true, 3);
    assert results[r1.owner] != Ongoing;
    assert Skip(r1, results, 3, 1, 1) == Skip(r2, results, 3, 1, 2);
    assert results[start.owner] != Ongoing;
    assert Skip(start, results, 3, 1, 0) == Skip(r1, results, 3, 1, 1);
  }

  // ---------------------------------------------------------------------
  // The round-end resets, as the sequence of reset calls they make.

  function HeroResets(n: nat): (log: seq<FigureRef>)
    ensures |log| == n
  {
    if n == 0 then [] else HeroResets(n - 1) + [Hero(n - 1)]
  }

  /** The hero loop resets hero `i` as its `i`-th call. */
  lemma {:induction false} HeroResetsAt(n: nat, i: nat)
    requires i < n
    ensures HeroResets(n)[i] == Hero(i)
  {
    if i < n - 1 {
      HeroResetsAt(n - 1, i);
    }
  }

  function GroupResets(group: nat, size: nat): (log: seq<FigureRef>)
    ensures |log| == size
  {
    if size == 0 then [] else GroupResets(group, size - 1) + [Monster(group, size - 1)]
  }

  /** The resets of the first `k` monster groups, group by group. */
  function MonsterResets(groups: seq<nat>, k: nat): seq<FigureRef>
    requires k <= |groups|
  {
    if k == 0 then [] else MonsterResets(groups, k - 1) + GroupResets(k - 1, groups[k - 1])
  }

  /** Every hero, then every monster of every group, then the overlord. */
  function RoundResets(nHeroes: nat, groups: seq<nat>): seq<FigureRef>
  {
    HeroResets(nHeroes) + MonsterResets(groups, |groups|) + [Overlord]
  }

  /** How many times figure `f` is reset in `log`. */
  function Count(log: seq<FigureRef>, f: FigureRef): (n: nat)
    ensures n <= |log|
    ensures n == 0 <==> f !in log
  {
    if |log| == 0 then 0
    else Count(log[..|log| - 1], f) + (if log[|log| - 1] == f then 1 else 0)
  }

  /** Counts add up over a concatenation. */
  lemma {:induction false} CountConcat(a: seq<FigureRef>, b: seq<FigureRef>, f: FigureRef)
    ensures Count(a + b, f) == Count(a, f) + Count(b, f)
    decreases |b|
  {
    if |b| > 0 {
      var c := b[..|b| - 1];
      assert (a + b)[..|a + b| - 1] == a + c;
      CountConcat(a, c, f);
    } else {
      assert a + b == a;
    }
  }

  /** The hero loop resets each of the first `n` heroes once and nothing else. */
  lemma {:induction false} HeroResetsCount(n: nat, f: FigureRef)
    ensures Count(HeroResets(n), f) == if f.Hero? && f.index < n then 1 else 0
  {
    if n > 0 {
      var log := HeroResets(n);
      assert log[..n - 1] == HeroResets(n - 1);
      HeroResetsCount(n - 1, f);
    }
  }

  /** A group's loop resets each of its monsters once and nothing else. */
  lemma {:induction false} GroupResetsCount(group: nat, size: nat, f: FigureRef)
    ensures Count(GroupResets(group, size), f) ==
              if f.Monster? && f.group == group && f.index < size then 1 else 0
  {
    if size > 0 {
      var log := GroupResets(group, size);
      assert log[..size - 1] == GroupResets(group, size - 1);
      GroupResetsCount(group, size - 1, f);
    }
  }

  /** The loops over the first `k` groups reset every monster of those groups
      exactly once, and no hero, no other monster and not the overlord. */
  lemma {:induction false} MonsterResetsCount(groups: seq<nat>, k: nat, f: FigureRef)
    requires k <= |groups|
    ensures Count(MonsterResets(groups, k), f) ==
              if f.Monster? && f.group < k && f.index < groups[f.group] then 1 else 0
  {
    if k > 0 {
      MonsterResetsCount(groups, k - 1, f);
      GroupResetsCount(k - 1, groups[k - 1], f);
      CountConcat(MonsterResets(groups, k - 1), GroupResets(k - 1, groups[k - 1]), f);
    }
  }

  /** A round end resets every hero, every monster of every group and the
      overlord exactly once each, and no other figure. */
  lemma RoundResetsOnce(nHeroes: nat, groups: seq<nat>, f: FigureRef)
    ensures Count(RoundResets(nHeroes, groups), f) ==
              if (f.Hero? && f.index < nHeroes) ||
                 (f.Monster? && f.group < |groups| && f.index < groups[f.group]) ||
                 f.Overlord?
              then 1 else 0
  {
    HeroResetsCount(nHeroes, f);
    MonsterResetsCount(groups, |groups|, f);
    CountConcat(HeroResets(nHeroes), MonsterResets(groups, |groups|), f);
    CountConcat(HeroResets(nHeroes) + MonsterResets(groups, |groups|), [Overlord], f);
    assert Count([Overlord], f) == if f.Overlord? then 1 else 0 by {
      assert [Overlord][..0] == [];
    }
  }

  // ---------------------------------------------------------------------
  // The turn order object.

  class DescentTurnOrder {
    // Fields of the superclass that this turn order reads and writes.
    var nPlayers: int
    var turnCounter: int
    var turnOwner: int
    var reactivePlayers: seq<int>
    // Fields of the Descent turn order.
    var monsterGroupActingNext: int
    var monsterActingNext: int
    var heroPlayerActingNext: int

    /** A fresh turn order. The superclass constructor is not part of this
        model; the model assumes it leaves the turn counter and owner at 0
        and the reactive-player queue empty. The Descent pointers start at
        Java's field default of 0. */
    constructor (nPlayers: int)
      ensures this.nPlayers == nPlayers && turnCounter == 0 && turnOwner == 0
      ensures reactivePlayers == []
      ensures monsterGroupActingNext == 0 && monsterActingNext == 0 && heroPlayerActingNext == 0
    {
      this.nPlayers := nPlayers;
      turnCounter, turnOwner, reactivePlayers := 0, 0, [];
      monsterGroupActingNext, monsterActingNext, heroPlayerActingNext := 0, 0, 0;
    }

    function Rot(): (r: Rotation)
      reads this
      ensures r.owner == turnOwner && r.monsterGroup == monsterGroupActingNext
      ensures r.hero == heroPlayerActingNext
    {
      Rotation(turnOwner, monsterGroupActingNext, heroPlayerActingNext)
    }

    /** `_reset`: the three Descent pointers go back to 0. */
    method Reset()
      modifies this`monsterGroupActingNext, this`monsterActingNext, this`heroPlayerActingNext
      ensures monsterGroupActingNext == 0 && monsterActingNext == 0 && heroPlayerActingNext == 0
    {
      monsterGroupActingNext := 0;
      monsterActingNext := 0;
      heroPlayerActingNext := 0;
    }

    /** `nextMonster`: rotate the monster pointer within a group of the given
        size; a size of 0 is a division by zero in the source. */
    method NextMonster(groupSize: int)
      requires groupSize != 0
      modifies this`monsterActingNext
      ensures monsterActingNext == Rem(groupSize + old(monsterActingNext) + 1, groupSize)
      ensures 0 <= old(monsterActingNext) < groupSize ==>
                monsterActingNext == (old(monsterActingNext) + 1) % groupSize &&
                0 <= monsterActingNext < groupSize
    {
      if 0 <= monsterActingNext < groupSize {
        RotateInRange(monsterActingNext, groupSize);
      }
      monsterActingNext := Rem(groupSize + monsterActingNext + 1, groupSize);
    }

    /** `nextPlayer`: returns the next player and advances one pointer; it
        does not itself change the turn owner. */
    method NextPlayer(gs: DescentGameState) returns (next: int)
      requires turnOwner == 0 ==> |gs.monsterGroups| != 0
      requires turnOwner != 0 ==> nPlayers != 1
      modifies this`monsterGroupActingNext, this`heroPlayerActingNext
      ensures var r := Advance(old(Rot()), nPlayers, |gs.monsterGroups|);
              next == r.owner && monsterGroupActingNext == r.monsterGroup &&
              heroPlayerActingNext == r.hero
      ensures old(turnOwner) == 0 ==>
                next == 1 + heroPlayerActingNext && heroPlayerActingNext == old(heroPlayerActingNext)
      ensures old(turnOwner) != 0 ==>
                next == 0 && monsterGroupActingNext == old(monsterGroupActingNext)
    {
      var nMonsters := |gs.monsterGroups|;
      if turnOwner == 0 {
        monsterGroupActingNext := Rem(nMonsters + monsterGroupActingNext + 1, nMonsters);
        next := 1 + heroPlayerActingNext;
      } else {
        heroPlayerActingNext := Rem(nPlayers - 1 + heroPlayerActingNext + 1, nPlayers - 1);
        next := 0;
      }
    }

    /** `endRound`: the superclass's step (whose outcome `base` is), then the
        round reset of every hero, every monster of every group and the
        overlord, in that order; the monster pointers go back to 0 and the
        hero pointer carries over to the next round. */
    method EndRound(gs: DescentGameState, base: BaseRoundEnd)
      modifies this`turnCounter, this`turnOwner, this`reactivePlayers
      modifies this`monsterGroupActingNext, this`monsterActingNext
      modifies gs`gameStatus, gs`resetLog
      ensures turnCounter == base.turnCounter && turnOwner == base.turnOwner
      ensures reactivePlayers == base.reactivePlayers && gs.gameStatus == base.gameStatus
      ensures gs.resetLog == old(gs.resetLog) + RoundResets(gs.nHeroes, gs.monsterGroups)
      ensures monsterGroupActingNext == 0 && monsterActingNext == 0
    {
      turnCounter, turnOwner, reactivePlayers := base.turnCounter, base.turnOwner, base.reactivePlayers;
      gs.gameStatus := base.gameStatus;
      gs.ResetFigures();
      monsterGroupActingNext := 0;
      monsterActingNext := 0;
    }

    /** `endPlayerTurn`. Nothing happens unless the game is ongoing. Otherwise
        the turn counter goes up by one; once every player and every monster
        group has had a turn the round ends, else the turn passes on and
        players who are out are skipped, at most `nPlayers` extra times, after
        which the game is ended. */
    method EndPlayerTurn(gs: DescentGameState, base: BaseRoundEnd)
      requires nPlayers >= 2 && |gs.playerResults| == nPlayers
      requires HeroInRange(heroPlayerActingNext, nPlayers)
      requires gs.gameStatus == Ongoing && turnCounter + 1 < nPlayers + |gs.monsterGroups| ==>
                 |gs.monsterGroups| > 0
      modifies this`turnCounter, this`turnOwner, this`reactivePlayers
      modifies this`monsterGroupActingNext, this`monsterActingNext, this`heroPlayerActingNext
      modifies gs`gameStatus, gs`resetLog
      ensures old(gs.gameStatus) != Ongoing ==> unchanged(this) && unchanged(gs)
      ensures nPlayers == old(nPlayers) && HeroInRange(heroPlayerActingNext, nPlayers)
      ensures gs.playerResults == old(gs.playerResults) && gs.nHeroes == old(gs.nHeroes)
      ensures gs.monsterGroups == old(gs.monsterGroups)
      ensures old(gs.gameStatus) == Ongoing &&
              old(turnCounter) + 1 >= nPlayers + |gs.monsterGroups| ==>
                turnCounter == base.turnCounter && turnOwner == base.turnOwner &&
                reactivePlayers == base.reactivePlayers && gs.gameStatus == base.gameStatus &&
                gs.resetLog == old(gs.resetLog) + RoundResets(gs.nHeroes, gs.monsterGroups) &&
                monsterGroupActingNext == 0 && monsterActingNext == 0 &&
                heroPlayerActingNext == old(heroPlayerActingNext)
      ensures old(gs.gameStatus) == Ongoing &&
              old(turnCounter) + 1 < nPlayers + |gs.monsterGroups| ==>
                var out := Skip(Advance(old(Rot()), nPlayers, |gs.monsterGroups|),
                                gs.playerResults, nPlayers, |gs.monsterGroups|, 0);
                turnCounter == old(turnCounter) + 1 && Rot() == out.rotation &&
                gs.gameStatus == (if out.ended then GameEnd else Ongoing) &&
                (gs.gameStatus == GameEnd || gs.playerResults[turnOwner] == Ongoing) &&
                HeroInRange(heroPlayerActingNext, nPlayers) &&
                monsterActingNext == old(monsterActingNext) &&
                reactivePlayers == old(reactivePlayers) && gs.resetLog == old(gs.resetLog)
    {
      if gs.gameStatus != Ongoing {
        return;
      }
      turnCounter := turnCounter + 1;
      if turnCounter >= nPlayers + |gs.monsterGroups| {
        EndRound(gs, base);
      } else {
        PassTurn(gs);
      }
    }

    /** The other branch of `endPlayerTurn`: move to the next figure, then
        past every hero whose player is no longer in the game; a whole lap
        of such calls ends the game. */
    method PassTurn(gs: DescentGameState)
      requires nPlayers >= 2 && |gs.playerResults| == nPlayers
      requires HeroInRange(heroPlayerActingNext, nPlayers)
      requires gs.gameStatus == Ongoing && |gs.monsterGroups| > 0
      modifies this`turnOwner, this`monsterGroupActingNext, this`heroPlayerActingNext
      modifies gs`gameStatus
      ensures var out := Skip(Advance(old(Rot()), nPlayers, |gs.monsterGroups|),
                              gs.playerResults, nPlayers, |gs.monsterGroups|, 0);
              Rot() == out.rotation && gs.gameStatus == (if out.ended then GameEnd else Ongoing)
      ensures gs.gameStatus == GameEnd || gs.playerResults[turnOwner] == Ongoing
      ensures HeroInRange(heroPlayerActingNext, nPlayers)
    {
      AdvanceInRange(Rot(), nPlayers, |gs.monsterGroups|);
      turnOwner := NextPlayer(gs);
      SkipRetired(gs);
    }

    /** The skip loop of `endPlayerTurn`: while the turn owner is out of
        the game, move on; after `nPlayers` such moves the game ends. */
    method SkipRetired(gs: DescentGameState)
      requires nPlayers >= 2 && |gs.playerResults| == nPlayers
      requires 0 <= turnOwner < nPlayers && HeroInRange(heroPlayerActingNext, nPlayers)
      requires gs.gameStatus == Ongoing && |gs.monsterGroups| > 0
      modifies this`turnOwner, this`monsterGroupActingNext, this`heroPlayerActingNext
      modifies gs`gameStatus
      ensures var out := Skip(old(Rot()), gs.playerResults, nPlayers, |gs.monsterGroups|, 0);
              Rot() == out.rotation && gs.gameStatus == (if out.ended then GameEnd else Ongoing)
    {
      ghost var start := Rot();
      var n := 0;
      while gs.playerResults[turnOwner] != Ongoing
        invariant 0 <= n < nPlayers
        invariant 0 <= turnOwner < nPlayers && HeroInRange(heroPlayerActingNext, nPlayers)
        invariant gs.gameStatus == Ongoing && |gs.monsterGroups| > 0
        modifies this`turnOwner, this`monsterGroupActingNext, this`heroPlayerActingNext
        modifies gs`gameStatus
        invariant Skip(Rot(), gs.playerResults, nPlayers, |gs.monsterGroups|, n) ==
                  Skip(start, gs.playerResults, nPlayers, |gs.monsterGroups|, 0)
        decreases nPlayers - n
      {
        SkipStep(Rot(), gs.playerResults, nPlayers, |gs.monsterGroups|, n);
        turnOwner := NextPlayer(gs);
        n := n + 1;
        if n >= nPlayers {
          gs.gameStatus := GameEnd;
          return;
        }
      }
      SkipStops(Rot(), gs.playerResults, nPlayers, |gs.monsterGroups|, n);
    }

    /** `_copy`: a new turn order over the same number of players, with the
        three pointers and the contents of the reactive-player queue carried
        over. The superclass fields are not copied here; the copy's turn
        counter and owner are 0 by the constructor's assumption. */
    method Copy() returns (c: DescentTurnOrder)
      ensures fresh(c) && c != this
      ensures c.nPlayers == nPlayers && c.reactivePlayers == reactivePlayers
      ensures c.monsterActingNext == monsterActingNext
      ensures c.monsterGroupActingNext == monsterGroupActingNext
      ensures c.heroPlayerActingNext == heroPlayerActingNext
      ensures c.turnCounter == 0 && c.turnOwner == 0
    {
      c := new DescentTurnOrder(nPlayers);
      c.reactivePlayers := reactivePlayers;
      c.monsterActingNext := monsterActingNext;
      c.monsterGroupActingNext := monsterGroupActingNext;
      c.heroPlayerActingNext := heroPlayerActingNext;
    }
  }
}
