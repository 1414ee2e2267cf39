// One tick of ww/ww.py: Actor.step and its overrides, and Stage.step, which
// walks the actor list by position while the steps remove actors from it and
// append new ones. A removal at or before the current position makes the
// walk skip the actor that slides into it; actors appended during the tick
// get their turn in the same tick.

module Turns {
  import opened Grid
  import opened Neighbourhood
  import opened Protocol
  import opened Monsters
  import opened Players

  // ---------------------------------------------------------------- the walk's measure

  /**
   * An actor that may append a new actor during its own turn counts twice,
   * any other once. Appended actors never append, so each turn strictly
   * lowers the weight still to walk.
   */
  function Weight(k: Kind): (n: nat)
    ensures n >= 1 && (n == 1 <==> !Appender(k))
  {
    if Appender(k) then 2 else 1
  }

  /** The weight of the handles in s. */
  ghost function Pot(arena: seq<Actor>, s: seq<Handle>): nat
    requires forall i :: 0 <= i < |s| ==> s[i] < |arena|
  {
    if s == [] then 0 else Weight(arena[s[0]].kind) + Pot(arena, s[1..])
  }

  /** The weight of the actor list from position i on. */
  ghost function Rest(w: World, i: nat): nat
    requires Valid(w)
  {
    if i < |w.actors| then Pot(w.arena, w.actors[i..]) else 0
  }

  lemma {:induction false} PotAppend(arena: seq<Actor>, s: seq<Handle>, t: seq<Handle>)
    requires forall i :: 0 <= i < |s| ==> s[i] < |arena|
    requires forall i :: 0 <= i < |t| ==> t[i] < |arena|
    ensures Pot(arena, s + t) == Pot(arena, s) + Pot(arena, t)
  {
    if s == [] {
      assert s + t == t;
    } else {
      assert (s + t)[1..] == s[1..] + t;
      PotAppend(arena, s[1..], t);
    }
  }

  /** Weights only read the kinds, which no turn changes. */
  lemma {:induction false} PotFrame(w: World, w': World, s: seq<Handle>)
    requires Extends(w, w') && forall i :: 0 <= i < |s| ==> s[i] < |w.arena|
    ensures Pot(w'.arena, s) == Pot(w.arena, s)
  {
    if s != [] {
      PotFrame(w, w', s[1..]);
    }
  }

  /** Actors that never append weigh one each. */
  lemma {:induction false} PotLight(arena: seq<Actor>, s: seq<Handle>)
    requires forall i :: 0 <= i < |s| ==> s[i] < |arena| && !Appender(arena[s[i]].kind)
    ensures Pot(arena, s) == |s|
  {
    if s != [] {
      PotLight(arena, s[1..]);
    }
  }

  lemma RestSplit(w: World, i: nat)
    requires Valid(w) && i < |w.actors|
    ensures Rest(w, i) == Weight(w.arena[w.actors[i]].kind) + Rest(w, i + 1)
  {
    var s := w.actors[i..];
    assert s[0] == w.actors[i] && s[1..] == w.actors[i + 1..];
    assert Pot(w.arena, s) == Weight(w.arena[s[0]].kind) + Pot(w.arena, s[1..]);
    if i + 1 == |w.actors| {
      assert s[1..] == [];
    }
  }

  /** The weight still to walk from any position rose by at most n. */
  ghost predicate Bounded(w: World, w': World, n: nat)
    requires Valid(w) && Valid(w')
  {
    Extends(w, w') && w'.width == w.width && w'.height == w.height &&
    forall j: nat :: Rest(w', j) <= Rest(w, j) + n
  }

  lemma BoundedTrans(w1: World, w2: World, w3: World, a: nat, b: nat)
    requires Valid(w1) && Valid(w2) && Valid(w3) && Bounded(w1, w2, a) && Bounded(w2, w3, b)
    ensures Bounded(w1, w3, a + b)
  {
    forall j: nat ensures Rest(w3, j) <= Rest(w1, j) + a + b {
      assert Rest(w3, j) <= Rest(w2, j) + b;
    }
  }

  /** Appending n light actors raises the weight from any position by at most n. */
  lemma GrowsBounded(w: World, w': World, n: nat)
    requires Valid(w) && Valid(w') && Grows(w, w', n)
    ensures Bounded(w, w', n)
  {
    var m := |w.actors|;
    var added := w'.actors[m..];
    assert w'.actors == w.actors + added by { assert w'.actors[..m] == w.actors; }
    forall j: nat ensures Rest(w', j) <= Rest(w, j) + n {
      if j < |w'.actors| {
        if j < m {
          assert w'.actors[j..] == w.actors[j..] + added;
          PotAppend(w'.arena, w.actors[j..], added);
          PotFrame(w, w', w.actors[j..]);
          PotLight(w'.arena, added);
        } else {
          assert w'.actors[j..] == added[j - m..];
          PotLight(w'.arena, added[j - m..]);
        }
      }
    }
  }

  /** Taking one actor off the list raises the weight from no position. */
  lemma RemoveBounded(w: World, r: Handle)
    requires Valid(w)
    ensures Bounded(w, RemoveActor(w, r), 0)
  {
    var w' := RemoveActor(w, r);
    if r in w.actors {
      forall j: nat ensures Rest(w', j) <= Rest(w, j) {
        RemoveAt(w, r, j);
      }
    }
  }

  lemma RemoveAt(w: World, r: Handle, j: nat)
    requires Valid(w) && r in w.actors
    ensures Rest(RemoveActor(w, r), j) <= Rest(w, j)
  {
    var w' := RemoveActor(w, r);
    var k := IndexOf(w.actors, r);
    assert w'.actors == w.actors[..k] + w.actors[k + 1..];
    if j < |w'.actors| {
      PotRemoveAt(w.arena, w.actors, k, j);
    }
  }

  /** Dropping the handle at position k lowers the weight of every suffix. */
  lemma PotRemoveAt(arena: seq<Actor>, s: seq<Handle>, k: nat, j: nat)
    requires forall i :: 0 <= i < |s| ==> s[i] < |arena|
    requires k < |s| && j < |s| - 1
    ensures Pot(arena, (s[..k] + s[k + 1..])[j..]) <= Pot(arena, s[j..])
  {
    var t := s[..k] + s[k + 1..];
    if j <= k {
      assert t[j..] == s[j..k] + s[k + 1..];
      PotDrop(arena, s[j..k], s[k..]);
      assert s[j..] == s[j..k] + s[k..];
    } else {
      assert t[j..] == s[j + 1..];
      assert s[j..][1..] == s[j + 1..];
    }
  }

  /** Dropping the first handle of the second half lowers the weight. */
  lemma PotDrop(arena: seq<Actor>, s: seq<Handle>, t: seq<Handle>)
    requires forall i :: 0 <= i < |s| ==> s[i] < |arena|
    requires forall i :: 0 <= i < |t| ==> t[i] < |arena|
    requires t != []
    ensures Pot(arena, s + t[1..]) <= Pot(arena, s + t)
  {
    PotAppend(arena, s, t[1..]);
    PotAppend(arena, s, t);
  }

  /** Rest reads only the arena and the list. */
  lemma BoundedSameList(w: World, w1: World, w2: World, n: nat)
    requires Valid(w) && Valid(w1) && Valid(w2) && Bounded(w, w1, n)
    requires w2.arena == w1.arena && w2.actors == w1.actors && w2.width == w1.width && w2.height == w1.height
    ensures Bounded(w, w2, n)
  {
    forall j: nat ensures Rest(w2, j) <= Rest(w, j) + n {
      assert Rest(w2, j) == Rest(w1, j);
    }
  }

  // ---------------------------------------------------------------- steps

  /**
   * Actor.step, which the box family keeps and every monster's step starts
   * with: ask the actor's own is_dead, and a dead actor takes itself off the
   * list. For a monster that question may kill it, evolve it or kill boxes.
   */
  function ActorStep(w: World, h: Handle): (r: World)
    requires Valid(w) && h < |w.arena|
    ensures Valid(r) && Bounded(w, r, Weight(w.arena[h].kind) - 1)
    ensures r.player1 == w.player1 && r.player2 == w.player2 && r.isWinner == w.isWinner
    ensures !IsMonster(w.arena[h].kind) ==>
              r.arena == w.arena && r.actors == if w.arena[h].dead then RemoveFirst(w.actors, h) else w.actors
    ensures r.arena[h] == w.arena[h].(dead := r.arena[h].dead)
    ensures r.arena == IsDead(w, h).0.arena
    ensures r.actors == if IsDead(w, h).1 then RemoveFirst(IsDead(w, h).0.actors, h) else IsDead(w, h).0.actors
  {
    var (w1, dead) := IsDead(w, h);
    GrowsBounded(w, w1, Weight(w.arena[h].kind) - 1);
    if dead then
      RemoveBounded(w1, h);
      BoundedTrans(w, w1, RemoveActor(w1, h), Weight(w.arena[h].kind) - 1, 0);
      RemoveActor(w1, h)
    else w1
  }

  /** Removing a player takes at most one actor off the list. */
  lemma RemovePlayerBounded(w: World, p: Handle)
    requires Valid(w) && p < |w.arena|
    ensures Bounded(w, RemovePlayer(w, p), 0)
  {
    var w1 := RemovePlayer(w, p);
    var n := w.arena[p].playerNumber;
    var slot := if n == 1 then w.player1 else if n == 2 then w.player2 else None;
    if slot.Some? {
      RemoveBounded(w, slot.value);
      BoundedSameList(w, RemoveActor(w, slot.value), w1, 0);
    } else {
      GrowsRefl(w);
      GrowsBounded(w, w, 0);
      BoundedSameList(w, w, w1, 0);
    }
  }

  /**
   * The rest of KeyboardPlayer.step: a pending key of the player's block
   * makes the player ask itself to move that way; the pending key is then
   * forgotten, whether it moved the player or not.
   */
  function PlayerAct(w: World, h: Handle): (r: World)
    requires Valid(w) && h < |w.arena| && w.arena[h].kind.Player?
    ensures Valid(r) && Grows(w, r, 1)
    ensures r.arena[h].lastEvent.None?
    ensures w.arena[h].lastEvent.None? ==> r == w
    ensures w.arena[h].lastEvent.Some? && KeyDirection(w.arena[h].playerNumber, w.arena[h].lastEvent.value).None? ==>
              r.actors == w.actors && r.arena == w.arena[h := w.arena[h].(lastEvent := None)]
    ensures var a := w.arena[h];
            a.lastEvent.Some? && KeyDirection(a.playerNumber, a.lastEvent.value).Some? ==>
              var d := KeyDirection(a.playerNumber, a.lastEvent.value).value;
              var moved := Move(w, h, h, d.0, d.1).1;
              r.arena[h].x == a.x + (if moved then d.0 else 0) && r.arena[h].y == a.y + (if moved then d.1 else 0)
  {
    var a := w.arena[h];
    if a.lastEvent.None? then GrowsRefl(w); w
    else
      var d := KeyDirection(a.playerNumber, a.lastEvent.value);
      var w1 := if d.Some? then PusherLands(w, h, d.value.0, d.value.1); Move(w, h, h, d.value.0, d.value.1).0 else w;
      assert Grows(w, w1, 1) by {
        if d.None? { GrowsRefl(w); }
      }
      var w2 := SetActor(w1, h, w1.arena[h].(lastEvent := None));
      GrowsTrans(w, w1, w2, 1, 0);
      w2
  }

  /**
   * KeyboardPlayer.step: a dead player empties its slot and takes the slot's
   * occupant off the list, and then, without stopping, acts on its pending key.
   */
  function PlayerStep(w: World, h: Handle): (r: World)
    requires Valid(w) && h < |w.arena| && w.arena[h].kind.Player?
    ensures Valid(r) && Bounded(w, r, 1)
    ensures r.isWinner == w.isWinner
    ensures r.arena[h].lastEvent.None?
    ensures w.arena[h].dead && w.arena[h].playerNumber == 1 ==> r.player1.None?
    ensures w.arena[h].dead && w.arena[h].playerNumber == 2 ==> r.player2.None?
    ensures !w.arena[h].dead ==> r.player1 == w.player1 && r.player2 == w.player2
    ensures r == PlayerAct(if w.arena[h].dead then RemovePlayer(w, h) else w, h)
    ensures var a := w.arena[h];
            a.lastEvent.Some? && KeyDirection(a.playerNumber, a.lastEvent.value).Some? ==>
              var d := KeyDirection(a.playerNumber, a.lastEvent.value).value;
              (r.arena[h].x == a.x && r.arena[h].y == a.y) ||
              (r.arena[h].x == a.x + d.0 && r.arena[h].y == a.y + d.1)
    ensures w.arena[h].lastEvent.None? ==> r.arena == w.arena
  {
    var w1 := if w.arena[h].dead then RemovePlayer(w, h) else w;
    assert Bounded(w, w1, 0) by {
      if w.arena[h].dead { RemovePlayerBounded(w, h); } else { GrowsRefl(w); GrowsBounded(w, w, 0); }
    }
    var r := PlayerAct(w1, h);
    GrowsBounded(w1, r, 1);
    BoundedTrans(w, w1, r, 0, 1);
    r
  }

  /**
   * The second half of Monster.step: the cadence, and a monster whose count
   * wrapped and that is not stuck to an ice box asks itself to move along
   * its heading.
   */
  function MonsterAct(w: World, h: Handle): (r: World)
    requires Valid(w) && h < |w.arena| && IsMonster(w.arena[h].kind)
    ensures Valid(r) && Grows(w, r, 0)
    ensures var a := w.arena[h];
            a.frozen || (a.delayCount + 1) % a.delay != 0 ==>
              r.arena[h] == a.(delayCount := (a.delayCount + 1) % a.delay)
    ensures var a := w.arena[h];
            !a.frozen && (a.delayCount + 1) % a.delay == 0 ==>
              r == Move(Delay(w, h).0, h, h, a.dx, a.dy).0
  {
    var (w1, act) := Delay(w, h);
    if !act || w1.arena[h].frozen then w1
    else
      assert !w.arena[h].frozen && (w.arena[h].delayCount + 1) % w.arena[h].delay == 0;
      var r := Move(w1, h, h, w1.arena[h].dx, w1.arena[h].dy).0;
      GrowsTrans(w, w1, r, 0, 0);
      r
  }

  /**
   * The act half of a monster's turn, for every monster but the shy one:
   * unfrozen and with its count wrapping, it steps along its heading exactly
   * when the cell that heading points to is on the stage and is empty or
   * holds a player, and otherwise keeps its cell.
   */
  lemma MonsterTurnLands(w: World, h: Handle)
    requires Valid(w) && h < |w.arena| && IsMonster(w.arena[h].kind) && !w.arena[h].kind.ShyMonster?
    requires !w.arena[h].frozen && (w.arena[h].delayCount + 1) % w.arena[h].delay == 0
    ensures var a := w.arena[h];
            var f := GetActor(w, a.x + a.dx, a.y + a.dy);
            var goes := InBounds(w, a.x + a.dx, a.y + a.dy) && (f.None? || w.arena[f.value].kind.Player?);
            var r := MonsterAct(w, h);
            r.arena[h].x == a.x + (if goes then a.dx else 0) && r.arena[h].y == a.y + (if goes then a.dy else 0)
  {
    hide MonsterAct, Move, MonsterMove, ShyMove, Delay, GetActor, Answers, Grows;
    var a := w.arena[h];
    var w1 := Delay(w, h).0;
    assert SamePlaces(w, w1);
    GetActorFrame(w, w1, a.x + a.dx, a.y + a.dy);
    MonsterOwnMove(w1, h, a.dx, a.dy);
    MoveIsMonsterMove(w1, h, h, a.dx, a.dy);
    var f := GetActor(w, a.x + a.dx, a.y + a.dy);
    assert w1.arena[h].x == a.x && w1.arena[h].y == a.y && w1.arena[h].dx == a.dx && w1.arena[h].dy == a.dy;
    assert f.Some? ==> w1.arena[f.value].kind == w.arena[f.value].kind;
    assert MonsterAct(w, h) == MonsterMove(w1, h, h, a.dx, a.dy).0;
  }

  /**
   * Monster.step: the death test of Actor.step, then the cadence and the
   * move. A monster that died in this turn still delays and moves.
   */
  function MonsterStep(w: World, h: Handle): (r: World)
    requires Valid(w) && h < |w.arena| && IsMonster(w.arena[h].kind)
    ensures Valid(r) && Bounded(w, r, Weight(w.arena[h].kind) - 1)
    ensures r.player1 == w.player1 && r.player2 == w.player2 && r.isWinner == w.isWinner
    ensures r == MonsterAct(ActorStep(w, h), h)
  {
    var w1 := ActorStep(w, h);
    var r := MonsterAct(w1, h);
    GrowsBounded(w1, r, 0);
    BoundedTrans(w, w1, r, Weight(w.arena[h].kind) - 1, 0);
    r
  }

  /**
   * A monster holds its place through its own turn unless its count wraps
   * and it is not frozen, and a monster that was frozen stays frozen.
   */
  lemma HeldMonsterStays(w: World, h: Handle)
    requires Valid(w) && h < |w.arena| && IsMonster(w.arena[h].kind)
    requires w.arena[h].frozen || (w.arena[h].delayCount + 1) % w.arena[h].delay != 0
    ensures MonsterStep(w, h).arena[h].x == w.arena[h].x
    ensures MonsterStep(w, h).arena[h].y == w.arena[h].y
    ensures MonsterStep(w, h).arena[h].frozen == w.arena[h].frozen
  {
    var w1 := ActorStep(w, h);
    var a := w1.arena[h];
    assert a.delayCount == w.arena[h].delayCount && a.delay == w.arena[h].delay && a.frozen == w.arena[h].frozen;
    ActHeld(w1, h);
  }

  lemma ActHeld(v: World, h: Handle)
    requires Valid(v) && h < |v.arena| && IsMonster(v.arena[h].kind)
    requires v.arena[h].frozen || (v.arena[h].delayCount + 1) % v.arena[h].delay != 0
    ensures MonsterAct(v, h).arena[h].x == v.arena[h].x && MonsterAct(v, h).arena[h].y == v.arena[h].y
    ensures MonsterAct(v, h).arena[h].frozen == v.arena[h].frozen
  {
  }

  /** Shy_Monster.step: a monster's step, then the run-away. */
  function ShyStep(w: World, h: Handle): (r: World)
    requires Valid(w) && h < |w.arena| && w.arena[h].kind.ShyMonster?
    ensures Valid(r) && Bounded(w, r, 1)
    ensures r.player1 == w.player1 && r.player2 == w.player2
    ensures r == RunAway(MonsterStep(w, h), h)
  {
    var w1 := MonsterStep(w, h);
    var w2 := RunAway(w1, h);
    GrowsBounded(w1, w2, 0);
    BoundedTrans(w, w1, w2, 1, 0);
    w2
  }

  /** Stalker_Monster.step: a monster's step, then the stalk. */
  function StalkerStep(w: World, h: Handle): (r: World)
    requires Valid(w) && h < |w.arena| && w.arena[h].kind.StalkerMonster?
    ensures Valid(r) && Bounded(w, r, 0)
    ensures r.player1 == w.player1 && r.player2 == w.player2
    ensures r.player1.Some? ==>
              r.arena[h].dx == Sign(r.arena[r.player1.value].x - r.arena[h].x) &&
              r.arena[h].dy == Sign(r.arena[r.player1.value].y - r.arena[h].y)
    ensures r.player1.None? ==> r.arena[h].dx == 0 && r.arena[h].dy == 0
  {
    var w1 := MonsterStep(w, h);
    var w2 := Stalk(w1, h);
    GrowsBounded(w1, w2, 0);
    BoundedTrans(w, w1, w2, 0, 0);
    w2
  }

  /** a.step() for the actor a at position i of the list, dispatched on its class. */
  function StepActor(w: World, i: nat): (r: World)
    requires Valid(w) && i < |w.actors|
    ensures Valid(r) && Rest(r, i + 1) < Rest(w, i)
    ensures r.width == w.width && r.height == w.height && Extends(w, r)
  {
    var h := w.actors[i];
    RestSplit(w, i);
    match w.arena[h].kind
    case Player => PlayerStep(w, h)
    case ShyMonster => ShyStep(w, h)
    case StalkerMonster => StalkerStep(w, h)
    case Monster => MonsterStep(w, h)
    case FireMonster => MonsterStep(w, h)
    case EarthMonster => MonsterStep(w, h)
    case IceMonster => MonsterStep(w, h)
    case _ => ActorStep(w, h)
  }

  /**
   * The loop of Stage.step from position i: step the actor found there, move
   * to the next position, and stop once the position is past the end of the
   * list as it is then.
   */
  function StepFrom(w: World, i: nat): (r: World)
    requires Valid(w)
    ensures Valid(r) && r.width == w.width && r.height == w.height && Extends(w, r)
    decreases Rest(w, i)
  {
    if i < |w.actors| then
      var w1 := StepActor(w, i);
      var r := StepFrom(w1, i + 1);
      r
    else w
  }

  /**
   * The walk meets a dead box, wall or fire wall at position i: it takes
   * itself off the list, and the walk goes on from position i + 1 of the
   * shortened list, so the actor that moved into position i is skipped.
   */
  lemma StepSkipsDeadBox(w: World, i: nat)
    requires Valid(w) && i < |w.actors|
    requires IsBox(w.arena[w.actors[i]].kind) && w.arena[w.actors[i]].dead
    ensures StepFrom(w, i) == StepFrom(RemoveActor(w, w.actors[i]), i + 1)
  {
    hide PlayerStep, ShyStep, StalkerStep, MonsterStep, ActorStep, IsDead, Rest, Bounded;
    var h := w.actors[i];
    assert StepActor(w, i) == ActorStep(w, h);
  }

  /** The walk passes a live box, wall or fire wall without changing anything. */
  lemma StepPassesLiveBox(w: World, i: nat)
    requires Valid(w) && i < |w.actors|
    requires IsBox(w.arena[w.actors[i]].kind) && !w.arena[w.actors[i]].dead
    ensures StepFrom(w, i) == StepFrom(w, i + 1)
  {
    hide PlayerStep, ShyStep, StalkerStep, MonsterStep, ActorStep, IsDead, Rest, Bounded;
    var h := w.actors[i];
    assert StepActor(w, i) == ActorStep(w, h);
  }

  /** Stage.step. */
  function Step(w: World): (r: World)
    requires Valid(w)
    ensures Valid(r) && r.width == w.width && r.height == w.height && Extends(w, r)
  {
    StepFrom(w, 0)
  }
}
