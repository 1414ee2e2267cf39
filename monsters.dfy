// The monster state machine of ww/ww.py: the cadence counter (Actor.delay),
// death by enclosure (Monster.is_dead) and the kind-specific deaths that
// evolve the monster into a box, the shy monster's run-away and the
// stalker's heading.

module Monsters {
  import opened Grid
  import opened Neighbourhood

  // ---------------------------------------------------------------- cadence

  /** Actor.delay: count modulo the period and act when the count wraps to 0. */
  function Delay(w: World, h: Handle): (r: (World, bool))
    requires Valid(w) && h < |w.arena| && w.arena[h].delay > 0
    ensures Valid(r.0) && Grows(w, r.0, 0) && r.0.actors == w.actors && |r.0.arena| == |w.arena|
    ensures r.0.player1 == w.player1 && r.0.player2 == w.player2 && r.0.isWinner == w.isWinner
    ensures r.0.width == w.width && r.0.height == w.height
    ensures r.0.arena[h] == w.arena[h].(delayCount := r.0.arena[h].delayCount)
    ensures forall j :: 0 <= j < |w.arena| && j != h ==> r.0.arena[j] == w.arena[j]
    ensures r.0.arena[h].delayCount == (w.arena[h].delayCount + 1) % w.arena[h].delay
    ensures r.1 <==> r.0.arena[h].delayCount == 0
  {
    var c := (w.arena[h].delayCount + 1) % w.arena[h].delay;
    (SetActor(w, h, w.arena[h].(delayCount := c)), c == 0)
  }

  /** The stage after actor h has delayed n times. */
  ghost function Delayed(w: World, h: Handle, n: nat): (r: World)
    requires Valid(w) && h < |w.arena| && w.arena[h].delay > 0
    ensures Valid(r) && |r.arena| == |w.arena| && r.arena[h].delay == w.arena[h].delay
  {
    if n == 0 then w else Delay(Delayed(w, h, n - 1), h).0
  }

  /** Euclidean division is unique: a quotient and remainder in range are x / d and x % d. */
  lemma DivModUnique(x: int, d: int, q: int, m: int)
    requires d > 0 && 0 <= m < d && x == q * d + m
    ensures x / d == q && x % d == m
  {
    var q', m' := x / d, x % d;
    assert (q - q') * d == m' - m;
    if q > q' {
      MulAtLeast(q - q', d);
    } else if q < q' {
      MulAtLeast(q' - q, d);
    }
  }

  lemma {:induction false} MulAtLeast(k: int, d: int)
    requires k >= 1 && d > 0
    ensures k * d >= d
    decreases k
  {
    if k > 1 {
      MulAtLeast(k - 1, d);
      assert k * d == (k - 1) * d + d;
    }
  }

  lemma ModSucc(a: int, d: int)
    requires a >= 0 && d > 0
    ensures (a % d + 1) % d == (a + 1) % d
  {
    var q, m := a / d, a % d;
    if m + 1 < d {
      DivModUnique(a + 1, d, q, m + 1);
      DivModUnique(m + 1, d, 0, m + 1);
    } else {
      assert a + 1 == (q + 1) * d;
      DivModUnique(a + 1, d, q + 1, 0);
      DivModUnique(m + 1, d, 1, 0);
    }
  }

  /**
   * The cadence: after n delays from a count c the count is (c + n) mod the
   * period, so starting from 0 an actor acts on exactly every period-th tick.
   */
  lemma {:induction false} Cadence(w: World, h: Handle, n: nat)
    requires Valid(w) && h < |w.arena| && 0 <= w.arena[h].delayCount < w.arena[h].delay
    ensures Delayed(w, h, n).arena[h].delayCount == (w.arena[h].delayCount + n) % w.arena[h].delay
  {
    if n == 0 {
      DivModUnique(w.arena[h].delayCount, w.arena[h].delay, 0, w.arena[h].delayCount);
    } else {
      var c, d := w.arena[h].delayCount, w.arena[h].delay;
      var wp := Delayed(w, h, n - 1);
      Cadence(w, h, n - 1);
      assert wp.arena[h].delayCount == (c + n - 1) % d;
      ModSucc(c + n - 1, d);
    }
  }

  // ---------------------------------------------------------------- deaths

  /**
   * Monster.is_dead: a monster survives while it is not dead yet and some
   * in-bounds cell of its 3x3 block (its own included) is empty or holds a
   * player; otherwise it is killed and the answer is yes.
   */
  function MonsterIsDead(w: World, h: Handle): (r: (World, bool))
    requires Valid(w) && h < |w.arena|
    ensures !r.1 <==> !w.arena[h].dead &&
                      exists ox, oy :: -1 <= ox <= 1 && -1 <= oy <= 1 && Open(w, h, ox, oy)
    ensures r.1 ==> r.0 == Kill(w, h) && r.0.arena[h].dead
    ensures !r.1 ==> r.0 == w
  {
    HasRoomMeans(w, h);
    if !w.arena[h].dead && HasRoom(w, h) then (w, false) else (Kill(w, h), true)
  }

  /** The class a dying Fire, Earth, Ice or Shy monster turns into. */
  function EvolveTarget(k: Kind): (t: Kind)
    requires k.FireMonster? || k.EarthMonster? || k.IceMonster? || k.ShyMonster?
    ensures !Appender(t)
    ensures t.FireWall? <==> k.FireMonster?
    ensures t.Wall? <==> k.EarthMonster?
    ensures t.IceBox? <==> k.IceMonster?
    ensures t.StalkerMonster? <==> k.ShyMonster?
  {
    match k
    case FireMonster => FireWall
    case EarthMonster => Wall
    case IceMonster => IceBox
    case ShyMonster => StalkerMonster
  }

  /**
   * Fire_Monster.is_dead, Earth_Monster.is_dead and Ice_Monster.is_dead: when
   * the monster dies it leaves a new actor of its target class, with delay 5,
   * on its cell at the end of the actor list.
   */
  function EvolvingIsDead(w: World, h: Handle): (r: (World, bool))
    requires Valid(w) && h < |w.arena|
    requires w.arena[h].kind.FireMonster? || w.arena[h].kind.EarthMonster? || w.arena[h].kind.IceMonster?
    ensures Valid(r.0) && Grows(w, r.0, 1)
    ensures r.1 == MonsterIsDead(w, h).1
    ensures !r.1 ==> r.0 == w
    ensures r.1 ==> r.0.actors == w.actors + [|w.arena|] &&
                    r.0.arena == w.arena[h := w.arena[h].(dead := true)] +
                                 [NewActor(EvolveTarget(w.arena[h].kind), w.arena[h].x, w.arena[h].y, 5)]
    ensures r.0.player1 == w.player1 && r.0.player2 == w.player2 && r.0.isWinner == w.isWinner
  {
    var (w1, dead) := MonsterIsDead(w, h);
    if dead then
      var w2 := EvolveInto(w1, h, EvolveTarget(w.arena[h].kind));
      assert w2.actors[..|w.actors|] == w.actors;
      (w2, true)
    else GrowsRefl(w); (w, false)
  }

  /** w' is w with some boxes marked dead and nothing else changed. */
  ghost predicate OnlyBoxesDie(w: World, w': World) {
    w'.width == w.width && w'.height == w.height && w'.actors == w.actors &&
    w'.player1 == w.player1 && w'.player2 == w.player2 && w'.isWinner == w.isWinner &&
    |w'.arena| == |w.arena| &&
    forall j :: 0 <= j < |w.arena| ==>
      w'.arena[j] == w.arena[j] || (IsBox(w.arena[j].kind) && w'.arena[j] == w.arena[j].(dead := true))
  }

  lemma OnlyBoxesDieRefl(w: World)
    ensures OnlyBoxesDie(w, w)
  {
  }

  lemma OnlyBoxesDieTrans(w1: World, w2: World, w3: World)
    requires OnlyBoxesDie(w1, w2) && OnlyBoxesDie(w2, w3)
    ensures OnlyBoxesDie(w1, w3)
  {
    forall j | 0 <= j < |w1.arena|
      ensures w3.arena[j] == w1.arena[j] || (IsBox(w1.arena[j].kind) && w3.arena[j] == w1.arena[j].(dead := true))
    {
      assert w2.arena[j].kind == w1.arena[j].kind;
    }
  }

  /** Killing a box only kills a box. */
  lemma KillBoxOnly(w: World, b: Handle)
    requires Valid(w) && b < |w.arena| && IsBox(w.arena[b].kind)
    ensures OnlyBoxesDie(w, Kill(w, b))
  {
  }

  /** Killing boxes leaves the places, the list and the kinds alone. */
  lemma OnlyBoxesDieGrows(w: World, w': World)
    requires OnlyBoxesDie(w, w')
    ensures SamePlaces(w, w') && Grows(w, w', 0)
  {
    assert forall j :: 0 <= j < |w.arena| ==> w'.arena[j].kind == w.arena[j].kind;
    assert w'.actors[..|w.actors|] == w.actors;
  }

  /** get_actor finds actor j on one of the nine cells around (cx, cy). */
  predicate Targeted(w: World, cx: int, cy: int, j: Handle)
    requires Valid(w)
  {
    var cells := ScanCells(cx, cy);
    exists k :: 0 <= k < 9 && GetActor(w, cells[k].0, cells[k].1) == Some(j)
  }

  /** Targeted only reads the actor list and the positions. */
  lemma TargetedFrame(w: World, w': World, cx: int, cy: int)
    requires Valid(w) && Valid(w') && SamePlaces(w, w')
    ensures forall j :: Targeted(w', cx, cy, j) <==> Targeted(w, cx, cy, j)
  {
    var cells := ScanCells(cx, cy);
    forall k | 0 <= k < 9 {
      GetActorFrame(w, w', cells[k].0, cells[k].1);
    }
  }

  /**
   * The stage after the kill loop of Shy_Monster.is_dead around (cx, cy):
   * every box that get_actor finds on one of the nine cells is dead. Killing
   * a box moves nothing, so the look-ups of later cells see the same actors
   * as the first; the loop itself is Stage.KillBoxesAround.
   */
  function KillBoxesAround(w: World, cx: int, cy: int): (r: World)
    requires Valid(w)
    ensures Valid(r) && OnlyBoxesDie(w, r)
    ensures forall j :: 0 <= j < |w.arena| ==>
              r.arena[j] == if IsBox(w.arena[j].kind) && Targeted(w, cx, cy, j) then w.arena[j].(dead := true) else w.arena[j]
  {
    var arena := seq(|w.arena|, j requires 0 <= j < |w.arena| =>
      if IsBox(w.arena[j].kind) && Targeted(w, cx, cy, j) then w.arena[j].(dead := true) else w.arena[j]);
    w.(arena := arena)
  }

  /** Killing boxes does not change what get_actor finds. */
  lemma FoundAfterKill(w: World, w1: World, x: int, y: int, b: Handle)
    requires Valid(w) && Valid(w1) && OnlyBoxesDie(w, w1) && GetActor(w, x, y) == Some(b)
    ensures GetActor(w1, x, y) == Some(b) && w1.arena[b].kind == w.arena[b].kind
  {
    OnlyBoxesDieGrows(w, w1);
    GetActorFrame(w, w1, x, y);
  }

  /**
   * Shy_Monster.is_dead: when the monster dies it first kills every box that
   * get_actor finds in its 3x3 block, then turns into a stalker monster.
   */
  function ShyIsDead(w: World, h: Handle): (r: (World, bool))
    requires Valid(w) && h < |w.arena| && w.arena[h].kind.ShyMonster?
    ensures Valid(r.0) && Grows(w, r.0, 1)
    ensures r.1 == MonsterIsDead(w, h).1
    ensures !r.1 ==> r.0 == w
    ensures r.1 ==> r.0 == ShyDies(w, h)
  {
    var (w1, dead) := MonsterIsDead(w, h);
    if dead then (ShyDies(w, h), true)
    else GrowsRefl(w); (w, false)
  }

  /**
   * The death of a shy monster: killed, every box in its 3x3 block killed,
   * and a stalker monster appended on its cell.
   */
  function ShyDies(w: World, h: Handle): (r: World)
    requires Valid(w) && h < |w.arena| && w.arena[h].kind.ShyMonster?
    ensures Valid(r) && Grows(w, r, 1)
    ensures r.actors == w.actors + [|w.arena|] && |r.arena| == |w.arena| + 1
    ensures r.arena[h] == w.arena[h].(dead := true)
    ensures r.arena[|w.arena|] == NewActor(StalkerMonster, w.arena[h].x, w.arena[h].y, 5)
    ensures forall j :: 0 <= j < |w.arena| && j != h ==>
              r.arena[j] == if IsBox(w.arena[j].kind) && Targeted(w, w.arena[h].x, w.arena[h].y, j)
                            then w.arena[j].(dead := true) else w.arena[j]
  {
    var w1 := Kill(w, h);
    TargetedFrame(w, w1, w.arena[h].x, w.arena[h].y);
    var w2 := KillBoxesAround(w1, w.arena[h].x, w.arena[h].y);
    var w3 := EvolveInto(w2, h, StalkerMonster);
    assert w3.actors[..|w.actors|] == w.actors;
    w3
  }

  /** A dying shy monster kills every box get_actor finds on the nine cells around it. */
  lemma ShyDeathKillsBoxes(w: World, h: Handle, ox: int, oy: int)
    requires Valid(w) && h < |w.arena| && w.arena[h].kind.ShyMonster?
    requires -1 <= ox <= 1 && -1 <= oy <= 1
    requires var c := GetActor(w, w.arena[h].x + ox, w.arena[h].y + oy);
             c.Some? && IsBox(w.arena[c.value].kind)
    ensures var c := GetActor(w, w.arena[h].x + ox, w.arena[h].y + oy);
            ShyDies(w, h).arena[c.value].dead
  {
    var k := OffsetIndex(ox, oy);
    assert ScanCells(w.arena[h].x, w.arena[h].y)[k] == (w.arena[h].x + ox, w.arena[h].y + oy);
    assert Targeted(w, w.arena[h].x, w.arena[h].y, GetActor(w, w.arena[h].x + ox, w.arena[h].y + oy).value);
  }

  /**
   * Actor.is_dead dispatched on the actor's class: the evolving monsters,
   * the shy monster, the plain and stalker monsters, and everyone else, who
   * only reports the dead flag.
   */
  function IsDead(w: World, h: Handle): (r: (World, bool))
    requires Valid(w) && h < |w.arena|
    ensures Valid(r.0) && Grows(w, r.0, 1)
    ensures !IsMonster(w.arena[h].kind) ==> r == (w, w.arena[h].dead)
    ensures IsMonster(w.arena[h].kind) ==> r.1 == MonsterIsDead(w, h).1
    ensures !Appender(w.arena[h].kind) ==> Grows(w, r.0, 0)
    ensures r.0.arena[h] == w.arena[h].(dead := r.0.arena[h].dead)
    ensures r.0.player1 == w.player1 && r.0.player2 == w.player2 && r.0.isWinner == w.isWinner
  {
    var k := w.arena[h].kind;
    if k.FireMonster? || k.EarthMonster? || k.IceMonster? then EvolvingIsDead(w, h)
    else if k.ShyMonster? then ShyIsDead(w, h)
    else if IsMonster(k) then var r := MonsterIsDead(w, h); GrowsRefl(w); r
    else GrowsRefl(w); (w, w.arena[h].dead)
  }

  /**
   * The evolving deaths are not idempotent: asking a monster that is already
   * dead again appends one more actor every time.
   */
  lemma DeadEvolvesAgain(w: World, h: Handle)
    requires Valid(w) && h < |w.arena| && w.arena[h].dead
    requires w.arena[h].kind.FireMonster? || w.arena[h].kind.EarthMonster? ||
             w.arena[h].kind.IceMonster? || w.arena[h].kind.ShyMonster?
    ensures IsDead(w, h).1 && IsDead(w, h).0.actors == w.actors + [|w.arena|]
    ensures IsDead(IsDead(w, h).0, h).1 &&
            |IsDead(IsDead(w, h).0, h).0.actors| == |w.actors| + 2
  {
    var w1 := IsDead(w, h).0;
    assert w1.arena[h].dead && w1.arena[h].kind == w.arena[h].kind;
  }

  // ---------------------------------------------------------------- headings

  /** Only the heading of actor h differs between w and w'. */
  ghost predicate HeadingOnly(w: World, w': World, h: Handle)
    requires h < |w.arena|
  {
    w'.width == w.width && w'.height == w.height && w'.actors == w.actors &&
    w'.player1 == w.player1 && w'.player2 == w.player2 && w'.isWinner == w.isWinner &&
    |w'.arena| == |w.arena| && w'.arena[h] == w.arena[h].(dx := w'.arena[h].dx, dy := w'.arena[h].dy) &&
    forall j :: 0 <= j < |w.arena| && j != h ==> w'.arena[j] == w.arena[j]
  }

  /**
   * Shy_Monster.run_away: when the first player the scan meets stands on a
   * diagonal, head for the first empty cell of the scan (or stop, (0, 0),
   * when there is none); otherwise keep the heading.
   */
  function RunAway(w: World, h: Handle): (r: World)
    requires Valid(w) && h < |w.arena|
    ensures Valid(r) && Grows(w, r, 0) && HeadingOnly(w, r, h)
    ensures var p := Surroundings(w, h, PlayerProbe);
            !(p.0 != 0 && p.1 != 0) ==> r == w
    ensures var p := Surroundings(w, h, PlayerProbe);
            p.0 != 0 && p.1 != 0 ==> (r.arena[h].dx, r.arena[h].dy) == Surroundings(w, h, EmptyProbe)
    ensures (r.arena[h].dx, r.arena[h].dy) != (w.arena[h].dx, w.arena[h].dy) ==>
              exists ox, oy :: ox != 0 && oy != 0 && -1 <= ox <= 1 && -1 <= oy <= 1 &&
                               Sensed(w, h, PlayerProbe, ox, oy)
    ensures r != w && (r.arena[h].dx, r.arena[h].dy) != (0, 0) ==>
              Sensed(w, h, EmptyProbe, r.arena[h].dx, r.arena[h].dy)
  {
    var (px, py) := Surroundings(w, h, PlayerProbe);
    if px != 0 && py != 0 then
      var (ex, ey) := Surroundings(w, h, EmptyProbe);
      SetHeading(w, h, ex, ey)
    else GrowsRefl(w); w
  }

  /** The sign of v: -1, 0 or 1. */
  function Sign(v: int): (s: int)
    ensures s == 0 <==> v == 0
    ensures s == 1 <==> v > 0
    ensures s == -1 <==> v < 0
  {
    if v == 0 then 0 else if v < 0 then -1 else 1
  }

  /**
   * Stalker_Monster.stalk: aim at the player get_players names, one step in
   * each axis towards it; stop when get_players names nobody. get_players
   * answers with the first slot twice, so only player 1 is ever followed.
   */
  function Stalk(w: World, h: Handle): (r: World)
    requires Valid(w) && h < |w.arena|
    ensures Valid(r) && Grows(w, r, 0) && HeadingOnly(w, r, h)
    ensures w.player1.None? ==> r.arena[h].dx == 0 && r.arena[h].dy == 0
    ensures w.player1.Some? ==>
              r.arena[h].dx == Sign(w.arena[w.player1.value].x - w.arena[h].x) &&
              r.arena[h].dy == Sign(w.arena[w.player1.value].y - w.arena[h].y)
  {
    // Both halves of the pair are the first slot, so "both empty" is "the
    // first is empty" and the branch that follows player 2 alone never runs.
    var (p1, _) := GetPlayers(w);
    if p1.None? then SetHeading(w, h, 0, 0)
    else
      var (px, py) := (w.arena[p1.value].x, w.arena[p1.value].y);
      SetHeading(w, h, Sign(px - w.arena[h].x), Sign(py - w.arena[h].y))
  }

  /**
   * Following the heading stalk sets never overshoots: each coordinate gets
   * strictly closer to player 1 unless it is already level with it.
   */
  lemma StalkCloses(w: World, h: Handle)
    requires Valid(w) && h < |w.arena| && w.player1.Some?
    ensures var r := Stalk(w, h);
            var (px, py) := (w.arena[w.player1.value].x, w.arena[w.player1.value].y);
            var (x, y) := (w.arena[h].x, w.arena[h].y);
            Abs(px - (x + r.arena[h].dx)) == (if px == x then 0 else Abs(px - x) - 1) &&
            Abs(py - (y + r.arena[h].dy)) == (if py == y then 0 else Abs(py - y) - 1)
  {
  }

  function Abs(v: int): (a: nat)
    ensures a == v || a == -v
  {
    if v < 0 then -v else v
  }
}
