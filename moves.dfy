// The move-request protocol of ww/ww.py: `a.move(other, dx, dy)` is other
// asking a to move by (dx, dy); it answers whether a moved. Players and boxes
// first ask whoever stands in the cell they would enter (infront_moveable),
// so a push travels depth-first down a chain of boxes and each link commits
// only once the link in front of it has answered yes. Every move returns the
// new stage with the answer.

module Protocol {
  import opened Grid
  import opened Neighbourhood

  /** Cells left between coordinate c and the edge it is heading for (0 when not heading anywhere). */
  function Reach(c: int, d: int, size: int): nat {
    if d > 0 then (if c < size then size - c else 0)
    else if d < 0 then (if c >= 0 then c + 1 else 0)
    else 0
  }

  /** How far a push along (dx, dy) from (x, y) can still travel: bounds every chain of pushes. */
  function Dist(w: World, x: int, y: int, dx: int, dy: int): nat {
    Reach(x, dx, w.width) + Reach(y, dy, w.height)
  }

  /** Each link of a chain stands one step further along the push, so the chain is finite. */
  lemma DistShrinks(w: World, x: int, y: int, dx: int, dy: int)
    requires (dx, dy) != (0, 0) && InBounds(w, x + dx, y + dy)
    ensures Dist(w, x + dx, y + dy, dx, dy) < Dist(w, x, y, dx, dy)
  {
  }

  /** Coordinate p lies at c or beyond it in direction d. */
  predicate AheadOn(p: int, c: int, d: int) {
    if d > 0 then p >= c else if d < 0 then p <= c else p == c
  }

  /**
   * Cell (px, py) lies in the quadrant a push along (dx, dy) from (cx, cy)
   * can reach: every cell a chain of pushes from (cx, cy) visits.
   */
  predicate Ahead(px: int, py: int, cx: int, cy: int, dx: int, dy: int) {
    AheadOn(px, cx, dx) && AheadOn(py, cy, dy)
  }

  /**
   * A push along (dx, dy) that starts at (cx, cy) on behalf of other
   * leaves every actor outside the quadrant ahead where it was, and their
   * frozen lists as they were, except the requester's when the push failed.
   */
  ghost predicate Kept(w: World, r: World, cx: int, cy: int, dx: int, dy: int, other: Handle, ok: bool)
    requires |w.arena| <= |r.arena|
  {
    forall k :: 0 <= k < |w.arena| && !Ahead(w.arena[k].x, w.arena[k].y, cx, cy, dx, dy) ==>
      r.arena[k].x == w.arena[k].x && r.arena[k].y == w.arena[k].y &&
      (k != other || ok ==> r.arena[k].frozenMonsters == w.arena[k].frozenMonsters)
  }

  /**
   * The requester's frozen list is as it was, or, after a refusal by a
   * monster h, has h appended.
   */
  ghost predicate RequesterList(w: World, r: World, h: Handle, other: Handle, ok: bool)
    requires h < |w.arena| <= |r.arena| && other < |w.arena|
  {
    r.arena[other].frozenMonsters == w.arena[other].frozenMonsters ||
    (!ok && IsMonster(w.arena[h].kind) && r.arena[other].frozenMonsters == w.arena[other].frozenMonsters + [h])
  }

  /**
   * h's frozen list is as it was, or, after a refusal, has gained the
   * monster get_actor finds at (nx, ny), which froze to h instead of moving.
   */
  ghost predicate GainsAhead(w: World, r: World, h: Handle, nx: int, ny: int, ok: bool)
    requires Valid(w) && h < |w.arena| <= |r.arena|
  {
    r.arena[h].frozenMonsters == w.arena[h].frozenMonsters ||
    (!ok && GetActor(w, nx, ny).Some? && IsMonster(w.arena[GetActor(w, nx, ny).value].kind) &&
     r.arena[h].frozenMonsters == w.arena[h].frozenMonsters + [GetActor(w, nx, ny).value])
  }

  /** other stands right behind h for a push along (dx, dy): where infront_moveable asks from. */
  predicate Behind(w: World, other: Handle, h: Handle, dx: int, dy: int)
    requires other < |w.arena| && h < |w.arena|
  {
    w.arena[other].x + dx == w.arena[h].x && w.arena[other].y + dy == w.arena[h].y
  }

  /**
   * What every answer to other's request h.move(other, dx, dy) keeps: a
   * refusal moves nobody and lets no monster go; a pusher that
   * says yes has moved by exactly (dx, dy); a push (or any request from
   * another actor) moves nothing outside the quadrant ahead of h, and the
   * frozen list of a requester standing right behind h grows only by h
   * refusing as a monster.
   */
  ghost predicate Answers(w: World, r: (World, bool), h: Handle, other: Handle, dx: int, dy: int)
    requires h < |w.arena| && other < |w.arena|
  {
    |w.arena| <= |r.0.arena| &&
    (!r.1 ==> Still(w, r.0) && NoThaw(w, r.0)) &&
    (r.1 && Pushes(w.arena[h].kind) ==> r.0.arena[h].x == w.arena[h].x + dx && r.0.arena[h].y == w.arena[h].y + dy) &&
    (Pushes(w.arena[h].kind) || other != h ==> Kept(w, r.0, w.arena[h].x, w.arena[h].y, dx, dy, other, r.1)) &&
    (other != h && (IsMonster(w.arena[h].kind) || Behind(w, other, h, dx, dy)) ==> RequesterList(w, r.0, h, other, r.1))
  }

  lemma AnswersRefuse(w: World, h: Handle, other: Handle, dx: int, dy: int)
    requires h < |w.arena| && other < |w.arena|
    ensures Answers(w, (w, false), h, other, dx, dy)
  {
  }

  /** A step that moves nobody and touches no frozen list answers for anyone who does not push. */
  lemma ShapeAnswers(w: World, r: World, ok: bool, h: Handle, other: Handle, dx: int, dy: int)
    requires h < |w.arena| && other < |w.arena| && SameShape(w, r)
    requires !ok ==> NoThaw(w, r)
    requires ok ==> !Pushes(w.arena[h].kind)
    ensures Answers(w, (r, ok), h, other, dx, dy)
  {
  }

  /** The chain ahead refused: the pusher h answers no, having moved nobody behind the chain. */
  lemma ChainRefused(w: World, w1: World, h: Handle, other: Handle, dx: int, dy: int)
    requires h < |w.arena| <= |w1.arena| && other < |w.arena| && (dx, dy) != (0, 0) && Pushes(w.arena[h].kind)
    requires Kept(w, w1, w.arena[h].x + dx, w.arena[h].y + dy, dx, dy, h, false) && Still(w, w1) && NoThaw(w, w1)
    ensures Answers(w, (w1, false), h, other, dx, dy)
  {
    var cx, cy := w.arena[h].x, w.arena[h].y;
    assert !Ahead(cx, cy, cx + dx, cy + dy, dx, dy);
    forall k | 0 <= k < |w.arena| && !Ahead(w.arena[k].x, w.arena[k].y, cx, cy, dx, dy)
      ensures w1.arena[k].x == w.arena[k].x && w1.arena[k].y == w.arena[k].y &&
              w1.arena[k].frozenMonsters == w.arena[k].frozenMonsters
    {
      assert !Ahead(w.arena[k].x, w.arena[k].y, cx + dx, cy + dy, dx, dy);
    }
    if other != h && Behind(w, other, h, dx, dy) {
      assert !Ahead(w.arena[other].x, w.arena[other].y, cx + dx, cy + dy, dx, dy);
    }
  }

  /** The chain ahead made room: the pusher h steps by (dx, dy) and answers yes. */
  lemma ChainCommits(w: World, w1: World, h: Handle, other: Handle, dx: int, dy: int)
    requires Valid(w1) && h < |w.arena| <= |w1.arena| && other < |w.arena| && (dx, dy) != (0, 0) && Pushes(w.arena[h].kind)
    requires Grows(w, w1, 1) && Kept(w, w1, w.arena[h].x + dx, w.arena[h].y + dy, dx, dy, h, true)
    ensures Grows(w, Shift(w1, h, dx, dy), 1) && Answers(w, (Shift(w1, h, dx, dy), true), h, other, dx, dy)
    ensures Shift(w1, h, dx, dy).arena[h].frozenMonsters == w.arena[h].frozenMonsters
  {
    var cx, cy := w.arena[h].x, w.arena[h].y;
    var w2 := Shift(w1, h, dx, dy);
    GrowsTrans(w, w1, w2, 1, 0);
    assert !Ahead(cx, cy, cx + dx, cy + dy, dx, dy);
    forall k | 0 <= k < |w.arena| && !Ahead(w.arena[k].x, w.arena[k].y, cx, cy, dx, dy)
      ensures w2.arena[k].x == w.arena[k].x && w2.arena[k].y == w.arena[k].y &&
              w2.arena[k].frozenMonsters == w.arena[k].frozenMonsters
    {
      assert !Ahead(w.arena[k].x, w.arena[k].y, cx + dx, cy + dy, dx, dy);
    }
    if other != h && Behind(w, other, h, dx, dy) {
      assert !Ahead(w.arena[other].x, w.arena[other].y, cx + dx, cy + dy, dx, dy);
    }
  }

  /**
   * a.move(other, dx, dy), dispatched on a's class. Players, boxes and ice
   * boxes push along (dx, dy), which therefore must not be (0, 0): such a box
   * would find itself in front of itself and ask itself again forever.
   */
  function Move(w: World, h: Handle, other: Handle, dx: int, dy: int): (r: (World, bool))
    requires Valid(w) && h < |w.arena| && other < |w.arena|
    requires Pushes(w.arena[h].kind) ==> (dx, dy) != (0, 0)
    ensures Valid(r.0)
    ensures Grows(w, r.0, if IsMonster(w.arena[h].kind) || w.arena[h].kind.Wall? then 0 else 1)
    ensures Answers(w, r, h, other, dx, dy)
    ensures w.arena[h].kind.Wall? ==> r == (w, false)
    decreases Dist(w, w.arena[h].x, w.arena[h].y, dx, dy), 3
  {
    match w.arena[h].kind
    case Player => PlayerMove(w, h, other, dx, dy)
    case Box => Push(w, h, other, dx, dy)
    case IceBox => IceBoxMove(w, h, other, dx, dy)
    case Wall => GrowsRefl(w); AnswersRefuse(w, h, other, dx, dy); (w, false)
    case FireWall => FireWallMove(w, h, other, dx, dy)
    case ShyMonster => ShyMove(w, h, other, dx, dy)
    case _ => MonsterMove(w, h, other, dx, dy)
  }

  /** Every monster but the shy one answers a request with Monster.move. */
  lemma MoveIsMonsterMove(w: World, h: Handle, other: Handle, dx: int, dy: int)
    requires Valid(w) && h < |w.arena| && other < |w.arena| && IsMonster(w.arena[h].kind) && !w.arena[h].kind.ShyMonster?
    ensures Move(w, h, other, dx, dy) == MonsterMove(w, h, other, dx, dy)
  {
    hide MonsterMove, ShyMove, PlayerMove, Push, IceBoxMove, FireWallMove, Answers, Grows;
  }

  /**
   * A player or a box asking itself to move ends exactly (dx, dy) further
   * when told yes, and on the cell it was on when told no.
   */
  lemma PusherLands(w: World, h: Handle, dx: int, dy: int)
    requires Valid(w) && h < |w.arena| && Pushes(w.arena[h].kind) && (dx, dy) != (0, 0)
    ensures var m := Move(w, h, h, dx, dy);
            m.0.arena[h].x == w.arena[h].x + (if m.1 then dx else 0) &&
            m.0.arena[h].y == w.arena[h].y + (if m.1 then dy else 0)
  {
    hide Move, Kept, RequesterList, NoThaw, Grows;
    var m := Move(w, h, h, dx, dy);
    if !m.1 {
      StillStays(w, m.0, h);
    }
  }

  /**
   * Actor.infront_moveable, asked by h for the cell (nx, ny) just ahead of
   * it: ask whoever get_actor finds there to move by (dx, dy) on h's behalf;
   * an empty cell answers yes. Only a monster found there can add itself to
   * h's frozen list, and only when it refuses.
   */
  function Infront(w: World, h: Handle, nx: int, ny: int, dx: int, dy: int): (r: (World, bool))
    requires Valid(w) && h < |w.arena| && (dx, dy) != (0, 0)
    requires w.arena[h].x + dx == nx && w.arena[h].y + dy == ny
    ensures Valid(r.0) && Grows(w, r.0, 1)
    ensures !r.1 ==> Still(w, r.0) && NoThaw(w, r.0)
    ensures Kept(w, r.0, nx, ny, dx, dy, h, r.1)
    ensures GainsAhead(w, r.0, h, nx, ny, r.1)
    ensures GetActor(w, nx, ny).None? ==> r == (w, true)
    decreases Dist(w, nx, ny, dx, dy), 4
  {
    match GetActor(w, nx, ny)
    case None => GrowsRefl(w); (w, true)
    case Some(j) =>
      assert IsAt(w, j, nx, ny) && j != h;
      Move(w, j, h, dx, dy)
  }

  /**
   * Player.move: refuse anyone but the player itself, otherwise push like a
   * box.
   */
  function PlayerMove(w: World, h: Handle, other: Handle, dx: int, dy: int): (r: (World, bool))
    requires Valid(w) && h < |w.arena| && other < |w.arena| && (dx, dy) != (0, 0)
    requires w.arena[h].kind.Player?
    ensures Valid(r.0) && Grows(w, r.0, 1) && Answers(w, r, h, other, dx, dy)
    ensures other != h ==> r == (w, false)
    ensures !InBounds(w, w.arena[h].x + dx, w.arena[h].y + dy) ==> r == (w, false)
    decreases Dist(w, w.arena[h].x, w.arena[h].y, dx, dy), 1
  {
    if other != h then GrowsRefl(w); AnswersRefuse(w, h, other, dx, dy); (w, false)
    else Push(w, h, other, dx, dy)
  }

  /**
   * Box.move, and the part of Player.move after its check of the requester:
   * refuse a target off the stage, otherwise step once the actor in front
   * has moved. The pusher's own frozen list is kept when it moves, and can
   * only gain the monster right in front when it does not.
   */
  function Push(w: World, h: Handle, other: Handle, dx: int, dy: int): (r: (World, bool))
    requires Valid(w) && h < |w.arena| && other < |w.arena| && (dx, dy) != (0, 0)
    requires Pushes(w.arena[h].kind)
    ensures Valid(r.0) && Grows(w, r.0, 1) && Answers(w, r, h, other, dx, dy)
    ensures !InBounds(w, w.arena[h].x + dx, w.arena[h].y + dy) ==> r == (w, false)
    ensures r.1 ==> r.0.arena[h].frozenMonsters == w.arena[h].frozenMonsters
    ensures GainsAhead(w, r.0, h, w.arena[h].x + dx, w.arena[h].y + dy, r.1)
    decreases Dist(w, w.arena[h].x, w.arena[h].y, dx, dy), 0
  {
    var nx, ny := w.arena[h].x + dx, w.arena[h].y + dy;
    if !InBounds(w, nx, ny) then GrowsRefl(w); AnswersRefuse(w, h, other, dx, dy); (w, false)
    else
      DistShrinks(w, w.arena[h].x, w.arena[h].y, dx, dy);
      var r1 := Infront(w, h, nx, ny, dx, dy);
      ChainAnswers(w, r1, h, other, dx, dy);
      StepIfRoom(r1, h, dx, dy)
  }

  /** The end of a push: the pusher steps by (dx, dy) if the chain ahead made room. */
  function StepIfRoom(r1: (World, bool), h: Handle, dx: int, dy: int): (World, bool)
    requires Valid(r1.0) && h < |r1.0.arena|
  {
    if r1.1 then (Shift(r1.0, h, dx, dy), true) else r1
  }

  /**
   * Whatever the chain ahead answered, the pusher's answer keeps what
   * Answers demands, and its own frozen list changes only as GainsAhead says.
   */
  lemma ChainAnswers(w: World, r1: (World, bool), h: Handle, other: Handle, dx: int, dy: int)
    requires Valid(w) && Valid(r1.0) && h < |w.arena| <= |r1.0.arena| && other < |w.arena| && (dx, dy) != (0, 0)
    requires Pushes(w.arena[h].kind) && Grows(w, r1.0, 1) && (!r1.1 ==> Still(w, r1.0) && NoThaw(w, r1.0))
    requires Kept(w, r1.0, w.arena[h].x + dx, w.arena[h].y + dy, dx, dy, h, r1.1)
    requires GainsAhead(w, r1.0, h, w.arena[h].x + dx, w.arena[h].y + dy, r1.1)
    ensures var r := StepIfRoom(r1, h, dx, dy);
            Valid(r.0) && Grows(w, r.0, 1) && Answers(w, r, h, other, dx, dy) &&
            (r.1 ==> r.0.arena[h].frozenMonsters == w.arena[h].frozenMonsters) &&
            GainsAhead(w, r.0, h, w.arena[h].x + dx, w.arena[h].y + dy, r.1)
  {
    if r1.1 {
      ChainCommits(w, r1.0, h, other, dx, dy);
    } else {
      ChainRefused(w, r1.0, h, other, dx, dy);
    }
  }

  /**
   * Ice_Box.move: a box move that, when it succeeds, empties the box's frozen
   * list and lets go of every monster that was on it. When it fails no
   * monster is let go, and the list is kept or has gained the monster right
   * in front, which froze to the box instead of moving.
   */
  function IceBoxMove(w: World, h: Handle, other: Handle, dx: int, dy: int): (r: (World, bool))
    requires Valid(w) && h < |w.arena| && other < |w.arena| && (dx, dy) != (0, 0)
    requires w.arena[h].kind.IceBox?
    ensures Valid(r.0) && Grows(w, r.0, 1) && Answers(w, r, h, other, dx, dy)
    ensures r.1 ==> r.0.arena[h].frozenMonsters == [] &&
                    forall m :: m in w.arena[h].frozenMonsters ==> !r.0.arena[m].frozen
    ensures !r.1 ==> r == Push(w, h, other, dx, dy)
    decreases Dist(w, w.arena[h].x, w.arena[h].y, dx, dy), 2
  {
    var r := Push(w, h, other, dx, dy);
    if r.1 then
      ReleaseAnswers(w, r, h, other, dx, dy);
      (Release(r.0, h), true)
    else r
  }

  /**
   * An ice box that could not move keeps its list, or has gained the monster
   * right in front, which froze to it instead of moving.
   */
  lemma IceBoxRefused(w: World, h: Handle, other: Handle, dx: int, dy: int)
    requires Valid(w) && h < |w.arena| && other < |w.arena| && (dx, dy) != (0, 0)
    requires w.arena[h].kind.IceBox?
    ensures var r := IceBoxMove(w, h, other, dx, dy);
            !r.1 ==> GainsAhead(w, r.0, h, w.arena[h].x + dx, w.arena[h].y + dy, false)
  {
    hide Push, Release, Answers;
    var p := Push(w, h, other, dx, dy);
    assert GainsAhead(w, p.0, h, w.arena[h].x + dx, w.arena[h].y + dy, p.1);
  }

  /**
   * Letting go of the ice box's monsters after a successful push keeps the
   * push's answer, empties the box's list and unfreezes every monster on it.
   */
  lemma ReleaseAnswers(w: World, r: (World, bool), h: Handle, other: Handle, dx: int, dy: int)
    requires Valid(r.0) && h < |w.arena| <= |r.0.arena| && other < |w.arena| && Pushes(w.arena[h].kind)
    requires r.1 && Grows(w, r.0, 1) && Answers(w, r, h, other, dx, dy)
    requires r.0.arena[h].frozenMonsters == w.arena[h].frozenMonsters
    ensures Grows(w, Release(r.0, h), 1) && Answers(w, (Release(r.0, h), true), h, other, dx, dy)
    ensures Release(r.0, h).arena[h].frozenMonsters == []
    ensures forall m :: m in w.arena[h].frozenMonsters ==> !Release(r.0, h).arena[m].frozen
  {
    hide Release;
    var w1 := r.0;
    var w2 := Release(w1, h);
    GrowsTrans(w, w1, w2, 1, 0);
    forall k | 0 <= k < |w1.arena| && k != h
      ensures w2.arena[k].x == w1.arena[k].x && w2.arena[k].y == w1.arena[k].y &&
              w2.arena[k].frozenMonsters == w1.arena[k].frozenMonsters
    {
      ReleaseThaws(w1, h, k);
    }
    forall m | m in w.arena[h].frozenMonsters ensures !w2.arena[m].frozen {
      ReleaseThaws(w1, h, m);
    }
    ReleaseThaws(w1, h, h);
  }

  /**
   * What the release loop of Ice_Box.move leaves of actor j's record: the ice
   * box's own list emptied, every monster that was on it unfrozen.
   */
  function Thaw(a: Actor, j: Handle, ice: Handle, stuck: seq<Handle>): Actor {
    var a1 := if j == ice then a.(frozenMonsters := []) else a;
    if j in stuck then a1.(frozen := false) else a1
  }

  /** The release loop of Ice_Box.move: pop the last monster off the list and unfreeze it, until the list is empty. */
  function Release(w: World, ice: Handle): (r: World)
    requires Valid(w) && ice < |w.arena|
    ensures Valid(r) && Grows(w, r, 0) && |r.arena| == |w.arena|
    ensures r.actors == w.actors && r.width == w.width && r.height == w.height
    ensures r.player1 == w.player1 && r.player2 == w.player2 && r.isWinner == w.isWinner
    decreases |w.arena[ice].frozenMonsters|
  {
    var stuck := w.arena[ice].frozenMonsters;
    if stuck == [] then GrowsRefl(w); w
    else
      var w1 := SetActor(w, ice, w.arena[ice].(frozenMonsters := stuck[..|stuck| - 1]));
      var w2 := SetFrozen(w1, stuck[|stuck| - 1], false);
      var r := Release(w2, ice);
      GrowsTrans(w, w1, w2, 0, 0);
      GrowsTrans(w, w2, r, 0, 0);
      r
  }

  /**
   * The release loop leaves every record as Thaw says: the ice box's list
   * emptied and every monster that was on it unfrozen, nothing else touched.
   */
  lemma {:induction false} ReleaseThaws(w: World, ice: Handle, j: Handle)
    requires Valid(w) && ice < |w.arena| && j < |w.arena|
    ensures Release(w, ice).arena[j] == Thaw(w.arena[j], j, ice, w.arena[ice].frozenMonsters)
    decreases |w.arena[ice].frozenMonsters|
  {
    var stuck := w.arena[ice].frozenMonsters;
    if stuck != [] {
      var m := stuck[|stuck| - 1];
      var rest := stuck[..|stuck| - 1];
      assert stuck == rest + [m];
      var w1 := SetActor(w, ice, w.arena[ice].(frozenMonsters := rest));
      var w2 := SetFrozen(w1, m, false);
      var a1 := if j == ice then w.arena[j].(frozenMonsters := rest) else w.arena[j];
      assert w1.arena[j] == a1;
      assert w2.arena[j] == if j == m then a1.(frozen := false) else a1;
      assert w2.arena[ice].frozenMonsters == rest;
      ReleaseThaws(w2, ice, j);
      ThawStep(w.arena[j], j, ice, rest, m);
    }
  }

  /** One turn of the release loop, read on a single record: popping m and unfreezing it is the first step of Thaw. */
  lemma ThawStep(a: Actor, j: Handle, ice: Handle, rest: seq<Handle>, m: Handle)
    ensures var a1 := if j == ice then a.(frozenMonsters := rest) else a;
            Thaw(if j == m then a1.(frozen := false) else a1, j, ice, rest) == Thaw(a, j, ice, rest + [m])
  {
    assert j in rest + [m] <==> j in rest || j == m;
  }

  /**
   * Fire_Wall.move: an ice box puts the fire out (the wall dies and the push
   * goes through); anyone else turns into a new fire wall where it stands,
   * and the answer is None, which the pusher reads as no.
   */
  function FireWallMove(w: World, h: Handle, other: Handle, dx: int, dy: int): (r: (World, bool))
    requires Valid(w) && h < |w.arena| && other < |w.arena| && w.arena[h].kind.FireWall?
    ensures Valid(r.0) && Grows(w, r.0, 1) && Answers(w, r, h, other, dx, dy)
    ensures w.arena[other].kind.IceBox? ==> r.1 && r.0 == Kill(w, h)
    ensures !w.arena[other].kind.IceBox? ==>
              !r.1 && r.0.arena[other].dead && r.0.actors == w.actors + [|w.arena|] && |r.0.arena| == |w.arena| + 1 &&
              r.0.arena[|w.arena|] == NewActor(FireWall, w.arena[other].x, w.arena[other].y, 5)
  {
    if w.arena[other].kind.IceBox? then
      var w1 := Kill(w, h);
      GrowsWeaken(w, w1, 0, 1);
      ShapeAnswers(w, w1, true, h, other, dx, dy);
      (w1, true)
    else
      var w1 := EvolveInto(w, other, FireWall);
      ShapeAnswers(w, w1, false, h, other, dx, dy);
      (w1, false)
  }

  /**
   * Monster.move. The heading, not the request, decides where the monster
   * goes. A heading that would leave the stage is reflected on that axis
   * first, whoever asks; then MonsterReply answers the request.
   */
  function MonsterMove(w: World, h: Handle, other: Handle, dx: int, dy: int): (r: (World, bool))
    requires Valid(w) && h < |w.arena| && other < |w.arena| && IsMonster(w.arena[h].kind)
    ensures Valid(r.0) && Grows(w, r.0, 0) && Answers(w, r, h, other, dx, dy)
    ensures other != h ==> !r.1
    ensures w.arena[other].kind.Player? ==> r.0.arena[other].dead
    ensures w.arena[other].kind.IceBox? && !w.arena[h].frozen ==>
              !r.1 && r.0.arena[h].frozen &&
              r.0.arena[other].frozenMonsters == w.arena[other].frozenMonsters + [h]
    ensures r.1 ==> r.0.arena[h].x == w.arena[h].x + dx && r.0.arena[h].y == w.arena[h].y + dy
  {
    var me := w.arena[h];
    var nx, ny := me.x + me.dx, me.y + me.dy;
    var w1 := Reflect(w, h);
    var r := MonsterReply(w1, h, other, nx, ny, !InBounds(w, nx, ny), dx, dy);
    CalmAnswers(w, w1, r, h, other, dx, dy);
    r
  }

  /**
   * A monster moving on its own turn, stated over the stage before the
   * reflection. It looks at the cell (nx, ny) its heading points to, and
   * steps by (dx, dy) exactly when that cell is on the stage and holds
   * nothing or a player; a free monster freezes to an ice box there
   * instead, a fire wall there stops it too, and any other box or monster
   * there turns it back. Otherwise it stays where it was.
   */
  lemma MonsterOwnMove(w: World, h: Handle, dx: int, dy: int)
    requires Valid(w) && h < |w.arena| && IsMonster(w.arena[h].kind)
    ensures var a := w.arena[h];
            var f := GetActor(w, a.x + a.dx, a.y + a.dy);
            var r := MonsterMove(w, h, h, dx, dy);
            (r.1 <==> InBounds(w, a.x + a.dx, a.y + a.dy) && (f.None? || w.arena[f.value].kind.Player?)) &&
            (r.1 ==> r.0.arena[h].x == a.x + dx && r.0.arena[h].y == a.y + dy) &&
            (!r.1 ==> r.0.arena[h].x == a.x && r.0.arena[h].y == a.y)
  {
    hide MonsterMove, Reflect, MonsterReply, MonsterAhead, MonsterMeets, Answers, Calm, NoThaw, GetActor, Still, Kill, Freeze, SetHeading, Shift, Kept, RequesterList, GainsAhead;
    var a := w.arena[h];
    var nx, ny := a.x + a.dx, a.y + a.dy;
    var w1 := Reflect(w, h);
    CalmPlaces(w, w1);
    GetActorFrame(w, w1, nx, ny);
    MonsterOwnAhead(w, h, dx, dy);
    var r := MonsterAhead(w1, h, nx, ny, dx, dy, !InBounds(w, nx, ny));
    var f := GetActor(w, nx, ny);
    assert f.Some? ==> w1.arena[f.value].kind == w.arena[f.value].kind;
    if f.Some? && w.arena[f.value].kind.IceBox? && !a.frozen {
      assert !r.1;
    } else if f.Some? && w.arena[f.value].kind.FireWall? {
      assert !r.1;
    } else {
      assert r == MonsterMeets(w1, h, f, dx, dy, !InBounds(w, nx, ny));
    }
    if !r.1 {
      StillStays(w1, r.0, h);
    }
  }

  /**
   * What a monster moving on its own turn does to itself and to what it
   * meets at (nx, ny): a free monster freezes to an ice box there, joining
   * the end of its list; a fire wall there kills it; a player there is
   * killed; otherwise it keeps its reflected heading, negated when a box or
   * a monster stands there.
   */
  lemma MonsterOwnMeets(w: World, h: Handle, dx: int, dy: int)
    requires Valid(w) && h < |w.arena| && IsMonster(w.arena[h].kind)
    ensures var a := w.arena[h];
            var nx, ny := a.x + a.dx, a.y + a.dy;
            var f := GetActor(w, nx, ny);
            var r := MonsterMove(w, h, h, dx, dy);
            var rx := if InBoundsX(w, nx) then a.dx else -a.dx;
            var ry := if InBoundsY(w, ny) then a.dy else -a.dy;
            var iced := f.Some? && w.arena[f.value].kind.IceBox? && !a.frozen;
            var burnt := f.Some? && w.arena[f.value].kind.FireWall?;
            var reverse := f.Some? && (IsBox(w.arena[f.value].kind) || IsMonster(w.arena[f.value].kind));
            (iced ==> r.0.arena[h].frozen && r.0.arena[f.value].frozenMonsters == w.arena[f.value].frozenMonsters + [h]) &&
            (burnt ==> r.0.arena[h].dead) &&
            (f.Some? && w.arena[f.value].kind.Player? ==> r.0.arena[f.value].dead) &&
            (!iced && !burnt ==> (r.0.arena[h].dx, r.0.arena[h].dy) == (if reverse then (-rx, -ry) else (rx, ry)))
  {
    hide MonsterMove, Reflect, MonsterReply, MonsterAhead, MonsterMeets, Answers, Calm, NoThaw, GetActor, Still, Kill, Freeze, SetHeading, Shift, Kept, RequesterList, GainsAhead;
    var a := w.arena[h];
    var nx, ny := a.x + a.dx, a.y + a.dy;
    var w1 := Reflect(w, h);
    CalmPlaces(w, w1);
    GetActorFrame(w, w1, nx, ny);
    MonsterOwnAhead(w, h, dx, dy);
  }

  /** Asking itself, a monster skips the replies to others and looks ahead from the reflected heading. */
  lemma MonsterOwnAhead(w: World, h: Handle, dx: int, dy: int)
    requires Valid(w) && h < |w.arena| && IsMonster(w.arena[h].kind)
    ensures var nx, ny := w.arena[h].x + w.arena[h].dx, w.arena[h].y + w.arena[h].dy;
            MonsterMove(w, h, h, dx, dy) == MonsterAhead(Reflect(w, h), h, nx, ny, dx, dy, !InBounds(w, nx, ny))
  {
    hide Reflect, MonsterAhead, MonsterMeets, Answers, Calm, NoThaw, GetActor, Still, Grows, Kept, RequesterList;
  }

  /**
   * The first lines of Monster.move: the heading is negated on each axis
   * along which one more step would leave the stage.
   */
  function Reflect(w: World, h: Handle): (r: World)
    requires Valid(w) && h < |w.arena|
    ensures Valid(r) && Calm(w, r, 0) && |r.arena| == |w.arena|
    ensures var a := w.arena[h];
            r.arena[h] == a.(dx := if InBoundsX(w, a.x + a.dx) then a.dx else -a.dx,
                             dy := if InBoundsY(w, a.y + a.dy) then a.dy else -a.dy)
    ensures forall j :: 0 <= j < |w.arena| && j != h ==> r.arena[j] == w.arena[j]
  {
    var a := w.arena[h];
    SetHeading(w, h, if InBoundsX(w, a.x + a.dx) then a.dx else -a.dx,
                     if InBoundsY(w, a.y + a.dy) then a.dy else -a.dy)
  }

  /**
   * On a stage at least two cells wide and high, a monster on the stage
   * heading one cell per axis heads for a cell on the stage once reflected.
   */
  lemma ReflectStaysOnStage(w: World, h: Handle)
    requires Valid(w) && h < |w.arena| && w.width >= 2 && w.height >= 2
    requires InBounds(w, w.arena[h].x, w.arena[h].y)
    requires -1 <= w.arena[h].dx <= 1 && -1 <= w.arena[h].dy <= 1
    ensures var a := Reflect(w, h).arena[h];
            InBounds(w, a.x + a.dx, a.y + a.dy)
  {
  }

  /**
   * The rest of Monster.move, after reflection: a player asking is killed,
   * an ice box asking freezes a free monster to itself, anyone but the
   * monster itself is refused, and the monster itself goes on to look ahead
   * at (nx, ny), the cell its heading pointed to before the reflection.
   */
  function MonsterReply(w: World, h: Handle, other: Handle, nx: int, ny: int, bounce: bool, dx: int, dy: int): (r: (World, bool))
    requires Valid(w) && h < |w.arena| && other < |w.arena| && IsMonster(w.arena[h].kind)
    ensures Valid(r.0) && Grows(w, r.0, 0) && Answers(w, r, h, other, dx, dy)
    ensures other != h ==> !r.1
    ensures w.arena[other].kind.Player? ==> r.0.arena[other].dead
    ensures w.arena[other].kind.IceBox? && !w.arena[h].frozen ==>
              !r.1 && r.0.arena[h].frozen &&
              r.0.arena[other].frozenMonsters == w.arena[other].frozenMonsters + [h]
    ensures r.1 ==> r.0.arena[h].x == w.arena[h].x + dx && r.0.arena[h].y == w.arena[h].y + dy
    ensures other == h ==> r == MonsterAhead(w, h, nx, ny, dx, dy, bounce)
  {
    var w2 := if w.arena[other].kind.Player? then Kill(w, other) else w;
    assert Calm(w, w2, 0) by { if !w.arena[other].kind.Player? { CalmRefl(w); } }
    if w2.arena[other].kind.IceBox? && !w2.arena[h].frozen then
      FreezeAnswers(w, w2, h, other, dx, dy);
      (Freeze(w2, other, h), false)
    else if other != h then GrowsWeaken(w, w2, 0, 0); ShapeAnswers(w, w2, false, h, other, dx, dy); (w2, false)
    else
      var r := MonsterAhead(w2, h, nx, ny, dx, dy, bounce);
      CalmAnswers(w, w2, r, h, h, dx, dy);
      r
  }

  /** A monster refusing by freezing to the ice box that asked it answers as Answers demands. */
  lemma FreezeAnswers(w: World, w2: World, h: Handle, other: Handle, dx: int, dy: int)
    requires Valid(w2) && h < |w.arena| && other < |w.arena| && other != h && IsMonster(w.arena[h].kind)
    requires Calm(w, w2, 0) && w2.arena[other].kind.IceBox?
    ensures Grows(w, Freeze(w2, other, h), 0) && Answers(w, (Freeze(w2, other, h), false), h, other, dx, dy)
  {
    GrowsTrans(w, w2, Freeze(w2, other, h), 0, 0);
  }

  /**
   * A monster's answer to a request keeps what Answers demands across steps
   * before it that moved nobody, let no monster go and changed no kind.
   */
  lemma CalmAnswers(w: World, w1: World, r: (World, bool), h: Handle, other: Handle, dx: int, dy: int)
    requires h < |w.arena| && other < |w.arena| && IsMonster(w.arena[h].kind)
    requires Calm(w, w1, 0) && Grows(w1, r.0, 0) && w1.arena[h].kind == w.arena[h].kind
    requires Answers(w1, r, h, other, dx, dy)
    ensures Grows(w, r.0, 0) && Answers(w, r, h, other, dx, dy)
  {
    GrowsTrans(w, w1, r.0, 0, 0);
    if !r.1 {
      forall k | 0 <= k < |w.arena| ensures Stays(w, r.0, k) {
        assert Stays(w1, r.0, k);
      }
    }
    if other != h {
      assert Kept(w, r.0, w.arena[h].x, w.arena[h].y, dx, dy, other, r.1) by {
        forall k | 0 <= k < |w.arena| && !Ahead(w.arena[k].x, w.arena[k].y, w.arena[h].x, w.arena[h].y, dx, dy)
          ensures r.0.arena[k].x == w.arena[k].x && r.0.arena[k].y == w.arena[k].y &&
                  (k != other || r.1 ==> r.0.arena[k].frozenMonsters == w.arena[k].frozenMonsters)
        {
          assert !Ahead(w1.arena[k].x, w1.arena[k].y, w1.arena[h].x, w1.arena[h].y, dx, dy);
        }
      }
    }
  }

  /**
   * The second half of Monster.move, reached only when the monster asked
   * itself: look at the cell (nx, ny) its heading points to. An ice box
   * freezes a free monster, a fire wall kills it, and otherwise MonsterMeets
   * decides.
   */
  function MonsterAhead(w: World, h: Handle, nx: int, ny: int, dx: int, dy: int, bounce: bool): (r: (World, bool))
    requires Valid(w) && h < |w.arena| && IsMonster(w.arena[h].kind)
    ensures Valid(r.0) && Grows(w, r.0, 0)
    ensures !r.1 ==> Still(w, r.0) && NoThaw(w, r.0)
    ensures r.1 ==> r.0.arena[h].x == w.arena[h].x + dx && r.0.arena[h].y == w.arena[h].y + dy
    ensures var f := GetActor(w, nx, ny);
            f.Some? && w.arena[f.value].kind.IceBox? && !w.arena[h].frozen ==>
              !r.1 && r.0.arena[h].frozen && r.0.arena[f.value].frozenMonsters == w.arena[f.value].frozenMonsters + [h]
    ensures var f := GetActor(w, nx, ny);
            f.Some? && w.arena[f.value].kind.FireWall? ==> !r.1 && r.0.arena[h].dead
    ensures var f := GetActor(w, nx, ny);
            !(f.Some? && w.arena[f.value].kind.IceBox? && !w.arena[h].frozen) &&
            !(f.Some? && w.arena[f.value].kind.FireWall?) ==>
              r == MonsterMeets(w, h, f, dx, dy, bounce)
  {
    var infront := GetActor(w, nx, ny);
    if infront.Some? && w.arena[infront.value].kind.IceBox? && !w.arena[h].frozen then
      (Freeze(w, infront.value, h), false)
    else if infront.Some? && w.arena[infront.value].kind.FireWall? then
      var w1 := Kill(w, h);
      (w1, false)
    else MonsterMeets(w, h, infront, dx, dy, bounce)
  }

  /**
   * The rest of Monster.move once neither ice nor fire stopped the monster:
   * a box or another monster ahead reverses its heading, a player ahead is
   * killed, and it steps by (dx, dy) unless it bounced or reversed.
   */
  function MonsterMeets(w: World, h: Handle, infront: Option<Handle>, dx: int, dy: int, bounce: bool): (r: (World, bool))
    requires Valid(w) && h < |w.arena| && IsMonster(w.arena[h].kind)
    requires infront.Some? ==> infront.value < |w.arena|
    ensures Valid(r.0) && Grows(w, r.0, 0)
    ensures !r.1 ==> Still(w, r.0) && NoThaw(w, r.0)
    ensures r.1 ==> r.0.arena[h].x == w.arena[h].x + dx && r.0.arena[h].y == w.arena[h].y + dy
    ensures var reverse := infront.Some? && (IsBox(w.arena[infront.value].kind) || IsMonster(w.arena[infront.value].kind));
            (r.1 <==> !bounce && !reverse) &&
            r.0.arena[h].dx == (if reverse then -w.arena[h].dx else w.arena[h].dx) &&
            r.0.arena[h].dy == (if reverse then -w.arena[h].dy else w.arena[h].dy)
    ensures infront.Some? && w.arena[infront.value].kind.Player? ==> r.0.arena[infront.value].dead
  {
    var reverse := infront.Some? && (IsBox(w.arena[infront.value].kind) || IsMonster(w.arena[infront.value].kind));
    var w1 := if reverse then SetHeading(w, h, -w.arena[h].dx, -w.arena[h].dy) else w;
    var w2 := if infront.Some? && w1.arena[infront.value].kind.Player? then Kill(w1, infront.value) else w1;
    assert Calm(w, w2, 0) by {
      if reverse { CalmTrans(w, w1, w2, 0, 0); } else { CalmRefl(w); CalmTrans(w, w1, w2, 0, 0); }
    }
    assert w2.arena[h].dx == w1.arena[h].dx && w2.arena[h].dy == w1.arena[h].dy;
    if bounce || reverse then
      assert Still(w, w2) by {
        forall k | 0 <= k < |w.arena| ensures Stays(w, w2, k) { }
      }
      (w2, false)
    else
      var w3 := Shift(w2, h, dx, dy);
      GrowsTrans(w, w2, w3, 0, 0);
      (w3, true)
  }

  /**
   * Shy_Monster.move: an ice box asking freezes a free monster; with no
   * player around it refuses; a player asking is killed and told yes (and
   * so steps onto the monster's cell); it refuses to head into a player;
   * otherwise it moves as a monster.
   */
  function ShyMove(w: World, h: Handle, other: Handle, dx: int, dy: int): (r: (World, bool))
    requires Valid(w) && h < |w.arena| && other < |w.arena| && w.arena[h].kind.ShyMonster?
    ensures Valid(r.0) && Grows(w, r.0, 0) && Answers(w, r, h, other, dx, dy)
    ensures w.arena[other].kind.IceBox? && !w.arena[h].frozen ==>
              !r.1 && r.0.arena[h].frozen &&
              r.0.arena[other].frozenMonsters == w.arena[other].frozenMonsters + [h]
    ensures w.arena[other].kind.Player? && Surroundings(w, h, PlayerProbe) != (0, 0) ==>
              r.1 && r.0 == Kill(w, other)
    ensures !(w.arena[other].kind.IceBox? && !w.arena[h].frozen) && Surroundings(w, h, PlayerProbe) == (0, 0) ==>
              r == (w, false)
    ensures !(w.arena[other].kind.IceBox? && !w.arena[h].frozen) && !w.arena[other].kind.Player? &&
            PlayerAt(w, w.arena[h].x + w.arena[h].dx, w.arena[h].y + w.arena[h].dy) ==>
              r == (w, false)
    ensures !(w.arena[other].kind.IceBox? && !w.arena[h].frozen) && !w.arena[other].kind.Player? &&
            Surroundings(w, h, PlayerProbe) != (0, 0) &&
            !PlayerAt(w, w.arena[h].x + w.arena[h].dx, w.arena[h].y + w.arena[h].dy) ==>
              r == MonsterMove(w, h, other, dx, dy)
  {
    if w.arena[other].kind.IceBox? && !w.arena[h].frozen then
      CalmRefl(w);
      FreezeAnswers(w, w, h, other, dx, dy);
      (Freeze(w, other, h), false)
    else if Surroundings(w, h, PlayerProbe) == (0, 0) then GrowsRefl(w); AnswersRefuse(w, h, other, dx, dy); (w, false)
    else if w.arena[other].kind.Player? then
      var w1 := Kill(w, other);
      ShapeAnswers(w, w1, true, h, other, dx, dy);
      (w1, true)
    else if PlayerAt(w, w.arena[h].x + w.arena[h].dx, w.arena[h].y + w.arena[h].dy) then
      GrowsRefl(w); AnswersRefuse(w, h, other, dx, dy); (w, false)
    else MonsterMove(w, h, other, dx, dy)
  }
}
