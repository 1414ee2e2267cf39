// The objects of ww/ww.py as they change in place: one Stage object holding
// the actor records, the ordered actor list and the player slots. Every
// method updates these fields step by step as the Python methods do, with
// the loops of the source, and is proved to leave the stage exactly as the
// value-level definition of the same operation says, so every property
// proved about those definitions holds of the object.

module Engine {
  import opened Grid
  import Neighbourhood
  import Protocol
  import Monsters
  import Players
  import Turns

  class Stage {
    const width: int
    const height: int
    /** Every actor object ever constructed, named by its handle. */
    var arena: seq<Actor>
    /** Stage._actors. */
    var actors: seq<Handle>
    var player1: Option<Handle>
    var player2: Option<Handle>
    var isWinner: bool

    /** The stage as a value. */
    function State(): World
      reads this
    {
      World(width, height, arena, actors, player1, player2, isWinner)
    }

    ghost predicate Valid()
      reads this
    {
      Grid.Valid(State())
    }

    /** Stage.__init__, without its screen fields. */
    constructor (width: int, height: int)
      ensures State() == EmptyStage(width, height)
    {
      this.width := width;
      this.height := height;
      arena := [];
      actors := [];
      player1 := None;
      player2 := None;
      isWinner := false;
    }

    // ------------------------------------------------------------ records

    /** Actor.__init__ of the record a: the new object gets the next handle. */
    method Construct(a: Actor) returns (h: Handle)
      requires Valid() && ValidActor(a, |arena| + 1)
      modifies this
      ensures (State(), h) == Spawn(old(State()), a)
    {
      h := |arena|;
      arena := arena + [a];
    }

    /** Overwrite the record of actor h, as an assignment to its fields does. */
    method SetRecord(h: Handle, a: Actor)
      requires Valid() && h < |arena| && ValidActor(a, |arena|)
      modifies this
      ensures State() == SetActor(old(State()), h, a)
    {
      arena := arena[h := a];
    }

    /** Actor.kill. */
    method Kill(h: Handle)
      requires Valid() && h < |arena|
      modifies this
      ensures State() == Grid.Kill(old(State()), h)
    {
      SetRecord(h, arena[h].(dead := true));
    }

    /** Monster.set_frozen. */
    method SetFrozen(m: Handle, b: bool)
      requires Valid() && m < |arena|
      modifies this
      ensures State() == Grid.SetFrozen(old(State()), m, b)
    {
      SetRecord(m, arena[m].(frozen := b));
    }

    /** Actor.move: step by (dx, dy). */
    method Shift(h: Handle, dx: int, dy: int)
      requires Valid() && h < |arena|
      modifies this
      ensures State() == Grid.Shift(old(State()), h, dx, dy)
    {
      SetRecord(h, arena[h].(x := arena[h].x + dx, y := arena[h].y + dy));
    }

    /** An assignment to a monster's _dx and _dy. */
    method SetHeading(h: Handle, dx: int, dy: int)
      requires Valid() && h < |arena|
      modifies this
      ensures State() == Grid.SetHeading(old(State()), h, dx, dy)
    {
      SetRecord(h, arena[h].(dx := dx, dy := dy));
    }

    /** Ice_Box.add_to_frozen(m), then m._is_frozen = True. */
    method Freeze(ice: Handle, m: Handle)
      requires Valid() && ice < |arena| && m < |arena| && ice != m
      modifies this
      ensures State() == Grid.Freeze(old(State()), ice, m)
    {
      SetRecord(ice, arena[ice].(frozenMonsters := arena[ice].frozenMonsters + [m]));
      SetFrozen(m, true);
    }

    /** Actor.delay. */
    method Delay(h: Handle) returns (act: bool)
      requires Valid() && h < |arena| && arena[h].delay > 0
      modifies this
      ensures (State(), act) == Monsters.Delay(old(State()), h)
    {
      var c := (arena[h].delayCount + 1) % arena[h].delay;
      SetRecord(h, arena[h].(delayCount := c));
      act := c == 0;
    }

    /** Actor.evolve_into. */
    method EvolveInto(h: Handle, kind: Kind)
      requires Valid() && h < |arena|
      modifies this
      ensures State() == Grid.EvolveInto(old(State()), h, kind)
    {
      if !arena[h].dead {
        Kill(h);
      }
      var n := Construct(NewActor(kind, arena[h].x, arena[h].y, 5));
      AddActor(n);
    }

    // ------------------------------------------------------------ the list

    /** Stage.add_actor. */
    method AddActor(h: Handle)
      requires Valid() && h < |arena|
      modifies this
      ensures State() == Grid.AddActor(old(State()), h)
    {
      actors := actors + [h];
    }

    /** Stage.remove_actor. */
    method RemoveActor(h: Handle)
      requires Valid()
      modifies this
      ensures State() == Grid.RemoveActor(old(State()), h)
    {
      actors := RemoveFirst(actors, h);
    }

    /** Stage.get_actor: walk the list and answer with the first actor on (x, y). */
    method GetActor(x: int, y: int) returns (r: Option<Handle>)
      requires Valid()
      ensures r == Grid.GetActor(State(), x, y)
    {
      var i := 0;
      while i < |actors|
        invariant 0 <= i <= |actors|
        invariant FirstAt(State(), x, y, i) == FirstAt(State(), x, y, 0)
      {
        if arena[actors[i]].x == x && arena[actors[i]].y == y {
          return Some(actors[i]);
        }
        i := i + 1;
      }
      return None;
    }

    // ------------------------------------------------------------ players

    /** Stage.set_player. */
    method SetPlayer(p1: Handle, p2: Option<Handle>)
      requires Valid() && p1 < |arena| && (p2.Some? ==> p2.value < |arena|)
      modifies this
      ensures State() == Players.SetPlayer(old(State()), p1, p2)
    {
      player1 := Some(p1);
      AddActor(p1);
      player2 := p2;
      if p2.Some? {
        AddActor(p2.value);
      }
    }

    /** Stage.remove_player. */
    method RemovePlayer(p: Handle)
      requires Valid() && p < |arena|
      modifies this
      ensures State() == Players.RemovePlayer(old(State()), p)
    {
      if arena[p].playerNumber == 1 {
        if player1.Some? {
          RemoveActor(player1.value);
        }
        player1 := None;
      } else if arena[p].playerNumber == 2 {
        if player2.Some? {
          RemoveActor(player2.value);
        }
        player2 := None;
      }
    }

    /** Stage.player_event, with KeyboardPlayer.handle_event. */
    method PlayerEvent(k: Key)
      requires Valid()
      modifies this
      ensures State() == Players.PlayerEvent(old(State()), k)
    {
      if player1.Some? && k in Players.PlayerOneKeys() {
        SetRecord(player1.value, arena[player1.value].(lastEvent := Some(k)));
      } else if player2.Some? && k in Players.PlayerTwoKeys() {
        SetRecord(player2.value, arena[player2.value].(lastEvent := Some(k)));
      }
    }

    /** Stage.game_over: with a player slot filled, walk the list looking for a monster. */
    method GameOver() returns (over: bool)
      requires Valid()
      modifies this
      ensures (State(), over) == Players.GameOver(old(State()))
    {
      if player1.Some? || player2.Some? {
        var i := 0;
        while i < |actors|
          invariant 0 <= i <= |actors|
          invariant forall j :: 0 <= j < i ==> !IsMonster(arena[actors[j]].kind)
        {
          if IsMonster(arena[actors[i]].kind) {
            return false;
          }
          i := i + 1;
        }
        isWinner := true;
      }
      return true;
    }

    // ------------------------------------------------------------ ice

    /** The release loop of Ice_Box.move: pop the last monster and unfreeze it until the list is empty. */
    method Release(ice: Handle)
      requires Valid() && ice < |arena|
      modifies this
      ensures State() == Protocol.Release(old(State()), ice)
    {
      while arena[ice].frozenMonsters != []
        invariant Valid() && ice < |arena|
        invariant Protocol.Release(State(), ice) == Protocol.Release(old(State()), ice)
        decreases |arena[ice].frozenMonsters|
      {
        ghost var w := State();
        var stuck := arena[ice].frozenMonsters;
        var m := stuck[|stuck| - 1];
        SetRecord(ice, arena[ice].(frozenMonsters := stuck[..|stuck| - 1]));
        SetFrozen(m, false);
        assert State() == Grid.SetFrozen(SetActor(w, ice, w.arena[ice].(frozenMonsters := stuck[..|stuck| - 1])), m, false);
      }
    }

    // ------------------------------------------------------------ moves

    /** a.move(other, dx, dy), dispatched on the class of actor h. */
    method Move(h: Handle, other: Handle, dx: int, dy: int) returns (ok: bool)
      requires Valid() && h < |arena| && other < |arena|
      requires Pushes(arena[h].kind) ==> (dx, dy) != (0, 0)
      modifies this
      ensures (State(), ok) == Protocol.Move(old(State()), h, other, dx, dy)
      decreases Protocol.Dist(State(), arena[h].x, arena[h].y, dx, dy), 3
    {
      match arena[h].kind
      case Player => ok := PlayerMove(h, other, dx, dy);
      case Box => ok := Push(h, other, dx, dy);
      case IceBox => ok := IceBoxMove(h, other, dx, dy);
      case Wall => ok := false;
      case FireWall => ok := FireWallMove(h, other);
      case ShyMonster => ok := ShyMove(h, other, dx, dy);
      case _ => ok := MonsterMove(h, other, dx, dy);
    }

    /** Actor.infront_moveable: ask whoever stands on (nx, ny) to move by (dx, dy) on h's behalf. */
    method Infront(h: Handle, nx: int, ny: int, dx: int, dy: int) returns (ok: bool)
      requires Valid() && h < |arena| && (dx, dy) != (0, 0)
      requires arena[h].x + dx == nx && arena[h].y + dy == ny
      modifies this
      ensures (State(), ok) == Protocol.Infront(old(State()), h, nx, ny, dx, dy)
      decreases Protocol.Dist(State(), nx, ny, dx, dy), 4
    {
      var infront := GetActor(nx, ny);
      if infront.None? {
        return true;
      }
      assert IsAt(State(), infront.value, nx, ny);
      ok := Move(infront.value, h, dx, dy);
    }

    /** Player.move: refuse a target off the stage, refuse anyone but the player itself, otherwise push. */
    method PlayerMove(h: Handle, other: Handle, dx: int, dy: int) returns (ok: bool)
      requires Valid() && h < |arena| && other < |arena| && (dx, dy) != (0, 0)
      requires arena[h].kind.Player?
      modifies this
      ensures (State(), ok) == Protocol.PlayerMove(old(State()), h, other, dx, dy)
      decreases Protocol.Dist(State(), arena[h].x, arena[h].y, dx, dy), 1
    {
      if !InBounds(State(), arena[h].x + dx, arena[h].y + dy) {
        return false;
      }
      if other != h {
        return false;
      }
      ok := Push(h, other, dx, dy);
    }

    /** Box.move: refuse a target off the stage, otherwise step once the actor in front has moved. */
    method Push(h: Handle, other: Handle, dx: int, dy: int) returns (ok: bool)
      requires Valid() && h < |arena| && other < |arena| && (dx, dy) != (0, 0)
      requires Pushes(arena[h].kind)
      modifies this
      ensures (State(), ok) == Protocol.Push(old(State()), h, other, dx, dy)
      decreases Protocol.Dist(State(), arena[h].x, arena[h].y, dx, dy), 0
    {
      hide Protocol.Push, Protocol.Infront, Protocol.Answers, Protocol.GainsAhead;
      var nx, ny := arena[h].x + dx, arena[h].y + dy;
      if !InBounds(State(), nx, ny) {
        PushUnfold(State(), h, other, dx, dy);
        return false;
      }
      Protocol.DistShrinks(State(), arena[h].x, arena[h].y, dx, dy);
      ok := Infront(h, nx, ny, dx, dy);
      ghost var r1 := (State(), ok);
      if ok {
        Shift(h, dx, dy);
      }
      assert (State(), ok) == Protocol.StepIfRoom(r1, h, dx, dy);
      PushUnfold(old(State()), h, other, dx, dy);
    }

    /** Ice_Box.move: a box move, then the release loop when it succeeded. */
    method IceBoxMove(h: Handle, other: Handle, dx: int, dy: int) returns (ok: bool)
      requires Valid() && h < |arena| && other < |arena| && (dx, dy) != (0, 0)
      requires arena[h].kind.IceBox?
      modifies this
      ensures (State(), ok) == Protocol.IceBoxMove(old(State()), h, other, dx, dy)
      decreases Protocol.Dist(State(), arena[h].x, arena[h].y, dx, dy), 2
    {
      ok := Push(h, other, dx, dy);
      if ok {
        Release(h);
      }
    }

    /** Fire_Wall.move: an ice box puts the fire out, anyone else turns into a fire wall. */
    method FireWallMove(h: Handle, other: Handle) returns (ok: bool)
      requires Valid() && h < |arena| && other < |arena| && arena[h].kind.FireWall?
      modifies this
      ensures forall dx, dy :: (State(), ok) == Protocol.FireWallMove(old(State()), h, other, dx, dy)
    {
      if arena[other].kind.IceBox? {
        Kill(h);
        return true;
      }
      EvolveInto(other, FireWall);
      return false;
    }

    /**
     * Monster.move: reflect the heading on each axis along which the next
     * step would leave the stage, then answer the request.
     */
    method MonsterMove(h: Handle, other: Handle, dx: int, dy: int) returns (ok: bool)
      requires Valid() && h < |arena| && other < |arena| && IsMonster(arena[h].kind)
      modifies this
      ensures (State(), ok) == Protocol.MonsterMove(old(State()), h, other, dx, dy)
    {
      hide Protocol.MonsterMove, Protocol.MonsterReply, Protocol.Reflect, Protocol.Answers, Grid.Calm;
      MonsterMoveUnfold(State(), h, other, dx, dy);
      ReflectUnfold(State(), h);
      var nx, ny := arena[h].x + arena[h].dx, arena[h].y + arena[h].dy;
      var bounce := !InBounds(State(), nx, ny);
      SetHeading(h, if InBoundsX(State(), nx) then arena[h].dx else -arena[h].dx,
                    if InBoundsY(State(), ny) then arena[h].dy else -arena[h].dy);
      ok := MonsterReply(h, other, nx, ny, bounce, dx, dy);
    }

    /** The part of Monster.move that looks at the requester. */
    method MonsterReply(h: Handle, other: Handle, nx: int, ny: int, bounce: bool, dx: int, dy: int) returns (ok: bool)
      requires Valid() && h < |arena| && other < |arena| && IsMonster(arena[h].kind)
      modifies this
      ensures (State(), ok) == Protocol.MonsterReply(old(State()), h, other, nx, ny, bounce, dx, dy)
    {
      if arena[other].kind.Player? {
        Kill(other);
      }
      if arena[other].kind.IceBox? && !arena[h].frozen {
        Freeze(other, h);
        return false;
      }
      if other != h {
        return false;
      }
      ok := MonsterAhead(h, nx, ny, dx, dy, bounce);
    }

    /** The part of Monster.move that looks at the cell ahead: ice and fire. */
    method MonsterAhead(h: Handle, nx: int, ny: int, dx: int, dy: int, bounce: bool) returns (ok: bool)
      requires Valid() && h < |arena| && IsMonster(arena[h].kind)
      modifies this
      ensures (State(), ok) == Protocol.MonsterAhead(old(State()), h, nx, ny, dx, dy, bounce)
    {
      var infront := GetActor(nx, ny);
      if infront.Some? && arena[infront.value].kind.IceBox? && !arena[h].frozen {
        Freeze(infront.value, h);
        return false;
      }
      if infront.Some? && arena[infront.value].kind.FireWall? {
        Kill(h);
        return false;
      }
      ok := MonsterMeets(h, infront, dx, dy, bounce);
    }

    /** The end of Monster.move: boxes and monsters ahead reverse it, a player ahead dies. */
    method MonsterMeets(h: Handle, infront: Option<Handle>, dx: int, dy: int, bounce: bool) returns (ok: bool)
      requires Valid() && h < |arena| && IsMonster(arena[h].kind)
      requires infront.Some? ==> infront.value < |arena|
      modifies this
      ensures (State(), ok) == Protocol.MonsterMeets(old(State()), h, infront, dx, dy, bounce)
    {
      var reverse := false;
      if infront.Some? && (IsBox(arena[infront.value].kind) || IsMonster(arena[infront.value].kind)) {
        SetHeading(h, -arena[h].dx, -arena[h].dy);
        reverse := true;
      }
      if infront.Some? && arena[infront.value].kind.Player? {
        Kill(infront.value);
      }
      if bounce || reverse {
        return false;
      }
      Shift(h, dx, dy);
      return true;
    }

    /** Shy_Monster.move. */
    method ShyMove(h: Handle, other: Handle, dx: int, dy: int) returns (ok: bool)
      requires Valid() && h < |arena| && other < |arena| && arena[h].kind.ShyMonster?
      modifies this
      ensures (State(), ok) == Protocol.ShyMove(old(State()), h, other, dx, dy)
    {
      hide Protocol.MonsterMove, Protocol.Answers, Grid.Calm, Grid.Grows, Grid.Freeze, Grid.Kill, Neighbourhood.Surroundings;
      if arena[other].kind.IceBox? && !arena[h].frozen {
        Freeze(other, h);
        return false;
      }
      var near := Surroundings(h, Neighbourhood.PlayerProbe);
      if near == (0, 0) {
        return false;
      }
      if arena[other].kind.Player? {
        Kill(other);
        return true;
      }
      var ahead := GetActor(arena[h].x + arena[h].dx, arena[h].y + arena[h].dy);
      if ahead.Some? && arena[ahead.value].kind.Player? {
        return false;
      }
      ok := MonsterMove(h, other, dx, dy);
    }

    // ------------------------------------------------------------ scans

    /**
     * The loop nest of Monster.is_dead without its verdict: walk the nine
     * offsets, x outer and y inner, and stop at the first cell that is on
     * the stage and empty or holding a player.
     */
    method ScanForRoom(h: Handle) returns (room: bool)
      requires Valid() && h < |arena|
      ensures room <==> exists ox, oy :: -1 <= ox <= 1 && -1 <= oy <= 1 && Neighbourhood.Open(State(), h, ox, oy)
    {
      var ox := -1;
      while ox < 2
        invariant -1 <= ox <= 2
        invariant forall px, py :: -1 <= px < ox && -1 <= py <= 1 ==> !Neighbourhood.Open(State(), h, px, py)
      {
        var oy := -1;
        while oy < 2
          invariant -1 <= oy <= 2
          invariant forall px, py :: -1 <= px < ox && -1 <= py <= 1 ==> !Neighbourhood.Open(State(), h, px, py)
          invariant forall py :: -1 <= py < oy ==> !Neighbourhood.Open(State(), h, ox, py)
        {
          var open := IsOpen(h, ox, oy);
          if open {
            return true;
          }
          oy := oy + 1;
        }
        ox := ox + 1;
      }
      return false;
    }

    /** The test Monster.is_dead makes of one cell: on the stage, and empty or holding a player. */
    method IsOpen(h: Handle, ox: int, oy: int) returns (open: bool)
      requires Valid() && h < |arena|
      ensures open == Neighbourhood.Open(State(), h, ox, oy)
    {
      var cx, cy := arena[h].x + ox, arena[h].y + oy;
      var around := GetActor(cx, cy);
      open := InBounds(State(), cx, cy) && (around.None? || arena[around.value].kind.Player?);
    }

    /** Monster.is_dead. */
    method MonsterIsDead(h: Handle) returns (dead: bool)
      requires Valid() && h < |arena|
      modifies this
      ensures (State(), dead) == Monsters.MonsterIsDead(old(State()), h)
    {
      if !arena[h].dead {
        var room := ScanForRoom(h);
        if room {
          return false;
        }
      }
      Kill(h);
      return true;
    }

    /**
     * Shy_Monster.surroundings: walk the nine offsets, x outer and y inner,
     * and answer with the first whose cell is on the stage and holds what
     * the probe looks for; (0, 0) when there is none.
     */
    method Surroundings(h: Handle, p: Neighbourhood.Probe) returns (r: (int, int))
      requires Valid() && h < |arena|
      ensures r == Neighbourhood.Surroundings(State(), h, p)
    {
      hide Neighbourhood.FirstSensed, Neighbourhood.Sensed;
      ghost var w := State();
      var ox := -1;
      while ox < 2
        invariant -1 <= ox <= 2
        invariant Neighbourhood.FirstSensed(w, h, p, 3 * (ox + 1)) == Neighbourhood.FirstSensed(w, h, p, 0)
      {
        var oy := -1;
        while oy < 2
          invariant -1 <= oy <= 2
          invariant Neighbourhood.FirstSensed(w, h, p, 3 * (ox + 1) + (oy + 1)) == Neighbourhood.FirstSensed(w, h, p, 0)
        {
          Neighbourhood.FirstSensedAt(w, h, p, ox, oy);
          var found := Sense(h, p, ox, oy);
          if found {
            return (ox, oy);
          }
          oy := oy + 1;
        }
        ox := ox + 1;
      }
      return (0, 0);
    }

    /** The test Shy_Monster.surroundings makes of one cell. */
    method Sense(h: Handle, p: Neighbourhood.Probe, ox: int, oy: int) returns (found: bool)
      requires Valid() && h < |arena|
      ensures found == Neighbourhood.Sensed(State(), h, p, ox, oy)
    {
      var cx, cy := arena[h].x + ox, arena[h].y + oy;
      found := false;
      if InBounds(State(), cx, cy) {
        var around := GetActor(cx, cy);
        found := (p.PlayerProbe? && around.Some? && arena[around.value].kind.Player?) || (p.EmptyProbe? && around.None?);
      }
    }

    /**
     * The kill loop of Shy_Monster.is_dead: every box get_actor finds on
     * the nine cells around (cx, cy), in scan order, is killed.
     */
    method KillBoxesAround(cx: int, cy: int)
      requires Valid()
      modifies this
      ensures State() == Monsters.KillBoxesAround(old(State()), cx, cy)
    {
      ghost var w0 := State();
      ghost var cells := Neighbourhood.ScanCells(cx, cy);
      KilledNone(w0);
      var ox := -1;
      while ox < 2
        invariant -1 <= ox <= 2
        invariant Valid() && State() == KilledIn(w0, cells[..3 * (ox + 1)])
      {
        var oy := -1;
        while oy < 2
          invariant -1 <= oy <= 2
          invariant Valid() && State() == KilledIn(w0, cells[..3 * (ox + 1) + (oy + 1)])
        {
          var k := 3 * (ox + 1) + (oy + 1);
          ghost var k' := Neighbourhood.OffsetIndex(ox, oy);
          KillStep(w0, cx, cy, k);
          oy := oy + 1;
        }
        ox := ox + 1;
      }
      assert cells[..9] == cells;
      KilledAll(w0, cx, cy);
    }

    /** One turn of the kill loop: the cell at position k of the scan. */
    method KillStep(ghost w0: World, cx: int, cy: int, k: nat)
      requires Valid() && Grid.Valid(w0) && k < 9 && State() == KilledIn(w0, Neighbourhood.ScanCells(cx, cy)[..k])
      modifies this
      ensures Valid() && State() == KilledIn(w0, Neighbourhood.ScanCells(cx, cy)[..k + 1])
    {
      var x, y := cx + Neighbourhood.Offsets()[k].0, cy + Neighbourhood.Offsets()[k].1;
      Monsters.OnlyBoxesDieGrows(w0, State());
      GetActorFrame(w0, State(), x, y);
      var around := GetActor(x, y);
      KilledStep(w0, Neighbourhood.ScanCells(cx, cy)[..k], x, y);
      assert Neighbourhood.ScanCells(cx, cy)[..k + 1] == Neighbourhood.ScanCells(cx, cy)[..k] + [(x, y)];
      if around.Some? && IsBox(arena[around.value].kind) {
        Kill(around.value);
      }
    }

    // ------------------------------------------------------------ deaths

    /** Fire_Monster.is_dead, Earth_Monster.is_dead and Ice_Monster.is_dead. */
    method EvolvingIsDead(h: Handle) returns (dead: bool)
      requires Valid() && h < |arena|
      requires arena[h].kind.FireMonster? || arena[h].kind.EarthMonster? || arena[h].kind.IceMonster?
      modifies this
      ensures (State(), dead) == Monsters.EvolvingIsDead(old(State()), h)
    {
      dead := MonsterIsDead(h);
      if dead {
        EvolveInto(h, Monsters.EvolveTarget(arena[h].kind));
      }
    }

    /** Shy_Monster.is_dead. */
    method ShyIsDead(h: Handle) returns (dead: bool)
      requires Valid() && h < |arena| && arena[h].kind.ShyMonster?
      modifies this
      ensures (State(), dead) == Monsters.ShyIsDead(old(State()), h)
    {
      dead := MonsterIsDead(h);
      if dead {
        KillBoxesAround(arena[h].x, arena[h].y);
        EvolveInto(h, StalkerMonster);
      }
    }

    /** a.is_dead(), dispatched on a's class. */
    method IsDead(h: Handle) returns (dead: bool)
      requires Valid() && h < |arena|
      modifies this
      ensures (State(), dead) == Monsters.IsDead(old(State()), h)
    {
      var k := arena[h].kind;
      if k.FireMonster? || k.EarthMonster? || k.IceMonster? {
        dead := EvolvingIsDead(h);
      } else if k.ShyMonster? {
        dead := ShyIsDead(h);
      } else if IsMonster(k) {
        dead := MonsterIsDead(h);
      } else {
        dead := arena[h].dead;
      }
    }

    // -------------------------------------------------------------- turns

    /** Actor.step: ask is_dead, and a dead actor takes itself off the list. */
    method ActorStep(h: Handle)
      requires Valid() && h < |arena|
      modifies this
      ensures State() == Turns.ActorStep(old(State()), h)
    {
      var dead := IsDead(h);
      if dead { RemoveActor(h); }
    }

    /** The key-handling half of KeyboardPlayer.step. */
    method PlayerAct(h: Handle)
      requires Valid() && h < |arena| && arena[h].kind.Player?
      modifies this
      ensures State() == Turns.PlayerAct(old(State()), h)
    {
      var e := arena[h].lastEvent;
      if e.None? { return; }
      var d := Players.KeyDirection(arena[h].playerNumber, e.value);
      if d.Some? {
        var _ := Move(h, h, d.value.0, d.value.1);
      }
      SetRecord(h, arena[h].(lastEvent := None));
    }

    /** KeyboardPlayer.step. */
    method PlayerStep(h: Handle)
      requires Valid() && h < |arena| && arena[h].kind.Player?
      modifies this
      ensures State() == Turns.PlayerStep(old(State()), h)
    {
      if arena[h].dead { RemovePlayer(h); }
      PlayerAct(h);
    }

    /** The cadence and the move of Monster.step. */
    method MonsterAct(h: Handle)
      requires Valid() && h < |arena| && IsMonster(arena[h].kind)
      modifies this
      ensures State() == Turns.MonsterAct(old(State()), h)
    {
      var act := Delay(h);
      if !act { return; }
      if !arena[h].frozen {
        var _ := Move(h, h, arena[h].dx, arena[h].dy);
      }
    }

    /** Monster.step. */
    method MonsterStep(h: Handle)
      requires Valid() && h < |arena| && IsMonster(arena[h].kind)
      modifies this
      ensures State() == Turns.MonsterStep(old(State()), h)
    {
      ActorStep(h);
      MonsterAct(h);
    }

    /** Shy_Monster.run_away. */
    method RunAway(h: Handle)
      requires Valid() && h < |arena|
      modifies this
      ensures State() == Monsters.RunAway(old(State()), h)
    {
      var p := Surroundings(h, Neighbourhood.PlayerProbe);
      if p.0 != 0 && p.1 != 0 {
        var e := Surroundings(h, Neighbourhood.EmptyProbe);
        SetHeading(h, e.0, e.1);
      }
    }

    /** Stalker_Monster.stalk. */
    method Stalk(h: Handle)
      requires Valid() && h < |arena|
      modifies this
      ensures State() == Monsters.Stalk(old(State()), h)
    {
      var (p1, _) := GetPlayers(State());
      if p1.None? {
        SetHeading(h, 0, 0);
      } else {
        var px, py := arena[p1.value].x, arena[p1.value].y;
        SetHeading(h, Monsters.Sign(px - arena[h].x), Monsters.Sign(py - arena[h].y));
      }
    }

    /** Shy_Monster.step. */
    method ShyStep(h: Handle)
      requires Valid() && h < |arena| && arena[h].kind.ShyMonster?
      modifies this
      ensures State() == Turns.ShyStep(old(State()), h)
    {
      MonsterStep(h);
      RunAway(h);
    }

    /** Stalker_Monster.step. */
    method StalkerStep(h: Handle)
      requires Valid() && h < |arena| && arena[h].kind.StalkerMonster?
      modifies this
      ensures State() == Turns.StalkerStep(old(State()), h)
    {
      MonsterStep(h);
      Stalk(h);
    }

    /** a.step() for the actor at position i of the list, dispatched on its class. */
    method StepActor(i: nat)
      requires Valid() && i < |actors|
      modifies this
      ensures State() == Turns.StepActor(old(State()), i)
    {
      hide Turns.PlayerStep, Turns.ShyStep, Turns.StalkerStep, Turns.MonsterStep, Turns.ActorStep;
      var h := actors[i];
      match arena[h].kind
      case Player => PlayerStep(h);
      case ShyMonster => ShyStep(h);
      case StalkerMonster => StalkerStep(h);
      case Monster => MonsterStep(h);
      case FireMonster => MonsterStep(h);
      case EarthMonster => MonsterStep(h);
      case IceMonster => MonsterStep(h);
      case _ => ActorStep(h);
    }

    /**
     * Stage.step: the for loop over the list, which reads the list's length
     * afresh at every position, so actors appended during the turn get their
     * step too and removals shift the later actors down by one.
     */
    method Step()
      requires Valid()
      modifies this
      ensures State() == Turns.Step(old(State()))
    {
      var i := 0;
      while i < |actors|
        invariant Valid()
        invariant Turns.StepFrom(State(), i) == Turns.Step(old(State()))
        decreases Turns.Rest(State(), i)
      {
        StepActor(i);
        i := i + 1;
      }
    }
  }

  /** get_actor finds actor j on one of the given cells. */
  predicate HitIn(w: World, cells: seq<(int, int)>, j: Handle)
    requires Valid(w)
  {
    |cells| > 0 &&
    (HitIn(w, cells[..|cells| - 1], j) || GetActor(w, cells[|cells| - 1].0, cells[|cells| - 1].1) == Some(j))
  }

  /** HitIn is "some one of the cells holds actor j". */
  lemma {:induction false} HitInMeans(w: World, cells: seq<(int, int)>, j: Handle)
    requires Valid(w)
    ensures HitIn(w, cells, j) <==> exists i :: 0 <= i < |cells| && GetActor(w, cells[i].0, cells[i].1) == Some(j)
  {
    if |cells| > 0 {
      var front := cells[..|cells| - 1];
      HitInMeans(w, front, j);
      if exists i :: 0 <= i < |cells| && GetActor(w, cells[i].0, cells[i].1) == Some(j) {
        var i :| 0 <= i < |cells| && GetActor(w, cells[i].0, cells[i].1) == Some(j);
        if i < |front| {
          assert front[i] == cells[i];
        }
      }
      if HitIn(w, front, j) {
        var i :| 0 <= i < |front| && GetActor(w, front[i].0, front[i].1) == Some(j);
        assert cells[i] == front[i];
      }
    }
  }

  /** The stage after the kill loop has visited the given cells: every box found on one of them is dead. */
  ghost function KilledIn(w: World, cells: seq<(int, int)>): (r: World)
    requires Valid(w)
    ensures Valid(r) && Monsters.OnlyBoxesDie(w, r)
  {
    var arena := seq(|w.arena|, j requires 0 <= j < |w.arena| =>
      if IsBox(w.arena[j].kind) && HitIn(w, cells, j) then w.arena[j].(dead := true) else w.arena[j]);
    w.(arena := arena)
  }

  lemma KilledNone(w: World)
    requires Valid(w)
    ensures KilledIn(w, []) == w
  {
    assert KilledIn(w, []).arena == w.arena;
  }

  /** Visiting all nine cells of the scan is Monsters.KillBoxesAround. */
  lemma KilledAll(w: World, cx: int, cy: int)
    requires Valid(w)
    ensures KilledIn(w, Neighbourhood.ScanCells(cx, cy)) == Monsters.KillBoxesAround(w, cx, cy)
  {
    var cells := Neighbourhood.ScanCells(cx, cy);
    forall j | 0 <= j < |w.arena| ensures HitIn(w, cells, j) == Monsters.Targeted(w, cx, cy, j) {
      HitInMeans(w, cells, j);
    }
    assert KilledIn(w, cells).arena == Monsters.KillBoxesAround(w, cx, cy).arena;
  }

  /** Visiting cell (x, y) kills the box get_actor finds there, if any, and nothing else. */
  lemma KilledStep(w: World, cells: seq<(int, int)>, x: int, y: int)
    requires Valid(w)
    ensures var g := GetActor(w, x, y);
            var v := KilledIn(w, cells);
            KilledIn(w, cells + [(x, y)]) ==
              if g.Some? && IsBox(w.arena[g.value].kind) then Grid.Kill(v, g.value) else v
  {
    hide Grid.GetActor;
    var g := GetActor(w, x, y);
    var v := KilledIn(w, cells);
    var u := KilledIn(w, cells + [(x, y)]);
    var r := if g.Some? && IsBox(w.arena[g.value].kind) then Grid.Kill(v, g.value) else v;
    assert (cells + [(x, y)])[..|cells|] == cells;
    forall j | 0 <= j < |w.arena| ensures u.arena[j] == r.arena[j] {
      assert HitIn(w, cells + [(x, y)], j) == (HitIn(w, cells, j) || g == Some(j));
    }
    assert u.arena == r.arena;
  }

  /** Protocol.Push past its bounds check: the step after the chain ahead has answered. */
  lemma PushUnfold(w: World, h: Handle, other: Handle, dx: int, dy: int)
    requires Valid(w) && h < |w.arena| && other < |w.arena| && (dx, dy) != (0, 0)
    requires Pushes(w.arena[h].kind)
    ensures Protocol.Push(w, h, other, dx, dy) ==
            if !InBounds(w, w.arena[h].x + dx, w.arena[h].y + dy) then (w, false)
            else Protocol.StepIfRoom(Protocol.Infront(w, h, w.arena[h].x + dx, w.arena[h].y + dy, dx, dy), h, dx, dy)
  {
    hide Protocol.Infront, Protocol.StepIfRoom, Protocol.Answers, Protocol.GainsAhead, Grid.Grows;
  }

  /** Monster.move is the reflection followed by the reply. */
  lemma MonsterMoveUnfold(w: World, h: Handle, other: Handle, dx: int, dy: int)
    requires Valid(w) && h < |w.arena| && other < |w.arena| && IsMonster(w.arena[h].kind)
    ensures var nx, ny := w.arena[h].x + w.arena[h].dx, w.arena[h].y + w.arena[h].dy;
            Protocol.MonsterMove(w, h, other, dx, dy) ==
            Protocol.MonsterReply(Protocol.Reflect(w, h), h, other, nx, ny, !InBounds(w, nx, ny), dx, dy)
  {
    hide Protocol.MonsterReply, Protocol.Reflect, Protocol.Answers, Grid.Calm;
  }

  /** The reflection is one assignment of the heading. */
  lemma ReflectUnfold(w: World, h: Handle)
    requires Valid(w) && h < |w.arena|
    ensures var a := w.arena[h];
            Protocol.Reflect(w, h) ==
            Grid.SetHeading(w, h, if InBoundsX(w, a.x + a.dx) then a.dx else -a.dx,
                                  if InBoundsY(w, a.y + a.dy) then a.dy else -a.dy)
  {
    hide Grid.SetHeading, Grid.Calm;
  }
}
