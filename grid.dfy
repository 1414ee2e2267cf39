// The stage of Warehouse Wars as a value: the actor records, the arena that
// names them, the stage's ordered actor list, and the look-ups every other
// part of the game goes through (ww/ww.py, classes Actor and Stage).

module Grid {

  datatype Option<T> = None | Some(value: T)

  /** An actor is named by its index in the arena of every actor ever constructed. */
  type Handle = nat

  /** The keys the game reacts to, standing for pygame's key codes. */
  datatype Key =
    | KeyW | KeyE | KeyR | KeyS | KeyD | KeyZ | KeyX | KeyC   // player 1 moves
    | KeyY | KeyU | KeyI | KeyH | KeyJ | KeyB | KeyN | KeyM   // player 2 moves
    | OtherKey

  /** The classes of ww/ww.py that are placed on a stage (Player is KeyboardPlayer). */
  datatype Kind =
    | Player
    | Box | IceBox | Wall | FireWall
    | Monster | ShyMonster | StalkerMonster | FireMonster | EarthMonster | IceMonster

  /** isinstance(_, Box): the box family, walls included. */
  predicate IsBox(k: Kind) { k.Box? || k.IceBox? || k.Wall? || k.FireWall? }

  /** isinstance(_, Monster). */
  predicate IsMonster(k: Kind) {
    k.Monster? || k.ShyMonster? || k.StalkerMonster? || k.FireMonster? || k.EarthMonster? || k.IceMonster?
  }

  /** Kinds whose move first asks the actor in front of them to move (infront_moveable). */
  predicate Pushes(k: Kind) { k.Player? || k.Box? || k.IceBox? }

  /** Kinds whose own turn can add an actor to the stage (a push into fire, or death by evolution). */
  predicate Appender(k: Kind) {
    k.Player? || k.ShyMonster? || k.FireMonster? || k.EarthMonster? || k.IceMonster?
  }

  /**
   * One actor. Fields a class of ww/ww.py does not have keep their initial
   * value: dx, dy and frozen belong to monsters, frozenMonsters to ice boxes,
   * playerNumber and lastEvent to players.
   */
  datatype Actor = Actor(
    kind: Kind,
    x: int, y: int,
    delay: int,                  // the cadence period
    delayCount: int,
    dead: bool,
    dx: int, dy: int,            // a monster's heading
    frozen: bool,                // a monster stuck to an ice box
    frozenMonsters: seq<Handle>, // the monsters stuck to an ice box
    playerNumber: int,
    lastEvent: Option<Key>)

  /** Actor.__init__ and Monster.__init__: alive, count 0, monsters heading (1, 1). */
  function NewActor(kind: Kind, x: int, y: int, delay: int): (a: Actor)
    ensures a.kind == kind && a.x == x && a.y == y && a.delay == delay
    ensures a.delayCount == 0 && !a.dead && !a.frozen && a.frozenMonsters == [] && a.lastEvent.None?
    ensures IsMonster(kind) ==> a.dx == 1 && a.dy == 1
  {
    var d := if IsMonster(kind) then 1 else 0;
    Actor(kind, x, y, delay, 0, false, d, d, false, [], 0, None)
  }

  /** KeyboardPlayer.__init__: the player number doubles as the delay; no event is pending. */
  function NewPlayer(x: int, y: int, number: int): (a: Actor)
    ensures a.kind.Player? && a.x == x && a.y == y && a.playerNumber == number
    ensures !a.dead && a.lastEvent.None?
  {
    Actor(Player, x, y, number, 0, false, 0, 0, false, [], number, None)
  }

  /**
   * The stage: its logical size, the arena, the actor list in insertion
   * order, the two player slots and the winner flag.
   */
  datatype World = World(
    width: int, height: int,
    arena: seq<Actor>,
    actors: seq<Handle>,
    player1: Option<Handle>, player2: Option<Handle>,
    isWinner: bool)

  /** Every handle an actor stores names an actor; a monster's cadence period is positive. */
  ghost predicate ValidActor(a: Actor, n: nat) {
    (forall k :: 0 <= k < |a.frozenMonsters| ==> a.frozenMonsters[k] < n) &&
    (IsMonster(a.kind) ==> a.delay > 0)
  }

  /** No dangling handles anywhere in the stage. */
  ghost predicate Valid(w: World) {
    (forall h :: 0 <= h < |w.arena| ==> ValidActor(w.arena[h], |w.arena|)) &&
    (forall i :: 0 <= i < |w.actors| ==> w.actors[i] < |w.arena|) &&
    (w.player1.Some? ==> w.player1.value < |w.arena|) &&
    (w.player2.Some? ==> w.player2.value < |w.arena|)
  }

  /** The empty stage of Stage.__init__. */
  function EmptyStage(width: int, height: int): (w: World)
    ensures Valid(w) && w.actors == [] && w.player1.None? && w.player2.None? && !w.isWinner
  {
    World(width, height, [], [], None, None, false)
  }

  // ---------------------------------------------------------------- bounds

  /** Stage.is_in_bounds_x. */
  predicate InBoundsX(w: World, x: int) { 0 <= x && x < w.width }

  /** Stage.is_in_bounds_y. */
  predicate InBoundsY(w: World, y: int) { 0 <= y && y < w.height }

  /** Stage.is_in_bounds: both coordinates inside the stage. */
  function InBounds(w: World, x: int, y: int): (r: bool)
    ensures r <==> 0 <= x < w.width && 0 <= y < w.height
  {
    InBoundsX(w, x) && InBoundsY(w, y)
  }

  // ---------------------------------------------------------------- look-up

  /** Actor h stands on cell (x, y). */
  predicate IsAt(w: World, h: Handle, x: int, y: int)
    requires h < |w.arena|
  {
    w.arena[h].x == x && w.arena[h].y == y
  }

  /** The first index at or after i in the actor list whose actor stands on (x, y). */
  function FirstAt(w: World, x: int, y: int, i: nat): (r: Option<nat>)
    requires Valid(w) && i <= |w.actors|
    ensures r.Some? ==> i <= r.value < |w.actors| && IsAt(w, w.actors[r.value], x, y)
    ensures r.Some? ==> forall j :: i <= j < r.value ==> !IsAt(w, w.actors[j], x, y)
    ensures r.None? ==> forall j :: i <= j < |w.actors| ==> !IsAt(w, w.actors[j], x, y)
    decreases |w.actors| - i
  {
    if i == |w.actors| then None
    else if IsAt(w, w.actors[i], x, y) then Some(i)
    else FirstAt(w, x, y, i + 1)
  }

  /**
   * Stage.get_actor: the earliest actor of the list standing on (x, y), or
   * None when nobody registered stands there.
   */
  function GetActor(w: World, x: int, y: int): (r: Option<Handle>)
    requires Valid(w)
    ensures r.None? <==> forall j :: 0 <= j < |w.actors| ==> !IsAt(w, w.actors[j], x, y)
    ensures r.Some? ==> r.value < |w.arena| && IsAt(w, r.value, x, y)
  {
    match FirstAt(w, x, y, 0)
    case None => None
    case Some(k) => Some(w.actors[k])
  }

  /** What get_actor finds is the earliest actor of the list on the cell. */
  lemma GetActorFirst(w: World, x: int, y: int)
    requires Valid(w) && GetActor(w, x, y).Some?
    ensures exists k :: 0 <= k < |w.actors| && w.actors[k] == GetActor(w, x, y).value &&
                        forall j :: 0 <= j < k ==> !IsAt(w, w.actors[j], x, y)
  {
    var k := FirstAt(w, x, y, 0).value;
    assert w.actors[k] == GetActor(w, x, y).value;
  }

  /** The kind of whatever get_actor finds on (x, y) satisfies isinstance(_, Player). */
  predicate PlayerAt(w: World, x: int, y: int)
    requires Valid(w)
  {
    var c := GetActor(w, x, y);
    c.Some? && w.arena[c.value].kind.Player?
  }

  /**
   * Stage.get_players. It answers with the first slot twice, so whoever reads
   * the second component never sees player 2.
   */
  function GetPlayers(w: World): (r: (Option<Handle>, Option<Handle>))
    ensures r.0 == w.player1 && r.1 == w.player1
  {
    (w.player1, w.player1)
  }

  /** Same actor list and every actor of w where it was: look-ups cannot tell w' from w. */
  ghost predicate SamePlaces(w: World, w': World) {
    w'.actors == w.actors && |w.arena| <= |w'.arena| &&
    forall h :: 0 <= h < |w.arena| ==> w'.arena[h].x == w.arena[h].x && w'.arena[h].y == w.arena[h].y
  }

  lemma {:induction false} FirstAtFrame(w: World, w': World, x: int, y: int, i: nat)
    requires Valid(w) && Valid(w') && SamePlaces(w, w') && i <= |w.actors|
    ensures FirstAt(w', x, y, i) == FirstAt(w, x, y, i)
    decreases |w.actors| - i
  {
    if i < |w.actors| {
      FirstAtFrame(w, w', x, y, i + 1);
    }
  }

  /** get_actor only reads the actor list and positions. */
  lemma GetActorFrame(w: World, w': World, x: int, y: int)
    requires Valid(w) && Valid(w') && SamePlaces(w, w')
    ensures GetActor(w', x, y) == GetActor(w, x, y)
  {
    FirstAtFrame(w, w', x, y, 0);
  }

  // ---------------------------------------------------------------- updates

  /** Replace the record of actor h. */
  function SetActor(w: World, h: Handle, a: Actor): (r: World)
    requires Valid(w) && h < |w.arena| && ValidActor(a, |w.arena|)
    ensures Valid(r) && |r.arena| == |w.arena| && r.arena[h] == a
    ensures forall j :: 0 <= j < |w.arena| && j != h ==> r.arena[j] == w.arena[j]
    ensures r.actors == w.actors && r.width == w.width && r.height == w.height
    ensures r.player1 == w.player1 && r.player2 == w.player2 && r.isWinner == w.isWinner
    ensures a.kind == w.arena[h].kind ==> Grows(w, r, 0)
  {
    w.(arena := w.arena[h := a])
  }

  /** Actor.kill. */
  function Kill(w: World, h: Handle): (r: World)
    requires Valid(w) && h < |w.arena|
    ensures Valid(r) && r == SetActor(w, h, w.arena[h].(dead := true)) && Calm(w, r, 0)
  {
    SetActor(w, h, w.arena[h].(dead := true))
  }

  /** Monster.set_frozen. */
  function SetFrozen(w: World, m: Handle, b: bool): (r: World)
    requires Valid(w) && m < |w.arena|
    ensures Valid(r) && r == SetActor(w, m, w.arena[m].(frozen := b))
    ensures Grows(w, r, 0) && SameShape(w, r) && (b ==> NoThaw(w, r))
  {
    SetActor(w, m, w.arena[m].(frozen := b))
  }

  /** Actor.move: step by (dx, dy), whatever is there. */
  function Shift(w: World, h: Handle, dx: int, dy: int): (r: World)
    requires Valid(w) && h < |w.arena|
    ensures Valid(r) && Grows(w, r, 0) && |r.arena| == |w.arena| && r.actors == w.actors
    ensures r.arena[h].x == w.arena[h].x + dx && r.arena[h].y == w.arena[h].y + dy
    ensures r.arena[h] == w.arena[h].(x := r.arena[h].x, y := r.arena[h].y)
    ensures forall j :: 0 <= j < |w.arena| && j != h ==> r.arena[j] == w.arena[j]
  {
    SetActor(w, h, w.arena[h].(x := w.arena[h].x + dx, y := w.arena[h].y + dy))
  }

  /** Point actor h along (dx, dy): a monster's heading. */
  function SetHeading(w: World, h: Handle, dx: int, dy: int): (r: World)
    requires Valid(w) && h < |w.arena|
    ensures Valid(r) && Calm(w, r, 0) && |r.arena| == |w.arena|
    ensures r.arena[h] == w.arena[h].(dx := dx, dy := dy)
    ensures forall j :: 0 <= j < |w.arena| && j != h ==> r.arena[j] == w.arena[j]
  {
    SetActor(w, h, w.arena[h].(dx := dx, dy := dy))
  }

  /**
   * A monster m sticks to the ice box ice: Ice_Box.add_to_frozen(m), then
   * m's frozen flag is raised (Monster.move and Shy_Monster.move).
   */
  function Freeze(w: World, ice: Handle, m: Handle): (r: World)
    requires Valid(w) && ice < |w.arena| && m < |w.arena| && ice != m
    ensures Valid(r) && |r.arena| == |w.arena| && r.actors == w.actors
    ensures r.arena[ice].frozenMonsters == w.arena[ice].frozenMonsters + [m]
    ensures r.arena[m].frozen
    ensures r.arena[ice] == w.arena[ice].(frozenMonsters := w.arena[ice].frozenMonsters + [m])
    ensures r.arena[m] == w.arena[m].(frozen := true)
    ensures forall j :: 0 <= j < |w.arena| && j != ice && j != m ==> r.arena[j] == w.arena[j]
    ensures r.width == w.width && r.height == w.height
    ensures r.player1 == w.player1 && r.player2 == w.player2 && r.isWinner == w.isWinner
    ensures Grows(w, r, 0) && SamePlaces(w, r) && NoThaw(w, r)
  {
    var ia := w.arena[ice];
    var w1 := SetActor(w, ice, ia.(frozenMonsters := ia.frozenMonsters + [m]));
    SetFrozen(w1, m, true)
  }

  /** Construct an actor: it gets the next handle and is not yet on the stage. */
  function Spawn(w: World, a: Actor): (r: (World, Handle))
    requires Valid(w) && ValidActor(a, |w.arena| + 1)
    ensures Valid(r.0) && r.1 == |w.arena| && r.0.arena == w.arena + [a]
    ensures r.0.actors == w.actors && r.0.width == w.width && r.0.height == w.height
    ensures r.0.player1 == w.player1 && r.0.player2 == w.player2 && r.0.isWinner == w.isWinner
  {
    (w.(arena := w.arena + [a]), |w.arena|)
  }

  /** Stage.add_actor: append to the actor list. */
  function AddActor(w: World, h: Handle): (r: World)
    requires Valid(w) && h < |w.arena|
    ensures Valid(r) && r.actors == w.actors + [h] && r.arena == w.arena
    ensures r.width == w.width && r.height == w.height
    ensures r.player1 == w.player1 && r.player2 == w.player2 && r.isWinner == w.isWinner
  {
    w.(actors := w.actors + [h])
  }

  /**
   * Actor.evolve_into: h is killed (unless already dead) and a fresh actor of
   * the given kind, with the default delay 5, is appended at h's cell.
   */
  function EvolveInto(w: World, h: Handle, kind: Kind): (r: World)
    requires Valid(w) && h < |w.arena|
    ensures Valid(r) && |r.arena| == |w.arena| + 1 && r.actors == w.actors + [|w.arena|]
    ensures r.arena[h] == w.arena[h].(dead := true)
    ensures r.arena[|w.arena|] == NewActor(kind, w.arena[h].x, w.arena[h].y, 5)
    ensures forall j :: 0 <= j < |w.arena| && j != h ==> r.arena[j] == w.arena[j]
    ensures r.width == w.width && r.height == w.height
    ensures r.player1 == w.player1 && r.player2 == w.player2 && r.isWinner == w.isWinner
    ensures !Appender(kind) ==> Calm(w, r, 1)
  {
    var w1 := if !w.arena[h].dead then Kill(w, h) else w;
    var a := NewActor(kind, w1.arena[h].x, w1.arena[h].y, 5);
    var (w2, n) := Spawn(w1, a);
    AddActor(w2, n)
  }

  /** Python's list.index: the position of the first occurrence of r. */
  function IndexOf(s: seq<Handle>, r: Handle): (k: nat)
    requires r in s
    ensures k < |s| && s[k] == r && r !in s[..k]
  {
    if s[0] == r then 0
    else
      var k := IndexOf(s[1..], r) + 1;
      assert s[..k] == [s[0]] + s[1..][..k - 1];
      k
  }

  /** Python's list.remove: drop the first occurrence of r (the list is kept when r is absent). */
  function RemoveFirst(s: seq<Handle>, r: Handle): (t: seq<Handle>)
    ensures r !in s ==> t == s
    ensures r in s ==> |t| == |s| - 1 &&
                       exists k :: 0 <= k < |s| && s[k] == r && r !in s[..k] && t == s[..k] + s[k + 1..]
  {
    if r in s then
      var k := IndexOf(s, r);
      s[..k] + s[k + 1..]
    else s
  }

  /** Stage.remove_actor. */
  function RemoveActor(w: World, h: Handle): (r: World)
    requires Valid(w)
    ensures Valid(r) && r.actors == RemoveFirst(w.actors, h) && r.arena == w.arena
    ensures r.width == w.width && r.height == w.height
    ensures r.player1 == w.player1 && r.player2 == w.player2 && r.isWinner == w.isWinner
  {
    w.(actors := RemoveFirst(w.actors, h))
  }

  // ---------------------------------------------------------------- growth

  /** The arena only grows and nobody changes class. */
  ghost predicate Extends(w: World, w': World) {
    |w.arena| <= |w'.arena| &&
    forall h :: 0 <= h < |w.arena| ==> w'.arena[h].kind == w.arena[h].kind
  }

  /**
   * w' keeps w's size, player slots, winner flag and actor list and appends
   * at most n actors, none of which can add actors of its own during its turn.
   */
  ghost predicate Grows(w: World, w': World, n: nat) {
    w'.width == w.width && w'.height == w.height &&
    w'.player1 == w.player1 && w'.player2 == w.player2 && w'.isWinner == w.isWinner &&
    Extends(w, w') &&
    |w.actors| <= |w'.actors| <= |w.actors| + n &&
    w'.actors[..|w.actors|] == w.actors &&
    forall j :: |w.actors| <= j < |w'.actors| ==> w'.actors[j] < |w'.arena| && !Appender(w'.arena[w'.actors[j]].kind)
  }

  lemma GrowsRefl(w: World)
    ensures Grows(w, w, 0)
  {
    assert w.actors[..|w.actors|] == w.actors;
  }

  lemma {:induction false} GrowsTrans(w1: World, w2: World, w3: World, a: nat, b: nat)
    requires Grows(w1, w2, a) && Grows(w2, w3, b)
    ensures Grows(w1, w3, a + b)
  {
    assert w3.actors[..|w1.actors|] == w3.actors[..|w2.actors|][..|w1.actors|];
    forall j | |w1.actors| <= j < |w3.actors|
      ensures w3.actors[j] < |w3.arena| && !Appender(w3.arena[w3.actors[j]].kind)
    {
      if j < |w2.actors| {
        assert w3.actors[j] == w3.actors[..|w2.actors|][j] == w2.actors[j];
      }
    }
  }

  lemma GrowsWeaken(w1: World, w2: World, a: nat, b: nat)
    requires Grows(w1, w2, a) && a <= b
    ensures Grows(w1, w2, b)
  {
  }

  // ---------------------------------------------------------------- calm changes

  /** Every position and frozen list of w is the same in r. */
  ghost predicate SameShape(w: World, r: World) {
    |w.arena| <= |r.arena| &&
    forall k :: 0 <= k < |w.arena| ==>
      r.arena[k].x == w.arena[k].x && r.arena[k].y == w.arena[k].y &&
      r.arena[k].frozenMonsters == w.arena[k].frozenMonsters
  }

  /** No monster that was frozen has been let go. */
  ghost predicate NoThaw(w: World, r: World)
    requires |w.arena| <= |r.arena|
  {
    forall k :: 0 <= k < |w.arena| && w.arena[k].frozen ==> r.arena[k].frozen
  }

  /** Actor h is on the cell it was on. */
  ghost predicate Stays(w: World, r: World, h: Handle)
    requires h < |w.arena| <= |r.arena|
  {
    r.arena[h].x == w.arena[h].x && r.arena[h].y == w.arena[h].y
  }

  /** Nobody who was on the stage in w has moved in r. */
  ghost predicate Still(w: World, r: World)
    requires |w.arena| <= |r.arena|
  {
    forall k :: 0 <= k < |w.arena| ==> Stays(w, r, k)
  }

  /**
   * r differs from w in flags and headings only (and by at most n appended
   * actors): nobody moved, no frozen list changed, no monster was let go.
   */
  ghost predicate Calm(w: World, r: World, n: nat) {
    Grows(w, r, n) && SameShape(w, r) && NoThaw(w, r)
  }

  lemma StillStays(w: World, r: World, h: Handle)
    requires h < |w.arena| <= |r.arena| && Still(w, r)
    ensures Stays(w, r, h)
  {
  }

  /** A calm step with no new actor leaves every look-up of a cell alone. */
  lemma CalmPlaces(w: World, r: World)
    requires Calm(w, r, 0)
    ensures SamePlaces(w, r)
  {
    assert r.actors == r.actors[..|w.actors|];
  }

  lemma CalmRefl(w: World)
    ensures Calm(w, w, 0)
  {
    GrowsRefl(w);
  }

  lemma CalmTrans(w1: World, w2: World, w3: World, a: nat, b: nat)
    requires Calm(w1, w2, a) && Calm(w2, w3, b)
    ensures Calm(w1, w3, a + b)
  {
    GrowsTrans(w1, w2, w3, a, b);
  }
}
