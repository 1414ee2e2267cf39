// The players' side of ww/ww.py: the key table of KeyboardPlayer.step, the
// event buffer of KeyboardPlayer.handle_event, the routing of a key press in
// Stage.player_event, the player slots of Stage (set_player, get_players,
// remove_player) and the end test Stage.game_over.

module Players {
  import opened Grid

  // ---------------------------------------------------------------- keys

  /** The keys Stage.player_event hands to player 1, in the order of its list. */
  function PlayerOneKeys(): seq<Key> { [KeyW, KeyE, KeyR, KeyC, KeyS, KeyD, KeyZ, KeyX] }

  /** The keys Stage.player_event hands to player 2. */
  function PlayerTwoKeys(): seq<Key> { [KeyY, KeyU, KeyI, KeyH, KeyJ, KeyB, KeyN, KeyM] }

  /**
   * The table of KeyboardPlayer.step: the step a key asks of player n, if any.
   * Player 1 steers with the block around S (X down, E up, S left, D right,
   * W R Z C the diagonals), player 2 with the block around J. A player whose
   * number is neither 1 nor 2 has no keys.
   */
  function KeyDirection(n: int, k: Key): (r: Option<(int, int)>)
    ensures r.Some? ==> r.value != (0, 0) && -1 <= r.value.0 <= 1 && -1 <= r.value.1 <= 1
    ensures r.Some? <==> (n == 1 && k in PlayerOneKeys()) || (n == 2 && k in PlayerTwoKeys())
  {
    if n == 1 then
      match k
      case KeyX => Some((0, 1))
      case KeyS => Some((-1, 0))
      case KeyD => Some((1, 0))
      case KeyE => Some((0, -1))
      case KeyW => Some((-1, -1))
      case KeyR => Some((1, -1))
      case KeyZ => Some((-1, 1))
      case KeyC => Some((1, 1))
      case _ => None
    else if n == 2 then
      match k
      case KeyN => Some((0, 1))
      case KeyH => Some((-1, 0))
      case KeyJ => Some((1, 0))
      case KeyU => Some((0, -1))
      case KeyY => Some((-1, -1))
      case KeyI => Some((1, -1))
      case KeyB => Some((-1, 1))
      case KeyM => Some((1, 1))
      case _ => None
    else None
  }

  /** The key that moves player n (1 or 2) by the non-zero step d. */
  function KeyFor(n: int, d: (int, int)): (k: Key)
    requires n == 1 || n == 2
    requires -1 <= d.0 <= 1 && -1 <= d.1 <= 1 && d != (0, 0)
    ensures KeyDirection(n, k) == Some(d)
  {
    if n == 1 then
      if d == (0, 1) then KeyX else if d == (-1, 0) then KeyS else if d == (1, 0) then KeyD
      else if d == (0, -1) then KeyE else if d == (-1, -1) then KeyW else if d == (1, -1) then KeyR
      else if d == (-1, 1) then KeyZ else KeyC
    else
      if d == (0, 1) then KeyN else if d == (-1, 0) then KeyH else if d == (1, 0) then KeyJ
      else if d == (0, -1) then KeyU else if d == (-1, -1) then KeyY else if d == (1, -1) then KeyI
      else if d == (-1, 1) then KeyB else KeyM
  }

  /** Each of the eight steps has exactly one key per player: the table read backwards is KeyFor. */
  lemma KeyTableInverse(n: int, k: Key)
    requires KeyDirection(n, k).Some?
    ensures KeyFor(n, KeyDirection(n, k).value) == k
  {
  }

  // ---------------------------------------------------------------- events

  /** KeyboardPlayer.handle_event: remember the key, forgetting any earlier one. */
  function HandleEvent(w: World, p: Handle, k: Key): (r: World)
    requires Valid(w) && p < |w.arena|
    ensures Valid(r) && Grows(w, r, 0) && r.actors == w.actors
    ensures r.arena[p].lastEvent == Some(k)
    ensures r.arena[p] == w.arena[p].(lastEvent := Some(k))
    ensures forall j :: 0 <= j < |w.arena| && j != p ==> r.arena[j] == w.arena[j]
    ensures r.player1 == w.player1 && r.player2 == w.player2 && r.isWinner == w.isWinner
  {
    SetActor(w, p, w.arena[p].(lastEvent := Some(k)))
  }

  /**
   * Stage.player_event: a key of player 1's block goes to player 1 while the
   * first slot is filled; failing that, a key of player 2's block goes to
   * player 2 while the second slot is filled; other keys are dropped.
   */
  function PlayerEvent(w: World, k: Key): (r: World)
    requires Valid(w)
    ensures Valid(r) && Grows(w, r, 0) && r.actors == w.actors
    ensures r.player1 == w.player1 && r.player2 == w.player2 && r.isWinner == w.isWinner
    ensures forall j :: 0 <= j < |w.arena| ==> r.arena[j] == w.arena[j] || r.arena[j] == w.arena[j].(lastEvent := Some(k))
    ensures w.player1.Some? && KeyDirection(1, k).Some? ==> r.arena[w.player1.value].lastEvent == Some(k)
    ensures w.player2.Some? && KeyDirection(2, k).Some? ==> r.arena[w.player2.value].lastEvent == Some(k)
    ensures KeyDirection(1, k).None? && KeyDirection(2, k).None? ==> r == w
    ensures w.player1.None? && w.player2.None? ==> r == w
    ensures forall j :: 0 <= j < |w.arena| && r.arena[j] != w.arena[j] ==>
              (w.player1 == Some(j) && k in PlayerOneKeys()) || (w.player2 == Some(j) && k in PlayerTwoKeys())
    ensures w.player1.None? && k in PlayerOneKeys() ==> r == w
    ensures w.player2.None? && k in PlayerTwoKeys() ==> r == w
  {
    assert !(k in PlayerOneKeys() && k in PlayerTwoKeys());
    if w.player1.Some? && k in PlayerOneKeys() then HandleEvent(w, w.player1.value, k)
    else if w.player2.Some? && k in PlayerTwoKeys() then HandleEvent(w, w.player2.value, k)
    else GrowsRefl(w); w
  }

  /** No key is in both blocks, so a key press reaches at most one player. */
  lemma KeyBlocksDisjoint(k: Key)
    ensures !(KeyDirection(1, k).Some? && KeyDirection(2, k).Some?)
  {
  }

  // ---------------------------------------------------------------- slots

  /**
   * Stage.set_player: fill both slots and put player 1, then player 2 if
   * there is one, at the end of the actor list.
   */
  function SetPlayer(w: World, p1: Handle, p2: Option<Handle>): (r: World)
    requires Valid(w) && p1 < |w.arena| && (p2.Some? ==> p2.value < |w.arena|)
    ensures Valid(r) && r.arena == w.arena && r.width == w.width && r.height == w.height
    ensures r.player1 == Some(p1) && r.player2 == p2 && r.isWinner == w.isWinner
    ensures r.actors == w.actors + [p1] + (if p2.Some? then [p2.value] else [])
  {
    var w1 := AddActor(w.(player1 := Some(p1)), p1);
    var w2 := w1.(player2 := p2);
    if p2.Some? then AddActor(w2, p2.value) else w2
  }

  /** Whatever was passed to set_player, get_players names player 1 twice. */
  lemma PlayersAfterSet(w: World, p1: Handle, p2: Option<Handle>)
    requires Valid(w) && p1 < |w.arena| && (p2.Some? ==> p2.value < |w.arena|)
    ensures GetPlayers(SetPlayer(w, p1, p2)) == (Some(p1), Some(p1))
  {
  }

  /**
   * Stage.remove_player: by the number of the player given, take whoever
   * occupies that slot off the actor list (its first occurrence; nothing when
   * the slot is empty or the player is not listed) and empty the slot.
   * Numbers other than 1 and 2 change nothing.
   */
  function RemovePlayer(w: World, p: Handle): (r: World)
    requires Valid(w) && p < |w.arena|
    ensures Valid(r) && r.arena == w.arena && r.width == w.width && r.height == w.height
    ensures r.isWinner == w.isWinner
    ensures var n := w.arena[p].playerNumber;
            var slot := if n == 1 then w.player1 else if n == 2 then w.player2 else None;
            r.actors == (if slot.Some? then RemoveFirst(w.actors, slot.value) else w.actors)
    ensures r.player1 == (if w.arena[p].playerNumber == 1 then None else w.player1)
    ensures r.player2 == (if w.arena[p].playerNumber == 2 then None else w.player2)
  {
    var n := w.arena[p].playerNumber;
    if n == 1 then
      var w1 := if w.player1.Some? then RemoveActor(w, w.player1.value) else w;
      w1.(player1 := None)
    else if n == 2 then
      var w1 := if w.player2.Some? then RemoveActor(w, w.player2.value) else w;
      w1.(player2 := None)
    else w
  }

  /** A player set on the stage and later removed by number leaves the list as it was before. */
  lemma RemoveAfterSet(w: World, p1: Handle)
    requires Valid(w) && p1 < |w.arena| && p1 !in w.actors && w.arena[p1].playerNumber == 1
    ensures RemovePlayer(SetPlayer(w, p1, None), p1).actors == w.actors
    ensures RemovePlayer(SetPlayer(w, p1, None), p1).player1.None?
  {
    var s := w.actors + [p1];
    assert p1 !in s[..|w.actors|] by { assert s[..|w.actors|] == w.actors; }
    assert s[..|w.actors|] + s[|w.actors| + 1..] == w.actors;
  }

  // ---------------------------------------------------------------- the end

  /** Some actor of the list s is a monster (the loop of Stage.game_over). */
  function AnyMonster(w: World, s: seq<Handle>): (b: bool)
    requires forall i :: 0 <= i < |s| ==> s[i] < |w.arena|
    ensures b <==> exists i :: 0 <= i < |s| && IsMonster(w.arena[s[i]].kind)
  {
    if s == [] then false
    else if IsMonster(w.arena[s[0]].kind) then true
    else
      var b := AnyMonster(w, s[1..]);
      assert forall i :: 1 <= i < |s| ==> s[1..][i - 1] == s[i];
      b
  }

  /**
   * Stage.game_over. With a player slot filled: a monster left on the list
   * means the game goes on; otherwise the player has won. With both slots
   * empty the game is over and nobody has won.
   */
  function GameOver(w: World): (r: (World, bool))
    requires Valid(w)
    ensures r.0 == w.(isWinner := r.0.isWinner)
    ensures r.1 <==> (w.player1.None? && w.player2.None?) ||
                     forall i :: 0 <= i < |w.actors| ==> !IsMonster(w.arena[w.actors[i]].kind)
    ensures r.0.isWinner <==> w.isWinner ||
                              ((w.player1.Some? || w.player2.Some?) &&
                               forall i :: 0 <= i < |w.actors| ==> !IsMonster(w.arena[w.actors[i]].kind))
  {
    if w.player1.Some? || w.player2.Some? then
      if AnyMonster(w, w.actors) then (w, false)
      else (w.(isWinner := true), true)
    else (w, true)
  }
}
