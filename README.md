# Warehouse Wars engine in Dafny

This project models the actor engine of Warehouse Wars (`ww/ww.py`). Warehouse Wars is a turn-based grid game: players push chains of boxes, and monsters wander the stage, bounce, freeze to ice boxes, die when they are boxed in and turn into boxes of their own.

## How the model is laid out

The model has two layers.

**Value layer.** Each operation is a function over a `World` value.

- A `World` holds:
  - the stage size;
  - an *arena*, the records of every actor ever constructed;
  - the stage's ordered actor list, a sequence of *handles* (indices into the arena);
  - the two player slots;
  - the winner flag.
- Python object identity is handle equality.
- A removed actor keeps its record in the arena, just as a Python object outlives its removal from the list.
- `Move` and its overrides return the new world together with the answer.
- The properties of the game are proved about these functions.

**Object layer.** The Python objects change in place, so `Engine.Stage` is a class.

- Its fields are the arena, the actor list, the player slots and the winner flag.
- Its methods update those fields the way the Python methods do, including the source's loops:
  - the release loop of `Ice_Box.move`;
  - the scans of `get_actor`, `surroundings`, `is_dead` and `game_over`;
  - the box-killing loop of `Shy_Monster.is_dead`;
  - the walk of `Stage.step`.
- Each method is proved to leave the object exactly as the function of the same name says. Every property proved of the functions therefore holds of the object.

The modules are:

- `Grid` (grid.dfy): actor records, the stage value, bounds, `get_actor`, record updates, `add_actor` and `remove_actor`.
- `Neighbourhood` (neighbourhood.dfy): the 3x3 scans.
- `Protocol` (moves.dfy): the move-request protocol.
- `Monsters` (monsters.dfy): cadence, deaths and evolutions, run-away and stalk.
- `Players` (players.dfy): the key table, event routing, player slots and `game_over`.
- `Turns` (turns.dfy): the `step` methods and `Stage.step`.
- `Engine` (stage.dfy): the `Stage` class.

### The move protocol and its termination

`a.move(other, dx, dy)` means that `other` asks `a` to move.

- Players and boxes first ask whoever `get_actor` finds in their target cell (`infront_moveable`). They step only if that actor answered yes.
- A push therefore runs depth first down a chain. Every link commits only after the links in front of it have answered.
- Every link stands one cell further along `(dx, dy)` and must be on the stage. So the distance to the edge along the push decreases, which bounds the recursion.
- This needs `(dx, dy) != (0, 0)` for the pushing kinds.
  - Nothing in the source ever asks a pusher to move by `(0, 0)`: the key table never yields it (`Players.KeyDirection`), and only monsters request moves along their heading.
  - With `(0, 0)`, a box would ask itself again forever.

### Stage.step

`for a in self._actors` walks the list by position while the steps remove and append actors. The model therefore walks by index and re-reads the length at every turn:

- a removal at or before the current position makes the walk skip the actor that slides into that position;
- actors appended during the tick get their turn in the same tick.

Termination uses a weight:

- actors whose own turn can append an actor weigh 2, the others 1;
- an appended actor never appends in turn;
- so every turn lowers the weight still to walk (`Turns.Rest`).

### Behaviour of the code worth knowing

The model follows the code in each case.

- **Player moving into a shy monster.** The docstring of `Shy_Monster.move` (ww/ww.py:387-389) says that "it dies" when the player moves into the monster, without saying which one. The code (ww/ww.py:403-405) kills the *player*, answers yes, and the player then steps onto the monster's cell. `Protocol.ShyMove` states this.
- **Failed `Ice_Box` push.** A failed push does not always leave the ice box's frozen list unchanged. When the actor right in front is a monster that is not frozen, `Monster.move` freezes it to the ice box (ww/ww.py:318-322) before refusing. `Protocol.GainsAhead` and `Protocol.IceBoxRefused` state exactly this growth. No monster is ever let go by a failed push.
- **Run-away target.** A shy monster runs towards the *first* empty cell in scan order, not the nearest. With no empty cell its heading becomes `(0, 0)`; it is not left unchanged. Only the first player the scan meets decides whether it runs: a player found first on an axis cell suppresses the run even when another player stands on a diagonal.
- **Stalker target.** The stalker follows player 1 only, because `get_players` answers with the first slot twice (ww/ww.py:590-591).

## Model

| member | source | states |
|---|---|---|
| Grid.NewActor | ww/ww.py:8-14 | a new actor is alive with count 0, not frozen, no frozen monsters and no pending event; a monster starts heading (1, 1) (ww/ww.py:250-255) |
| Grid.NewPlayer | ww/ww.py:82-85 | a keyboard player is alive, carries its player number and has no pending event |
| Grid.EmptyStage | ww/ww.py:529-557 | a new stage has an empty actor list, empty player slots and no winner |
| Grid.InBounds | ww/ww.py:559-566 | is_in_bounds holds exactly when 0 <= x < width and 0 <= y < height |
| Grid.FirstAt | ww/ww.py:640-647 | the scan from position i finds the first later position whose actor stands on the cell, or reports that none does |
| Grid.GetActor | ww/ww.py:640-647 | get_actor answers None exactly when no listed actor stands on the cell; otherwise it answers an actor that stands there |
| Grid.GetActorFirst | ww/ww.py:640-647 | the actor get_actor answers is the earliest one in list order on that cell |
| Grid.GetActorFrame | ww/ww.py:640-647 | get_actor reads only the list and the positions: stages that agree on both answer alike |
| Grid.GetPlayers | ww/ww.py:590-591 | get_players answers with the first slot in both components |
| Grid.Kill | ww/ww.py:64-65 | kill sets the dead flag of that actor only; nobody moves, no frozen list changes, no monster is let go |
| Grid.SetFrozen | ww/ww.py:257-258 | set_frozen changes only that monster's frozen flag, and setting it to true lets no monster go |
| Grid.Shift | ww/ww.py:36-42 | Actor.move shifts the actor by exactly (dx, dy), keeps the rest of its record and changes no other record, list or slot |
| Grid.Freeze | ww/ww.py:215-216 | add_to_frozen together with setting the monster's flag: the ice box's list gains exactly the monster at its end, the monster is frozen, and every other record, the list and every position are unchanged |
| Grid.AddActor | ww/ww.py:624-625 | add_actor appends the handle at the end of the list and changes nothing else |
| Grid.EvolveInto | ww/ww.py:67-75 | evolve_into marks the actor dead and appends one new actor of the target class, with delay 5, on the actor's cell at the end of the list; nothing else changes |
| Grid.IndexOf | ww/ww.py:627-628 | the position list.remove removes from: an occurrence with no earlier one |
| Grid.RemoveFirst | ww/ww.py:627-628 | list.remove drops exactly the first occurrence and keeps the order of the rest |
| Grid.RemoveActor | ww/ww.py:627-628 | remove_actor drops the first occurrence of the actor from the list and changes nothing else |
| Neighbourhood.Offsets | ww/ww.py:266-267 | the loop nest visits the nine offsets of the 3x3 block |
| Neighbourhood.ScanCells | ww/ww.py:422-425 | the cells the shy monster's kill loop visits are its nine neighbouring cells in scan order |
| Neighbourhood.OffsetsOrdered | ww/ww.py:369-370 | the loop nest visits the offsets in lexicographic order, x before y |
| Neighbourhood.FirstSensed | ww/ww.py:369-376 | the scan from position k finds the first offset whose in-bounds cell holds what is looked for, and nothing sensed before it |
| Neighbourhood.FirstSensedAt | ww/ww.py:369-375 | one turn of the scan: either the current offset is sensed and answered, or the scan goes on with the next one |
| Neighbourhood.Surroundings | ww/ww.py:364-376 | The answer is an offset of the 3x3 block such that a non-zero answer names an in-bounds cell holding what the probe looks for, no offset earlier in scan order names such a cell, and (0, 0) means either the monster's own cell matched or no cell did. |
| Neighbourhood.HasRoomMeans | ww/ww.py:265-277 | the enclosure test finds room exactly when some in-bounds cell of the 3x3 block, the own cell included, is empty or holds a player |
| Protocol.DistShrinks | ww/ww.py:25-34 | each link of a push chain is one step closer to the edge, so the chain of requests is finite |
| Protocol.AnswersRefuse | ww/ww.py:234-235 | refusing and changing nothing meets every guarantee an answer must give |
| Protocol.ShapeAnswers | ww/ww.py:241-245 | a reply that moves nobody and touches no frozen list (a kill, a conversion) meets the guarantees of an answer from a non-pusher |
| Protocol.ChainRefused | ww/ww.py:196-202 | when the chain ahead refuses, the pusher answers no, stays put and has moved nobody outside the quadrant ahead |
| Protocol.ChainCommits | ww/ww.py:196-202 | when the chain ahead made room, the pusher steps by exactly (dx, dy) after every deeper link, answers yes, and keeps its frozen list |
| Protocol.ChainAnswers | ww/ww.py:196-202 | either outcome of the chain gives the pusher's answer all its guarantees, and the pusher's list grows only by the monster in front freezing to it |
| Protocol.Move | ww/ww.py:36-42 | any answer to a move request: a refusal leaves the actor where it was and lets no monster go; a pusher that says yes moved by exactly (dx, dy); nothing outside the quadrant ahead moves; a wall refuses and changes nothing; at most one actor is appended |
| Protocol.Infront | ww/ww.py:25-34 | infront_moveable moves nothing outside the quadrant ahead of the target cell; an empty cell answers yes and changes nothing; a refusal moves nobody and lets no monster go; the asker's frozen list changes only by the monster there freezing to it on refusal |
| Protocol.PlayerMove | ww/ww.py:164-181 | a player refuses anyone but itself and any target off the stage, changing nothing; otherwise it pushes with the guarantees of Move |
| Protocol.Push | ww/ww.py:188-202 | Box.move refuses a target off the stage and changes nothing; on yes it moved by exactly (dx, dy) with its frozen list kept; on no nobody moved and no monster was let go (all-or-nothing push) |
| Protocol.IceBoxMove | ww/ww.py:218-228 | a successful ice-box push empties its frozen list and unfreezes every monster that was on it; a failed one is exactly the failed box push |
| Protocol.IceBoxRefused | ww/ww.py:218-228 | a failed ice-box push leaves its frozen list as it was, or with only the monster right in front appended |
| Protocol.ReleaseAnswers | ww/ww.py:222-227 | releasing after a successful push keeps the push's guarantees, empties the list and unfreezes every listed monster |
| Protocol.Release | ww/ww.py:222-226 | the release loop keeps the actor list, every actor's kind, both slots, the stage size and the winner flag, so the push's guarantees survive it |
| Protocol.ReleaseThaws | ww/ww.py:222-226 | after the release loop, each record is what Thaw says: the box's list is empty, every listed monster is unfrozen and nothing else is touched |
| Protocol.ThawStep | ww/ww.py:223-224 | one pop-and-unfreeze turn of the loop is the first step of the closed form |
| Protocol.FireWallMove | ww/ww.py:241-245 | an ice box asking puts the fire wall out and is answered yes; anyone else asking is marked dead, exactly one new fire wall is appended on its cell, and the answer is no |
| Protocol.MonsterMove | ww/ww.py:294-354 | a monster asked by anyone but itself answers no and does not move; a player asking is killed; an ice box asking freezes an unfrozen monster to itself and is refused; a yes means it moved by exactly (dx, dy) |
| Protocol.Reflect | ww/ww.py:303-311 | the heading is negated on exactly the axes along which one more step leaves the stage; nothing else changes |
| Protocol.ReflectStaysOnStage | ww/ww.py:303-311 | on a stage at least 2x2, a monster on the stage with a unit heading heads for a cell on the stage once reflected |
| Protocol.MonsterReply | ww/ww.py:314-325 | the requester checks after reflection: the player kill, the ice-box freeze, the refusal of others; asked by itself it answers as MonsterAhead; a yes means it moved by exactly (dx, dy) |
| Protocol.FreezeAnswers | ww/ww.py:318-322 | freezing to the asking ice box is a refusal with the guarantees of an answer |
| Protocol.CalmAnswers | ww/ww.py:303-325 | the reflection and the kill before a monster's reply do not break the guarantees of its answer |
| Protocol.MonsterAhead | ww/ww.py:329-340 | an ice box ahead freezes an unfrozen monster, which joins the end of the box's list and refuses; a fire wall ahead kills it and it refuses; otherwise MonsterMeets decides; a refusal moves nobody and lets no monster go; a yes means it moved by exactly (dx, dy) |
| Protocol.MonsterMeets | ww/ww.py:343-354 | a box or monster ahead negates the heading, otherwise the heading is kept; a player ahead is killed; the answer is yes exactly when it neither bounced nor reversed, and then it moved by exactly (dx, dy); on no nobody moved and no monster was let go |
| Protocol.MonsterOwnMove | ww/ww.py:294-354 | a monster asking itself steps by (dx, dy) exactly when the cell its heading points to is on the stage and holds nothing or a player, and otherwise stays on its cell |
| Protocol.MonsterOwnMeets | ww/ww.py:303-354 | a monster asking itself: a free monster freezes to an ice box ahead and joins the end of its list; a fire wall ahead kills it; a player ahead is killed; otherwise its heading is the reflected one, negated when a box or monster stands ahead |
| Protocol.MonsterOwnAhead | ww/ww.py:303-329 | asked by itself, Monster.move skips the requester checks and looks ahead from the reflected heading at the cell the old heading pointed to |
| Protocol.MoveIsMonsterMove | ww/ww.py:247-294 | every monster class but the shy one answers a request with Monster.move |
| Protocol.PusherLands | ww/ww.py:164-202 | a player or box asking itself to move ends exactly (dx, dy) further when told yes and on its own cell when told no |
| Protocol.ShyMove | ww/ww.py:386-412 | an ice box asking freezes an unfrozen shy monster to itself and is refused; with no player around it refuses and changes nothing; a player asking while a player is around is killed and answered yes, and nothing else changes; it refuses, changing nothing, to head into a player; otherwise it answers as a monster; every answer keeps the guarantees of Move |
| Monsters.Delay | ww/ww.py:44-51 | delay sets the count to (count + 1) mod delay and answers yes exactly when the count wrapped to 0; nothing else changes |
| Monsters.Cadence | ww/ww.py:44-51 | after n delays the count is (count + n) mod delay, so an actor starting at 0 acts on exactly every delay-th tick |
| Monsters.MonsterIsDead | ww/ww.py:260-279 | is_dead answers no exactly when the monster is not already dead and some in-bounds cell of its 3x3 block is empty or holds a player, and then changes nothing; otherwise it marks the monster dead and answers yes |
| Monsters.EvolveTarget | ww/ww.py:489-525 | Fire becomes Fire_Wall, Earth becomes Wall, Ice becomes Ice_Box, Shy becomes Stalker, and none of the targets can append actors |
| Monsters.EvolvingIsDead | ww/ww.py:493-525 | a Fire, Earth or Ice monster dies exactly as Monster.is_dead says; when it dies it is marked dead and one actor of its target class is appended on its cell, otherwise nothing changes |
| Monsters.OnlyBoxesDieTrans | ww/ww.py:422-428 | killing boxes cell after cell still only kills boxes |
| Monsters.KillBoxOnly | ww/ww.py:427-428 | killing a box found around the shy monster changes nothing but that box's flag |
| Monsters.OnlyBoxesDieGrows | ww/ww.py:422-428 | killing boxes leaves positions, kinds and the list alone |
| Monsters.TargetedFrame | ww/ww.py:422-425 | which actors the kill loop finds depends only on the list and the positions |
| Monsters.KillBoxesAround | ww/ww.py:422-428 | after the kill loop, exactly the boxes get_actor finds on the nine cells are dead and nothing else has changed |
| Monsters.FoundAfterKill | ww/ww.py:424-428 | killing a box does not change what get_actor finds on the later cells of the loop |
| Monsters.ShyIsDead | ww/ww.py:418-434 | a shy monster dies exactly as Monster.is_dead says; it then kills the boxes around it and turns into a stalker; otherwise nothing changes |
| Monsters.ShyDies | ww/ww.py:421-432 | the dead shy monster is marked dead, every box get_actor finds in its 3x3 block is dead, one stalker is appended on its cell, and nothing else changes |
| Monsters.ShyDeathKillsBoxes | ww/ww.py:422-428 | whatever box get_actor finds on any of the nine cells around a dying shy monster is dead afterwards |
| Monsters.IsDead | ww/ww.py:53-62 | non-monsters report their dead flag and change nothing; every monster's answer is Monster.is_dead's; only appending kinds append, at most one actor |
| Monsters.DeadEvolvesAgain | ww/ww.py:493-525 | the evolving is_dead is not idempotent: asking an already dead monster again appends another actor each time |
| Monsters.RunAway | ww/ww.py:378-384 | the heading changes only when the first player found stands on a diagonal; the new heading points to an empty in-bounds cell, or is (0, 0); when a player on a diagonal is found first, the heading becomes the first empty cell of the scan; only the heading is touched |
| Monsters.Sign | ww/ww.py:467-483 | the comparison chain yields 0, 1 or -1 by the sign of the difference |
| Monsters.Stalk | ww/ww.py:452-483 | stalk heads one step on each axis towards player 1 (0 on a level axis), or stops when the first slot is empty; only the heading changes |
| Monsters.StalkCloses | ww/ww.py:467-483 | following the stalk heading brings each coordinate one step closer to player 1 and never overshoots |
| Players.KeyDirection | ww/ww.py:117-157 | a key yields a step exactly when it belongs to the block of the player's number; each step is one of the eight non-zero unit steps |
| Players.KeyFor | ww/ww.py:122-157 | each of the eight steps has a key in each player's block |
| Players.KeyTableInverse | ww/ww.py:122-157 | no two keys of a block yield the same step: the table read backwards gives the key back |
| Players.HandleEvent | ww/ww.py:103-107 | handle_event remembers exactly the last key and changes nothing else |
| Players.PlayerEvent | ww/ww.py:607-622 | a key of player 1's block reaches player 1 when that slot is filled, and a key of player 2's block reaches player 2 likewise; only the record of the player a key is routed to can change; a key of a block whose slot is empty, any other key, or no player, changes nothing |
| Players.KeyBlocksDisjoint | ww/ww.py:610-614 | no key belongs to both blocks |
| Players.SetPlayer | ww/ww.py:577-588 | set_player fills both slots and appends player 1, then player 2 when present |
| Players.PlayersAfterSet | ww/ww.py:577-591 | after set_player, get_players names player 1 twice |
| Players.RemovePlayer | ww/ww.py:593-603 | remove_player empties the slot of the player's number and removes that slot's occupant from the list; other numbers change nothing |
| Players.RemoveAfterSet | ww/ww.py:577-603 | setting a single player and then removing it restores the list and empties the slot |
| Players.AnyMonster | ww/ww.py:653-655 | the loop finds a monster exactly when some listed actor is a monster |
| Players.GameOver | ww/ww.py:649-660 | game_over answers no exactly when a slot is filled and a monster is listed; it sets the winner flag exactly when a slot is filled and no monster is listed; nothing else changes |
| Turns.Weight | ww/ww.py:630-635 | the weight of an actor is 1 exactly when its turn cannot append an actor |
| Turns.PotAppend | ww/ww.py:630-635 | the weight of a list is additive over concatenation |
| Turns.PotFrame | ww/ww.py:630-635 | weights depend only on kinds, which no turn changes |
| Turns.PotLight | ww/ww.py:630-635 | actors that cannot append weigh one each |
| Turns.RestSplit | ww/ww.py:630-635 | the weight from position i is the weight of the actor there plus the weight from i + 1 |
| Turns.GrowsBounded | ww/ww.py:624-625 | appending n non-appending actors raises the weight from any position by at most n |
| Turns.RemoveBounded | ww/ww.py:627-628 | removing an actor raises the weight from no position |
| Turns.BoundedTrans | ww/ww.py:630-635 | weight bounds compose |
| Turns.ActorStep | ww/ww.py:53-59 | the actor's own is_dead decides: the records are those is_dead leaves, and the actor's first occurrence is taken off the list exactly when is_dead says it is dead; a non-monster's records are untouched; the weight still to walk rises by less than the actor's own |
| Turns.RemovePlayerBounded | ww/ww.py:593-603 | removing a player raises the weight from no position |
| Turns.PlayerAct | ww/ww.py:117-162 | with no key pending the step changes nothing; afterwards no key is pending; a key outside the player's block only clears it; a key of its block leaves the player one step further in that direction exactly when the move answered yes, and on its cell otherwise |
| Turns.PlayerStep | ww/ww.py:109-162 | a dead player empties its own slot and then acts on its pending key just as PlayerAct does on the stage after removal; a live player keeps both slots; afterwards no key is pending; the player ends on its cell or one step further in the direction of its pending key; with no key pending no record changes |
| Turns.MonsterAct | ww/ww.py:285-292 | a frozen monster, or one whose count did not wrap, only advances its count; an unfrozen monster whose count wraps asks itself to move along its heading on the delayed stage |
| Turns.MonsterTurnLands | ww/ww.py:285-292 | an unfrozen monster other than the shy one whose count wraps steps along its heading exactly when the cell it points to is on the stage and empty or holds a player, and keeps its cell otherwise |
| Turns.MonsterStep | ww/ww.py:281-292 | a monster's step is Actor.step followed by the delay and move of MonsterAct; it keeps the slots and the winner flag and raises the weight still to walk by less than its own |
| Turns.HeldMonsterStays | ww/ww.py:285-290 | a monster that is frozen, or whose count does not wrap, keeps its cell and its frozen flag through its step |
| Turns.ActHeld | ww/ww.py:285-290 | the same for the act half of the step |
| Turns.ShyStep | ww/ww.py:414-416 | a shy monster's step is a monster's step followed by run_away; it keeps the slots and bounds the weight |
| Turns.StalkerStep | ww/ww.py:485-487 | after a stalker's step its heading is the sign of its offset to player 1, or (0, 0) when the first slot is empty |
| Turns.StepActor | ww/ww.py:630-635 | each turn of the walk lowers the weight still to walk from the next position below the weight from the current one, changes no kind and shrinks no arena |
| Turns.StepFrom | ww/ww.py:630-635 | the walk terminates with every actor's kind unchanged and the stage size kept |
| Turns.Step | ww/ww.py:630-635 | a tick terminates, keeps the stage size and changes no actor's kind |
| Turns.StepSkipsDeadBox | ww/ww.py:53-59 | a dead box, wall or fire wall met by the walk takes itself off the list and the walk goes on from the next position of the shortened list |
| Turns.StepPassesLiveBox | ww/ww.py:53-59 | a live box, wall or fire wall met by the walk changes nothing and the walk goes on from the next position |
| Engine.Stage.constructor | ww/ww.py:529-557 | the new stage object is the empty stage |
| Engine.Stage.Construct | ww/ww.py:8-14 | constructing an actor gives it the next handle without listing it |
| Engine.Stage.Kill | ww/ww.py:64-65 | the object after kill is Grid.Kill of the object before |
| Engine.Stage.SetFrozen | ww/ww.py:257-258 | the object after set_frozen is Grid.SetFrozen of the object before |
| Engine.Stage.Shift | ww/ww.py:36-42 | the object after Actor.move is Grid.Shift of the object before |
| Engine.Stage.Freeze | ww/ww.py:215-216 | the object after add_to_frozen and the freeze is Grid.Freeze of the object before |
| Engine.Stage.Delay | ww/ww.py:44-51 | the object and answer of delay are those of Monsters.Delay |
| Engine.Stage.EvolveInto | ww/ww.py:67-75 | the object after evolve_into is Grid.EvolveInto of the object before |
| Engine.Stage.AddActor | ww/ww.py:624-625 | the object after add_actor is Grid.AddActor of the object before |
| Engine.Stage.RemoveActor | ww/ww.py:627-628 | the object after remove_actor is Grid.RemoveActor of the object before |
| Engine.Stage.GetActor | ww/ww.py:640-647 | the loop of get_actor answers Grid.GetActor |
| Engine.Stage.SetPlayer | ww/ww.py:577-588 | the object after set_player is Players.SetPlayer of the object before |
| Engine.Stage.RemovePlayer | ww/ww.py:593-603 | the object after remove_player is Players.RemovePlayer of the object before |
| Engine.Stage.PlayerEvent | ww/ww.py:607-622 | the object after player_event is Players.PlayerEvent of the object before |
| Engine.Stage.GameOver | ww/ww.py:649-660 | the loop of game_over gives the object and answer of Players.GameOver |
| Engine.Stage.Release | ww/ww.py:222-226 | the pop loop of Ice_Box.move leaves the object as Protocol.Release says |
| Engine.Stage.Move | ww/ww.py:36-42 | a move request leaves the object and answer of Protocol.Move |
| Engine.Stage.Infront | ww/ww.py:25-34 | infront_moveable leaves the object and answer of Protocol.Infront |
| Engine.Stage.PlayerMove | ww/ww.py:164-181 | Player.move leaves the object and answer of Protocol.PlayerMove |
| Engine.Stage.Push | ww/ww.py:188-202 | Box.move leaves the object and answer of Protocol.Push |
| Engine.Stage.IceBoxMove | ww/ww.py:218-228 | Ice_Box.move leaves the object and answer of Protocol.IceBoxMove |
| Engine.Stage.FireWallMove | ww/ww.py:241-245 | Fire_Wall.move leaves the object and answer of Protocol.FireWallMove, whatever the step asked for |
| Engine.Stage.MonsterMove | ww/ww.py:294-354 | Monster.move leaves the object and answer of Protocol.MonsterMove |
| Engine.Stage.MonsterReply | ww/ww.py:314-325 | the requester checks leave the object and answer of Protocol.MonsterReply |
| Engine.Stage.MonsterAhead | ww/ww.py:329-340 | the look ahead leaves the object and answer of Protocol.MonsterAhead |
| Engine.Stage.MonsterMeets | ww/ww.py:343-354 | the bounce, the kill and the step leave the object and answer of Protocol.MonsterMeets |
| Engine.Stage.ShyMove | ww/ww.py:386-412 | Shy_Monster.move leaves the object and answer of Protocol.ShyMove |
| Engine.Stage.ScanForRoom | ww/ww.py:265-277 | the loop nest of is_dead finds room exactly when some in-bounds cell of the 3x3 block is empty or holds a player |
| Engine.Stage.IsOpen | ww/ww.py:269-276 | the test of one cell in is_dead is Neighbourhood.Open |
| Engine.Stage.MonsterIsDead | ww/ww.py:260-279 | Monster.is_dead leaves the object and answer of Monsters.MonsterIsDead |
| Engine.Stage.Surroundings | ww/ww.py:364-376 | the loop nest of surroundings answers Neighbourhood.Surroundings |
| Engine.Stage.Sense | ww/ww.py:371-374 | the test of one cell in surroundings is Neighbourhood.Sensed |
| Engine.Stage.KillBoxesAround | ww/ww.py:422-428 | the kill loop of Shy_Monster.is_dead leaves the object as Monsters.KillBoxesAround says |
| Engine.Stage.KillStep | ww/ww.py:424-428 | one turn of the kill loop extends the boxes killed by one cell |
| Engine.Stage.EvolvingIsDead | ww/ww.py:493-525 | the evolving is_dead leaves the object and answer of Monsters.EvolvingIsDead |
| Engine.Stage.ShyIsDead | ww/ww.py:418-434 | Shy_Monster.is_dead leaves the object and answer of Monsters.ShyIsDead |
| Engine.Stage.IsDead | ww/ww.py:53-62 | is_dead, dispatched on the class, leaves the object and answer of Monsters.IsDead |
| Engine.Stage.ActorStep | ww/ww.py:53-59 | Actor.step leaves the object as Turns.ActorStep says |
| Engine.Stage.PlayerAct | ww/ww.py:117-162 | the key handling of KeyboardPlayer.step leaves the object as Turns.PlayerAct says |
| Engine.Stage.PlayerStep | ww/ww.py:109-162 | KeyboardPlayer.step leaves the object as Turns.PlayerStep says |
| Engine.Stage.MonsterAct | ww/ww.py:285-292 | the cadence and move of Monster.step leave the object as Turns.MonsterAct says |
| Engine.Stage.MonsterStep | ww/ww.py:281-292 | Monster.step leaves the object as Turns.MonsterStep says |
| Engine.Stage.RunAway | ww/ww.py:378-384 | run_away leaves the object as Monsters.RunAway says |
| Engine.Stage.Stalk | ww/ww.py:452-483 | stalk leaves the object as Monsters.Stalk says |
| Engine.Stage.ShyStep | ww/ww.py:414-416 | Shy_Monster.step leaves the object as Turns.ShyStep says |
| Engine.Stage.StalkerStep | ww/ww.py:485-487 | Stalker_Monster.step leaves the object as Turns.StalkerStep says |
| Engine.Stage.StepActor | ww/ww.py:634-635 | a.step() for the actor at a position, dispatched on its class, leaves the object as Turns.StepActor says |
| Engine.Stage.Step | ww/ww.py:630-635 | the walk over the list, which re-reads its length every turn, leaves the object as Turns.Step says |
| Engine.HitInMeans | ww/ww.py:422-428 | an actor is hit by the kill loop over some cells exactly when get_actor finds it on one of them |
| Engine.KilledIn | ww/ww.py:422-428 | the boxes killed over a prefix of the cells only kill boxes |
| Engine.KilledNone | ww/ww.py:422-428 | before the first cell nothing is killed |
| Engine.KilledAll | ww/ww.py:422-428 | after all nine cells the kill loop's result is Monsters.KillBoxesAround |
| Engine.KilledStep | ww/ww.py:424-428 | killing the box on one more cell is one more cell of the closed form |

## Left out

- Images and display are not modelled: icons and `get_icon`, `Shy_Monster.get_icon` and its use of `random`, `Stage.draw`, and the pixel and screen fields of `Stage.__init__`. They only affect what is shown.
- ww/wwgame.py is not part of this model. It holds the pygame start screen, the random placement of boxes, the frame-timed event loop and the end screen, all host I/O and randomness.
- pygame key codes are replaced by the enumeration `Grid.Key`. Only the mapping structure of the key table and of `player_event` is kept.
- The getters `set_position`, `get_position`, `get_width`, `get_height`, `is_winner`, `get_actors` and `get_player_number` are plain field reads and writes of the records.
- The `Player` base class is never instantiated. Only `KeyboardPlayer` is modelled, as the `Player` kind.
- `Actor` itself is never instantiated, so `Actor.move` appears only where the overrides call it (`Grid.Shift`).
- Grid.RemoveFirst: Python's `list.remove` raises `ValueError` when the actor is not listed; the model keeps the list unchanged instead. This happens, for example, when an actor removed earlier is removed again.
- Players.RemovePlayer: when the slot named by the player's number is empty, `remove_player` calls `remove_actor(None)`, whose `list.remove` raises `ValueError` (ww/ww.py:597-598); the model skips the removal and only empties the slot.
- Protocol.Move: requires `(dx, dy) != (0, 0)` for players, boxes and ice boxes. No caller in the source asks them for `(0, 0)`, and for such a request Python would recurse until `RecursionError`.
- Grid.Valid: requires every monster's delay to be positive. A delay of 0 raises `ZeroDivisionError` in `Actor.delay`, and every constructor in the source passes a positive delay.
- Protocol.FireWallMove: the `None` that `Fire_Wall.move` returns after converting the pusher is modelled as the answer no, which is how every caller reads it.
