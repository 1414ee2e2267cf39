// The 3x3 neighbourhood scans of ww/ww.py: Shy_Monster.surroundings and the
// enclosure test inside Monster.is_dead. Both walk the offsets with the loop
// nest `for x in range(-1, 2): for y in range(-1, 2)`.

module Neighbourhood {
  import opened Grid

  /** The nine offsets in the order of the loop nest: x outer, y inner. */
  function Offsets(): (o: seq<(int, int)>)
    ensures |o| == 9
    ensures forall k :: 0 <= k < 9 ==> -1 <= o[k].0 <= 1 && -1 <= o[k].1 <= 1
  {
    [(-1, -1), (-1, 0), (-1, 1), (0, -1), (0, 0), (0, 1), (1, -1), (1, 0), (1, 1)]
  }

  /** The cells of the 3x3 block around (cx, cy), in the order of the scan. */
  function ScanCells(cx: int, cy: int): (c: seq<(int, int)>)
    ensures |c| == 9
    ensures forall k :: 0 <= k < 9 ==> c[k] == (cx + Offsets()[k].0, cy + Offsets()[k].1)
  {
    seq(9, k requires 0 <= k < 9 => (cx + Offsets()[k].0, cy + Offsets()[k].1))
  }

  /** Offset (ox, oy) comes before (px, py) in the scan. */
  predicate ScansBefore(ox: int, oy: int, px: int, py: int) {
    ox < px || (ox == px && oy < py)
  }

  /** The position of an offset of the 3x3 block in the scan. */
  lemma OffsetIndex(ox: int, oy: int) returns (k: nat)
    requires -1 <= ox <= 1 && -1 <= oy <= 1
    ensures k < 9 && Offsets()[k] == (ox, oy) && k == 3 * (ox + 1) + (oy + 1)
  {
    k := 3 * (ox + 1) + (oy + 1);
  }

  /** The scan order of the list is the lexicographic order of the offsets. */
  lemma OffsetsOrdered(j: nat, k: nat)
    requires j < k < 9
    ensures ScansBefore(Offsets()[j].0, Offsets()[j].1, Offsets()[k].0, Offsets()[k].1)
  {
  }

  /** What Shy_Monster.surroundings looks for: a Player, or no actor at all (type(None)). */
  datatype Probe = PlayerProbe | EmptyProbe

  /** The in-bounds cell at offset (ox, oy) from actor h holds what the probe looks for. */
  predicate Sensed(w: World, h: Handle, p: Probe, ox: int, oy: int)
    requires Valid(w) && h < |w.arena|
  {
    var cx, cy := w.arena[h].x + ox, w.arena[h].y + oy;
    InBounds(w, cx, cy) &&
    match p
    case PlayerProbe => PlayerAt(w, cx, cy)
    case EmptyProbe => GetActor(w, cx, cy).None?
  }

  /** The first offset at or after position k of the scan that the probe senses. */
  function FirstSensed(w: World, h: Handle, p: Probe, k: nat): (r: Option<nat>)
    requires Valid(w) && h < |w.arena| && k <= 9
    ensures r.Some? ==> k <= r.value < 9 && Sensed(w, h, p, Offsets()[r.value].0, Offsets()[r.value].1)
    ensures r.Some? ==> forall j :: k <= j < r.value ==> !Sensed(w, h, p, Offsets()[j].0, Offsets()[j].1)
    ensures r.None? ==> forall j :: k <= j < 9 ==> !Sensed(w, h, p, Offsets()[j].0, Offsets()[j].1)
    decreases 9 - k
  {
    if k == 9 then None
    else if Sensed(w, h, p, Offsets()[k].0, Offsets()[k].1) then Some(k)
    else FirstSensed(w, h, p, k + 1)
  }

  /** One step of the scan: offset (ox, oy) is sensed, or the search goes on with the next one. */
  lemma FirstSensedAt(w: World, h: Handle, p: Probe, ox: int, oy: int)
    requires Valid(w) && h < |w.arena| && -1 <= ox <= 1 && -1 <= oy <= 1
    ensures var k := 3 * (ox + 1) + (oy + 1);
            FirstSensed(w, h, p, k) == if Sensed(w, h, p, ox, oy) then Some(k) else FirstSensed(w, h, p, k + 1)
  {
    var k := OffsetIndex(ox, oy);
  }

  /**
   * Shy_Monster.surroundings: the first offset in scan order whose in-bounds
   * cell holds what the probe looks for, and (0, 0) when there is none.
   */
  function Surroundings(w: World, h: Handle, p: Probe): (r: (int, int))
    requires Valid(w) && h < |w.arena|
    ensures -1 <= r.0 <= 1 && -1 <= r.1 <= 1
    ensures r != (0, 0) ==> Sensed(w, h, p, r.0, r.1)
    ensures r == (0, 0) ==> Sensed(w, h, p, 0, 0) ||
                            forall ox, oy :: -1 <= ox <= 1 && -1 <= oy <= 1 ==> !Sensed(w, h, p, ox, oy)
    ensures forall ox, oy :: -1 <= ox <= 1 && -1 <= oy <= 1 && ScansBefore(ox, oy, r.0, r.1) ==>
                             !Sensed(w, h, p, ox, oy)
  {
    match FirstSensed(w, h, p, 0)
    case None =>
      assert forall ox, oy :: -1 <= ox <= 1 && -1 <= oy <= 1 ==> !Sensed(w, h, p, ox, oy) by {
        forall ox, oy | -1 <= ox <= 1 && -1 <= oy <= 1 ensures !Sensed(w, h, p, ox, oy) {
          var k := OffsetIndex(ox, oy);
        }
      }
      (0, 0)
    case Some(k) =>
      var r := Offsets()[k];
      assert forall ox, oy :: -1 <= ox <= 1 && -1 <= oy <= 1 && ScansBefore(ox, oy, r.0, r.1) ==>
                              !Sensed(w, h, p, ox, oy) by {
        forall ox, oy | -1 <= ox <= 1 && -1 <= oy <= 1 && ScansBefore(ox, oy, r.0, r.1)
          ensures !Sensed(w, h, p, ox, oy)
        {
          var j := OffsetIndex(ox, oy);
        }
      }
      r
  }

  /** Monster.is_dead's test for one cell: in bounds and empty or holding a Player. */
  predicate Open(w: World, h: Handle, ox: int, oy: int)
    requires Valid(w) && h < |w.arena|
  {
    Sensed(w, h, PlayerProbe, ox, oy) || Sensed(w, h, EmptyProbe, ox, oy)
  }

  /** Some offset of the scan, the actor's own cell included, is open. */
  predicate HasRoom(w: World, h: Handle)
    requires Valid(w) && h < |w.arena|
  {
    exists k :: 0 <= k < 9 && Open(w, h, Offsets()[k].0, Offsets()[k].1)
  }

  /** HasRoom is "some cell of the 3x3 block around the actor is open". */
  lemma HasRoomMeans(w: World, h: Handle)
    requires Valid(w) && h < |w.arena|
    ensures HasRoom(w, h) <==> exists ox, oy :: -1 <= ox <= 1 && -1 <= oy <= 1 && Open(w, h, ox, oy)
  {
    if exists ox, oy :: -1 <= ox <= 1 && -1 <= oy <= 1 && Open(w, h, ox, oy) {
      var ox, oy :| -1 <= ox <= 1 && -1 <= oy <= 1 && Open(w, h, ox, oy);
      var k := OffsetIndex(ox, oy);
    }
  }
}
