/** One instruction of the hoover: decode the character, compute the
    neighbouring cell, and move there only if it lies inside the room. */
module Hoover {
  import opened Grid

  /** The position after executing instruction `c` from `p`. An ignored
      character, or a step that would leave the room, keeps the hoover where
      it is; there is no clamping to the wall. */
  function Move(room: Room, p: Pos, c: char): (q: Pos)
    // ignored characters do nothing
    ensures Decode(c).None? ==> q == p
    // a direction moves the hoover exactly when its target is in the room,
    // and then to that target
    ensures Decode(c).Some? ==>
              (q != p <==> InRoom(room, Translate(p, Decode(c).value)))
    ensures q != p ==> Decode(c).Some? && q == Translate(p, Decode(c).value)
    // an accepted move lands in the room; a hoover in the room stays there
    ensures q != p ==> InRoom(room, q)
    ensures InRoom(room, p) ==> InRoom(room, q)
    // at most one unit along one axis
    ensures q == p || Adjacent(p, q)
  {
    match Decode(c)
    case None => p
    case Some(d) =>
      var target := Translate(p, d);
      if InRoom(room, target) then target else p
  }

  const Int32Min: int := -0x8000_0000
  const Int32Max: int := 0x7FFF_FFFF

  predicate IsInt32(v: int) {
    Int32Min <= v <= Int32Max
  }

  /** Two's-complement wrap-around of a 32-bit addition result. */
  function Wrap32(v: int): (r: int)
    ensures IsInt32(r)
    ensures IsInt32(v) ==> r == v
    ensures (r - v) % 0x1_0000_0000 == 0
  {
    (v - Int32Min) % 0x1_0000_0000 + Int32Min
  }

  /** The move as `CleaningService.moveHoover` computes it, with `newX` and
      `newY` wrapping around on 32-bit overflow before the bounds check. */
  function MoveInt32(room: Room, p: Pos, c: char): (q: Pos)
    ensures Decode(c).None? ==> q == p
    // whatever the wrap produces, an accepted target is inside the room
    ensures q == p || InRoom(room, q)
    // a changed position has 32-bit coordinates, the wrapped target
    ensures q != p ==> Decode(c).Some? && IsInt32(q.x) && IsInt32(q.y)
  {
    match Decode(c)
    case None => p
    case Some(d) =>
      var t := Translate(p, d);
      var target := Pos(Wrap32(t.x), Wrap32(t.y));
      if InRoom(room, target) then target else p
  }

  /** For 32-bit room extents and coordinates, the wrapped computation and the
      unbounded one agree: a coordinate that overflows wraps to the far side
      of the integer range, which the bounds check rejects just as it rejects
      the unwrapped value. So unbounded integers model `moveHoover` exactly. */
  lemma Int32MoveAgrees(room: Room, p: Pos, c: char)
    requires IsInt32(room.width) && IsInt32(room.height)
    requires IsInt32(p.x) && IsInt32(p.y)
    ensures MoveInt32(room, p, c) == Move(room, p, c)
  {
  }
}
