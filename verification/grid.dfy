/** The grid the hoover lives on: value positions, the room rectangle and the
    four compass directions with their one-character instruction codes. */
module Grid {

  /** A cell of the grid. Equality is by coordinates, like the value class
      the service keeps in its hash set. */
  datatype Pos = Pos(x: int, y: int)

  /** The room's extent; its cells are the half-open rectangle
      [0, width) x [0, height). Degenerate extents describe an empty room. */
  datatype Room = Room(width: int, height: int)

  predicate InRoom(room: Room, p: Pos) {
    0 <= p.x < room.width && 0 <= p.y < room.height
  }

  datatype Option<T> = None | Some(value: T)

  /** The four directions the hoover understands. North increases y, east
      increases x. */
  datatype Dir = North | South | East | West

  /** `q` is one unit away from `p` along exactly one axis. */
  predicate Adjacent(p: Pos, q: Pos) {
    || (q.x == p.x && (q.y == p.y + 1 || q.y == p.y - 1))
    || (q.y == p.y && (q.x == p.x + 1 || q.x == p.x - 1))
  }

  /** The neighbour of `p` one step in direction `d`. */
  function Translate(p: Pos, d: Dir): (q: Pos)
    ensures Adjacent(p, q)
  {
    match d
    case North => Pos(p.x, p.y + 1)
    case South => Pos(p.x, p.y - 1)
    case East => Pos(p.x + 1, p.y)
    case West => Pos(p.x - 1, p.y)
  }

  /** The instruction character for a direction. */
  function Encode(d: Dir): (c: char)
    ensures Decode(c) == Some(d)
  {
    match d
    case North => 'N'
    case South => 'S'
    case East => 'E'
    case West => 'W'
  }

  /** Reads one instruction character; only the upper-case letters N, S, E
      and W are directions, every other character is an ignored instruction. */
  function Decode(c: char): (r: Option<Dir>)
    ensures r.Some? <==> c in "NSEW"
  {
    match c
    case 'N' => Some(North)
    case 'S' => Some(South)
    case 'E' => Some(East)
    case 'W' => Some(West)
    case _ => None
  }

  /** Decoding and encoding are inverse on the four direction characters:
      every recognised character is the code of the direction it reads as. */
  lemma DecodeEncodeInverse(c: char)
    ensures Decode(c).Some? ==> Encode(Decode(c).value) == c
  {
  }
}
