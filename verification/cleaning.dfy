/** The cleaning run: build the set of dirty patches, clean the start cell,
    then execute the instructions left to right, cleaning every cell the
    hoover stands on after each instruction. */
module Cleaning {
  import opened Grid
  import opened Hoover

  /** The simulation state: where the hoover is, which patches are still
      dirty, and how many have been cleaned so far. */
  datatype State = State(pos: Pos, dirty: set<Pos>, cleaned: nat)

  /** The hoover never stands on a dirty patch between instructions. */
  predicate Consistent(s: State) {
    s.pos !in s.dirty
  }

  /** The patch list collected into a set, element by element; repeated
      coordinates collapse to one patch. */
  function PatchSet(patches: seq<Pos>): (r: set<Pos>)
    ensures forall q :: q in r <==> q in patches
    ensures |r| <= |patches|
    decreases |patches|
  {
    if patches == [] then {}
    else PatchSet(patches[..|patches| - 1]) + {patches[|patches| - 1]}
  }

  /** Cleans the cell under the hoover, if it is dirty. */
  function Visit(s: State): (r: State)
    ensures r.pos == s.pos && Consistent(r)
    ensures r.dirty == s.dirty - {s.pos}
    ensures r.cleaned == s.cleaned + (if s.pos in s.dirty then 1 else 0)
    ensures r.cleaned + |r.dirty| == s.cleaned + |s.dirty|
  {
    if s.pos in s.dirty then State(s.pos, s.dirty - {s.pos}, s.cleaned + 1)
    else s
  }

  /** The state before the first instruction: the patch set with the start
      cell already cleaned. */
  function Init(start: Pos, patches: seq<Pos>): (r: State)
    ensures r.pos == start && Consistent(r)
    ensures r.dirty <= PatchSet(patches)
    ensures r.cleaned + |r.dirty| == |PatchSet(patches)|
  {
    Visit(State(start, PatchSet(patches), 0))
  }

  /** One loop iteration: move, then clean the cell now under the hoover. */
  function Step(room: Room, s: State, c: char): (r: State)
    ensures Consistent(r)
    ensures r.dirty <= s.dirty && r.cleaned >= s.cleaned
    ensures r.cleaned + |r.dirty| == s.cleaned + |s.dirty|
    ensures Consistent(s) && Decode(c).None? ==> r == s
  {
    Visit(s.(pos := Move(room, s.pos, c)))
  }

  /** Executes the instructions left to right. */
  function Run(room: Room, s: State, instructions: seq<char>): (r: State)
    ensures InRoom(room, s.pos) ==> InRoom(room, r.pos)
    ensures Consistent(s) ==> Consistent(r)
    ensures r.dirty <= s.dirty && r.cleaned >= s.cleaned
    ensures r.cleaned + |r.dirty| == s.cleaned + |s.dirty|
    decreases |instructions|
  {
    if instructions == [] then s
    else Run(room, Step(room, s, instructions[0]), instructions[1..])
  }

  /** The whole service call: final position and number of cleaned patches. */
  function Process(room: Room, start: Pos, patches: seq<Pos>, instructions: seq<char>)
    : (r: (Pos, nat))
    ensures InRoom(room, start) ==> InRoom(room, r.0)
    ensures r.1 <= |PatchSet(patches)|
    ensures r.1 <= |patches|
  {
    var s := Run(room, Init(start, patches), instructions);
    (s.pos, s.cleaned)
  }

  // ---------------------------------------------------------------------
  // A reference description of the run that does not mention patches: the
  // path the hoover walks.

  /** The position after all instructions, from `p`. */
  function Walk(room: Room, p: Pos, instructions: seq<char>): Pos
    decreases |instructions|
  {
    if instructions == [] then p
    else Walk(room, Move(room, p, instructions[0]), instructions[1..])
  }

  /** The cells the hoover stands on after each instruction, from `p`. */
  function Visited(room: Room, p: Pos, instructions: seq<char>): set<Pos>
    decreases |instructions|
  {
    if instructions == [] then {}
    else
      var q := Move(room, p, instructions[0]);
      {q} + Visited(room, q, instructions[1..])
  }

  /** Every cell the hoover occupies after an instruction is in the room,
      when it starts in the room. */
  lemma {:induction false} VisitedInRoom(room: Room, p: Pos, instructions: seq<char>)
    requires InRoom(room, p)
    ensures forall q :: q in Visited(room, p, instructions) ==> InRoom(room, q)
    decreases |instructions|
  {
    if instructions != [] {
      VisitedInRoom(room, Move(room, p, instructions[0]), instructions[1..]);
    }
  }

  /** |A| splits into the part outside B and the part inside B. */
  lemma SplitCard(a: set<Pos>, b: set<Pos>)
    ensures |a| == |a - b| + |a * b|
  {
  }

  /** The run, described by the path alone: the hoover ends where the walk
      ends, the dirty patches left are those off the path, and every patch on
      the path was cleaned once. */
  lemma {:induction false} RunFollowsPath(room: Room, s: State, instructions: seq<char>)
    ensures Run(room, s, instructions).pos == Walk(room, s.pos, instructions)
    ensures Run(room, s, instructions).dirty == s.dirty - Visited(room, s.pos, instructions)
    ensures Run(room, s, instructions).cleaned
            == s.cleaned + |s.dirty * Visited(room, s.pos, instructions)|
    decreases |instructions|
  {
    var r := Run(room, s, instructions);
    var v := Visited(room, s.pos, instructions);
    if instructions != [] {
      var s' := Step(room, s, instructions[0]);
      RunFollowsPath(room, s', instructions[1..]);
    }
    SplitCard(s.dirty, v);
  }

  /** The service's answer, stated without the loop: the final position is
      the end of the walk, and the count is the number of distinct patches
      on the path, start cell included. */
  lemma ProcessCountsPatchesOnPath(room: Room, start: Pos, patches: seq<Pos>,
                                   instructions: seq<char>)
    ensures Process(room, start, patches, instructions)
            == (Walk(room, start, instructions),
                |PatchSet(patches) * ({start} + Visited(room, start, instructions))|)
  {
    var p := PatchSet(patches);
    var path := {start} + Visited(room, start, instructions);
    var s0 := Init(start, patches);
    RunFollowsPath(room, s0, instructions);
    var r := Run(room, s0, instructions);
    assert r.dirty == p - path;
    SplitCard(p, path);
  }

  /** Running a concatenation is running the parts one after the other. */
  lemma {:induction false} RunAppend(room: Room, s: State, u: seq<char>, v: seq<char>)
    ensures Run(room, s, u + v) == Run(room, Run(room, s, u), v)
    decreases |u|
  {
    if u != [] {
      assert (u + v)[0] == u[0];
      assert (u + v)[1..] == u[1..] + v;
      RunAppend(room, Step(room, s, u[0]), u[1..], v);
    } else {
      assert u + v == v;
    }
  }

  /** The instructions with every ignored character deleted. */
  function Commands(instructions: seq<char>): (r: seq<char>)
    ensures |r| <= |instructions|
    ensures forall i :: 0 <= i < |r| ==> Decode(r[i]).Some?
    ensures forall c :: c in r <==> c in instructions && Decode(c).Some?
    // a string of directions only is kept whole; one of ignored characters only vanishes
    ensures (forall i :: 0 <= i < |instructions| ==> Decode(instructions[i]).Some?)
              ==> r == instructions
    ensures (forall i :: 0 <= i < |instructions| ==> Decode(instructions[i]).None?)
              ==> r == []
    decreases |instructions|
  {
    if instructions == [] then []
    else if Decode(instructions[0]).Some? then [instructions[0]] + Commands(instructions[1..])
    else Commands(instructions[1..])
  }

  /** Filtering distributes over concatenation, so it deletes characters in
      place: the kept characters stay in their order and multiplicity. */
  lemma {:induction false} CommandsAppend(u: seq<char>, v: seq<char>)
    ensures Commands(u + v) == Commands(u) + Commands(v)
    decreases |u|
  {
    if u == [] {
      assert u + v == v;
    } else {
      assert (u + v)[0] == u[0];
      assert (u + v)[1..] == u[1..] + v;
      CommandsAppend(u[1..], v);
    }
  }

  /** From a consistent state, deleting the ignored characters changes
      nothing about the run. */
  lemma {:induction false} RunIgnoresNoise(room: Room, s: State, instructions: seq<char>)
    requires Consistent(s)
    ensures Run(room, s, Commands(instructions)) == Run(room, s, instructions)
    decreases |instructions|
  {
    if instructions != [] {
      var c := instructions[0];
      var s' := Step(room, s, c);
      RunIgnoresNoise(room, s', instructions[1..]);
      if Decode(c).Some? {
        var w := [c] + Commands(instructions[1..]);
        assert w[0] == c && w[1..] == Commands(instructions[1..]);
      }
    }
  }

  /** Deleting every ignored character from the instructions changes neither
      the final position nor the count. */
  lemma ProcessIgnoresNoise(room: Room, start: Pos, patches: seq<Pos>, instructions: seq<char>)
    ensures Process(room, start, patches, Commands(instructions))
            == Process(room, start, patches, instructions)
  {
    RunIgnoresNoise(room, Init(start, patches), instructions);
  }

  /** Inserting one ignored character anywhere changes neither the final
      position nor the count. */
  lemma ProcessIgnoresInsertedNoise(room: Room, start: Pos, patches: seq<Pos>,
                                    before: seq<char>, c: char, after: seq<char>)
    requires Decode(c).None?
    ensures Process(room, start, patches, before + [c] + after)
            == Process(room, start, patches, before + after)
  {
    var s0 := Init(start, patches);
    var s1 := Run(room, s0, before);
    RunAppend(room, s0, before, [c] + after);
    RunAppend(room, s0, before, after);
    assert before + [c] + after == before + ([c] + after);
    assert ([c] + after)[0] == c && ([c] + after)[1..] == after;
    assert Run(room, s1, [c] + after) == Run(room, Step(room, s1, c), after);
  }

  /** With no instructions the hoover stays at the start, and the count is 1
      exactly when the start cell is one of the patches. */
  lemma EmptyInstructions(room: Room, start: Pos, patches: seq<Pos>)
    ensures Process(room, start, patches, []) == (start, if start in patches then 1 else 0)
  {
  }

  /** The answer depends on the patch list only through the set of cells it
      names: order and repetition do not matter. */
  lemma PatchListMattersOnlyAsSet(room: Room, start: Pos, p1: seq<Pos>, p2: seq<Pos>,
                                 instructions: seq<char>)
    requires forall q :: q in p1 <==> q in p2
    ensures Process(room, start, p1, instructions) == Process(room, start, p2, instructions)
  {
    assert PatchSet(p1) == PatchSet(p2);
  }

  /** A repeated patch is cleaned, and counted, once. */
  lemma DuplicatePatchCountsOnce(room: Room, start: Pos, patches: seq<Pos>, i: nat,
                                 instructions: seq<char>)
    requires i < |patches|
    ensures Process(room, start, patches + [patches[i]], instructions)
            == Process(room, start, patches, instructions)
  {
    PatchListMattersOnlyAsSet(room, start, patches + [patches[i]], patches, instructions);
  }

  /** `n` copies of the instruction `c`. */
  function Repeat(c: char, n: nat): (r: seq<char>)
    ensures |r| == n && forall i :: 0 <= i < n ==> r[i] == c
  {
    if n == 0 then [] else [c] + Repeat(c, n - 1)
  }

  function Min(a: int, b: int): int {
    if a <= b then a else b
  }

  /** Driving north `n` times from a cell in the room climbs until the top
      row and then stays there: blocked moves are discarded, not clamped. */
  lemma {:induction false} WalkNorth(room: Room, p: Pos, n: nat)
    requires InRoom(room, p)
    ensures Walk(room, p, Repeat('N', n)) == Pos(p.x, Min(p.y + n, room.height - 1))
    decreases n
  {
    if n > 0 {
      var w := Repeat('N', n);
      assert w[0] == 'N' && w[1..] == Repeat('N', n - 1);
      WalkNorth(room, Move(room, p, 'N'), n - 1);
    }
  }
}
