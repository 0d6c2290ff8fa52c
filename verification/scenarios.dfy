/** The service's test scenarios, stated as facts about the model. */
module Scenarios {
  import opened Grid
  import opened Hoover
  import opened Cleaning

  /** A run is determined by the cells it passes through: if each cell follows
      from the previous one by one instruction, the hoover ends in the last
      cell and the count is the number of patches anywhere on the path. */
  lemma ProcessAlong(room: Room, patches: seq<Pos>, path: seq<Pos>,
                     instructions: seq<char>)
    requires |path| == |instructions| + 1
    requires forall i :: 0 <= i < |instructions| ==>
               Move(room, path[i], instructions[i]) == path[i + 1]
    ensures Process(room, path[0], patches, instructions)
            == (path[|instructions|], |PatchSet(patches) * (set q | q in path)|)
  {
    WalkAlong(room, path, instructions);
    ProcessCountsPatchesOnPath(room, path[0], patches, instructions);
    assert {path[0]} + Visited(room, path[0], instructions) == set q | q in path;
  }

  /** The walk along a given path ends in its last cell and visits the cells
      after its first. */
  lemma {:induction false} WalkAlong(room: Room, path: seq<Pos>, instructions: seq<char>)
    requires |path| == |instructions| + 1
    requires forall i :: 0 <= i < |instructions| ==>
               Move(room, path[i], instructions[i]) == path[i + 1]
    ensures Walk(room, path[0], instructions) == path[|instructions|]
    ensures forall q :: q in Visited(room, path[0], instructions) <==> q in path[1..]
    decreases |instructions|
  {
    if instructions != [] {
      WalkAlong(room, path[1..], instructions[1..]);
      assert path[1..][1..] == path[2..];
      assert path[1..] == [path[1]] + path[2..];
    }
  }

  const BasicPath: seq<Pos> :=
    [Pos(1, 2), Pos(1, 3), Pos(1, 4), Pos(2, 4), Pos(2, 3), Pos(3, 3),
     Pos(4, 3), Pos(4, 2), Pos(3, 2), Pos(3, 3), Pos(2, 3), Pos(1, 3)]

  /** The cells visited in the scenario below, one instruction at a time. */
  lemma BasicRunMoves()
    ensures |BasicPath| == |"NNESEESWNWW"| + 1 && BasicPath[0] == Pos(1, 2)
    ensures forall i :: 0 <= i < |"NNESEESWNWW"| ==>
              Move(Room(5, 5), BasicPath[i], "NNESEESWNWW"[i]) == BasicPath[i + 1]
  {
  }

  /** The patches of the scenario below that lie on its path. */
  lemma BasicRunPatches()
    ensures PatchSet([Pos(1, 0), Pos(2, 2), Pos(2, 3)]) * (set q | q in BasicPath) == {Pos(2, 3)}
  {
  }

  /** 5x5 room, start (1, 2), patches (1, 0), (2, 2), (2, 3): the hoover ends
      at (1, 3) having cleaned one patch. */
  lemma BasicRun()
    ensures Process(Room(5, 5), Pos(1, 2), [Pos(1, 0), Pos(2, 2), Pos(2, 3)], "NNESEESWNWW")
            == (Pos(1, 3), 1)
  {
    BasicRunMoves();
    BasicRunPatches();
    ProcessAlong(Room(5, 5), [Pos(1, 0), Pos(2, 2), Pos(2, 3)], BasicPath, "NNESEESWNWW");
  }

  const NoisyPath: seq<Pos> :=
    [Pos(1, 2), Pos(1, 3), Pos(1, 4), Pos(1, 4), Pos(1, 3), Pos(2, 3),
     Pos(2, 3), Pos(3, 3), Pos(3, 2), Pos(2, 2), Pos(2, 3), Pos(1, 3),
     Pos(0, 3)]

  /** The cells visited in the scenario below, one instruction at a time. */
  lemma RunWithUnknownCharactersMoves()
    ensures |NoisyPath| == |"NNXSE$ESWNWW"| + 1 && NoisyPath[0] == Pos(1, 2)
    ensures forall i :: 0 <= i < |"NNXSE$ESWNWW"| ==>
              Move(Room(5, 5), NoisyPath[i], "NNXSE$ESWNWW"[i]) == NoisyPath[i + 1]
  {
  }

  /** The patches of the scenario below that lie on its path. */
  lemma RunWithUnknownCharactersPatches()
    ensures PatchSet([Pos(1, 0), Pos(2, 2), Pos(2, 3)]) * (set q | q in NoisyPath) == {Pos(2, 2), Pos(2, 3)}
  {
  }

  /** The same room with the unknown characters X and $ in the instructions:
      they are skipped, and the run ends at (0, 3) with two patches cleaned. */
  lemma RunWithUnknownCharacters()
    ensures Process(Room(5, 5), Pos(1, 2), [Pos(1, 0), Pos(2, 2), Pos(2, 3)], "NNXSE$ESWNWW")
            == (Pos(0, 3), 2)
  {
    RunWithUnknownCharactersMoves();
    RunWithUnknownCharactersPatches();
    ProcessAlong(Room(5, 5), [Pos(1, 0), Pos(2, 2), Pos(2, 3)], NoisyPath, "NNXSE$ESWNWW");
  }

  const WallsPath: seq<Pos> :=
    [Pos(0, 0), Pos(0, 1), Pos(0, 2), Pos(0, 2), Pos(0, 2), Pos(0, 2),
     Pos(0, 2), Pos(0, 1), Pos(0, 0), Pos(0, 0), Pos(1, 0), Pos(2, 0),
     Pos(2, 0)]

  /** The cells visited in the scenario below, one instruction at a time. */
  lemma RunAgainstWallsMoves()
    ensures |WallsPath| == |"NNNWWWSSSEEE"| + 1 && WallsPath[0] == Pos(0, 0)
    ensures forall i :: 0 <= i < |"NNNWWWSSSEEE"| ==>
              Move(Room(3, 3), WallsPath[i], "NNNWWWSSSEEE"[i]) == WallsPath[i + 1]
  {
  }

  /** The patches of the scenario below that lie on its path. */
  lemma RunAgainstWallsPatches()
    ensures PatchSet([Pos(0, 0), Pos(1, 1)]) * (set q | q in WallsPath) == {Pos(0, 0)}
  {
  }

  /** 3x3 room from the corner (0, 0), which is itself dirty: walking into
      every wall ends at (2, 0) with only the start patch cleaned. */
  lemma RunAgainstWalls()
    ensures Process(Room(3, 3), Pos(0, 0), [Pos(0, 0), Pos(1, 1)], "NNNWWWSSSEEE")
            == (Pos(2, 0), 1)
  {
    RunAgainstWallsMoves();
    RunAgainstWallsPatches();
    ProcessAlong(Room(3, 3), [Pos(0, 0), Pos(1, 1)], WallsPath, "NNNWWWSSSEEE");
  }

  /** 1000x1000 room, no patches, ten thousand N instructions: the hoover
      climbs to the top row (0, 999) and stays there. */
  lemma LongRunNorth()
    ensures Process(Room(1000, 1000), Pos(0, 0), [], Repeat('N', 10000)) == (Pos(0, 999), 0)
  {
    ProcessCountsPatchesOnPath(Room(1000, 1000), Pos(0, 0), [], Repeat('N', 10000));
    WalkNorth(Room(1000, 1000), Pos(0, 0), 10000);
  }
}
