/** `CleaningService.process` written the way the Java code writes it: a mutable
    position, a mutable patch set and a counter, updated in two loops. */
module CleaningLoop {
  import opened Grid
  import opened Hoover
  import opened Cleaning

  /** Adds the patches one by one to an empty set. */
  method CollectPatches(patches: seq<Pos>) returns (dirty: set<Pos>)
    ensures dirty == PatchSet(patches)
    ensures forall q :: q in dirty <==> q in patches
  {
    dirty := {};
    var i := 0;
    while i < |patches|
      invariant 0 <= i <= |patches|
      invariant dirty == PatchSet(patches[..i])
    {
      assert patches[..i + 1][..i] == patches[..i];
      dirty := dirty + {patches[i]};
      i := i + 1;
    }
    assert patches[..|patches|] == patches;
  }

  /** Collects the patch list into a set, then cleans the start cell and
      runs the instructions, cleaning after every one. The result is the one
      the functional model gives. */
  method Simulate(room: Room, start: Pos, patches: seq<Pos>, instructions: seq<char>)
    returns (final: Pos, cleaned: nat)
    ensures (final, cleaned) == Process(room, start, patches, instructions)
    ensures InRoom(room, start) ==> InRoom(room, final)
    ensures cleaned <= |patches|
  {
    var dirty := CollectPatches(patches);
    var pos := start;
    cleaned := 0;
    if pos in dirty {
      dirty := dirty - {pos};
      cleaned := cleaned + 1;
    }
    assert State(pos, dirty, cleaned) == Init(start, patches);
    assert instructions[0..] == instructions;

    var k := 0;
    while k < |instructions|
      invariant 0 <= k <= |instructions|
      // the hoover never stands on a dirty patch, and no patch is lost
      invariant pos !in dirty && dirty <= PatchSet(patches)
      invariant cleaned + |dirty| == |PatchSet(patches)|
      invariant Run(room, State(pos, dirty, cleaned), instructions[k..])
                == Run(room, Init(start, patches), instructions)
    {
      assert instructions[k..][0] == instructions[k];
      assert instructions[k..][1..] == instructions[k + 1..];
      pos := Move(room, pos, instructions[k]);
      if pos in dirty {
        dirty := dirty - {pos};
        cleaned := cleaned + 1;
      }
      k := k + 1;
    }
    final := pos;
  }
}
