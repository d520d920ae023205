/**
 * index.js, the single-file three.js build: its own grid constants, a block
 * loop that places one to three buildings per block on an 11 x 11 grid, fifty
 * unfiltered gems, a global game state mutated by the key handlers, the
 * animation loop's gem interaction and the puzzle dialog's submit button.
 *
 * The building loop's random draws are interleaved with draws made inside the
 * `Building` constructor (style and a size-dependent number of windows), so
 * each draw is read from an oracle indexed by what it is for rather than from
 * a positional stream.
 */
module Standalone {
  import opened Wrappers
  import opened JsNum
  import opened JsText
  import opened GameTypes
  import opened Controls
  import opened Scoring

  const IndexWorldSize: real := 300.0
  const IndexRoadWidth: real := 12.0
  const IndexBlockSize: real := 28.0
  const IndexGridInterval: real := IndexRoadWidth + IndexBlockSize
  const IndexGemCount: nat := 50
  /** Blocks run from -5 to 5 on both axes. */
  const IndexHalfBlocks: int := 5
  const IndexReachSq: real := 6.25

  /** `Object.values(CryptoTopic)` of index.js. */
  const IndexTopics: seq<string> := [
    "Basics of Encryption", "Symmetric Ciphers", "Public Key Cryptography",
    "Data Integrity & Hashing", "Digital Signatures", "Password Salting"]

  /** The topic strings are those of the TypeScript enum, in the same order. */
  lemma IndexTopicsMatchEnum()
    ensures |IndexTopics| == |Topics|
    ensures forall i :: 0 <= i < |Topics| ==> IndexTopics[i] == Topics[i].Name()
  {
  }

  // ---------------------------------------------------------------------------
  // Blocks and buildings

  /** What each building-loop draw is for: the count of a block, or slot 0..4 (width,
      height, depth, x offset, z offset) of its k-th building. */
  datatype Draw = CountDraw(i: int, j: int) | PartDraw(i: int, j: int, k: nat, slot: nat)

  ghost predicate DrawOracle(o: Draw -> real)
  {
    forall d :: 0.0 <= o(d) < 1.0
  }

  /** `Math.floor(Math.random() * 3) + 1`. */
  function IndexBuildingCount(r: real): (n: nat)
    requires 0.0 <= r < 1.0
    ensures 1 <= n <= 3
  {
    (r * 3.0).Floor + 1
  }

  function IndexBuilding(o: Draw -> real, i: int, j: int, k: nat): Building
    requires DrawOracle(o)
  {
    var sx := 8.0 + o(PartDraw(i, j, k, 0)) * 6.0;
    var sy := 15.0 + o(PartDraw(i, j, k, 1)) * 40.0;
    var sz := 8.0 + o(PartDraw(i, j, k, 2)) * 6.0;
    var ox := Offset(o(PartDraw(i, j, k, 3)), IndexBlockSize - sx - 2.0);
    var oz := Offset(o(PartDraw(i, j, k, 4)), IndexBlockSize - sz - 2.0);
    Building("", Vec3(i as real * IndexGridInterval + ox, 0.0, j as real * IndexGridInterval + oz), Vec3(sx, sy, sz))
  }

  function IndexBlockBuildings(o: Draw -> real, i: int, j: int, n: nat): (bs: seq<Building>)
    requires DrawOracle(o)
    ensures |bs| == n
  {
    seq(n, k requires 0 <= k < n => IndexBuilding(o, i, j, k))
  }

  /** The buildings pushed from block (i, j) onward, in row-major order. */
  function IndexLayoutFrom(o: Draw -> real, i: int, j: int): seq<Building>
    requires DrawOracle(o)
    requires -IndexHalfBlocks <= i && -IndexHalfBlocks <= j <= IndexHalfBlocks + 1
    decreases IndexHalfBlocks + 1 - i, IndexHalfBlocks + 1 - j
  {
    if i > IndexHalfBlocks then []
    else if j > IndexHalfBlocks then IndexLayoutFrom(o, i + 1, -IndexHalfBlocks)
    else if i == 0 && j == 0 then IndexLayoutFrom(o, i, j + 1)
    else
      IndexBlockBuildings(o, i, j, IndexBuildingCount(o(CountDraw(i, j)))) + IndexLayoutFrom(o, i, j + 1)
  }

  /** The "Populate Blocks" loops. */
  method PopulateBlocks(o: Draw -> real) returns (buildings: seq<Building>)
    requires DrawOracle(o)
    ensures buildings == IndexLayoutFrom(o, -IndexHalfBlocks, -IndexHalfBlocks)
  {
    var lo, hi := -IndexHalfBlocks, IndexHalfBlocks;
    var total := IndexLayoutFrom(o, lo, lo);
    buildings := [];
    var i := lo;
    while i <= hi
      invariant lo <= i <= hi + 1
      invariant buildings + IndexLayoutFrom(o, i, lo) == total
    {
      buildings := PopulateRow(buildings, o, i);
      IndexLayoutFromRowEnd(o, i);
      i := i + 1;
    }
    assert buildings + [] == buildings;
  }

  /** The `for j` loop of row `i`. */
  method PopulateRow(buildings: seq<Building>, o: Draw -> real, i: int) returns (pushed: seq<Building>)
    requires DrawOracle(o)
    requires -IndexHalfBlocks <= i <= IndexHalfBlocks
    ensures pushed + IndexLayoutFrom(o, i, IndexHalfBlocks + 1) == buildings + IndexLayoutFrom(o, i, -IndexHalfBlocks)
  {
    var lo, hi := -IndexHalfBlocks, IndexHalfBlocks;
    pushed := buildings;
    var j := lo;
    while j <= hi
      invariant lo <= j <= hi + 1
      invariant pushed + IndexLayoutFrom(o, i, j) == buildings + IndexLayoutFrom(o, i, lo)
    {
      var before := pushed;
      if !(i == 0 && j == 0) {
        var count := IndexBuildingCount(o(CountDraw(i, j)));
        pushed := PushIndexBlock(pushed, o, i, j, count);
      }
      IndexLayoutFromStep(o, i, j, before, pushed);
      j := j + 1;
    }
  }

  /** The `for k` loop of one block. */
  method PushIndexBlock(buildings: seq<Building>, o: Draw -> real, i: int, j: int, n: nat)
    returns (pushed: seq<Building>)
    requires DrawOracle(o)
    ensures pushed == buildings + IndexBlockBuildings(o, i, j, n)
  {
    pushed := buildings;
    var k := 0;
    while k < n
      invariant 0 <= k <= n
      invariant pushed == buildings + IndexBlockBuildings(o, i, j, k)
    {
      var b := IndexBuilding(o, i, j, k);
      assert IndexBlockBuildings(o, i, j, k + 1) == IndexBlockBuildings(o, i, j, k) + [b];
      pushed := pushed + [b];
      k := k + 1;
    }
  }

  /** One block of the walk inside a row: what was pushed for (i, j) followed by the
      rest of the row is the row from (i, j). */
  lemma IndexLayoutFromStep(o: Draw -> real, i: int, j: int, before: seq<Building>, pushed: seq<Building>)
    requires DrawOracle(o)
    requires -IndexHalfBlocks <= i <= IndexHalfBlocks && -IndexHalfBlocks <= j <= IndexHalfBlocks
    requires i == 0 && j == 0 ==> pushed == before
    requires !(i == 0 && j == 0) ==>
      pushed == before + IndexBlockBuildings(o, i, j, IndexBuildingCount(o(CountDraw(i, j))))
    ensures pushed + IndexLayoutFrom(o, i, j + 1) == before + IndexLayoutFrom(o, i, j)
  {
  }

  lemma IndexLayoutFromRowEnd(o: Draw -> real, i: int)
    requires DrawOracle(o)
    requires -IndexHalfBlocks <= i <= IndexHalfBlocks
    ensures IndexLayoutFrom(o, i, IndexHalfBlocks + 1) == IndexLayoutFrom(o, i + 1, -IndexHalfBlocks)
  {
  }

  /** Non-spawn blocks at or after (i, j) in row-major order. */
  function IndexBlocksLeft(i: int, j: int): int
  {
    if i > IndexHalfBlocks then 0
    else
      var origin := if i < 0 || (i == 0 && j <= 0) then 1 else 0;
      (IndexHalfBlocks - i) * (2 * IndexHalfBlocks + 1) + (IndexHalfBlocks + 1 - j) - origin
  }

  lemma {:induction false} IndexLayoutFromCount(o: Draw -> real, i: int, j: int)
    requires DrawOracle(o)
    requires -IndexHalfBlocks <= i && -IndexHalfBlocks <= j <= IndexHalfBlocks + 1
    ensures IndexBlocksLeft(i, j) <= |IndexLayoutFrom(o, i, j)| <= 3 * IndexBlocksLeft(i, j)
    decreases IndexHalfBlocks + 1 - i, IndexHalfBlocks + 1 - j
  {
    if i > IndexHalfBlocks {
    } else if j > IndexHalfBlocks {
      IndexLayoutFromCount(o, i + 1, -IndexHalfBlocks);
    } else if i == 0 && j == 0 {
      IndexLayoutFromCount(o, i, j + 1);
    } else {
      IndexLayoutFromCount(o, i, j + 1);
    }
  }

  /** 120 blocks are populated with one to three buildings each. */
  lemma IndexLayoutSize(o: Draw -> real)
    requires DrawOracle(o)
    ensures 120 <= |IndexLayoutFrom(o, -IndexHalfBlocks, -IndexHalfBlocks)| <= 360
  {
    IndexLayoutFromCount(o, -IndexHalfBlocks, -IndexHalfBlocks);
  }

  /** A building of block (i, j): sizes in [8, 14) x [15, 55) x [8, 14), and a
      footprint within 13 of the block centre, inside the 28-wide block. */
  predicate IndexPlacedIn(b: Building, i: int, j: int)
  {
    && -IndexHalfBlocks <= i <= IndexHalfBlocks && -IndexHalfBlocks <= j <= IndexHalfBlocks
    && !(i == 0 && j == 0)
    && b.position.y == 0.0
    && 8.0 <= b.scale.x < 14.0 && 15.0 <= b.scale.y < 55.0 && 8.0 <= b.scale.z < 14.0
    && Abs(b.position.x - i as real * IndexGridInterval) + b.scale.x / 2.0 <= 13.0
    && Abs(b.position.z - j as real * IndexGridInterval) + b.scale.z / 2.0 <= 13.0
  }

  ghost predicate IndexPlaced(b: Building)
  {
    exists i, j :: IndexPlacedIn(b, i, j)
  }

  lemma IndexBuildingPlaced(o: Draw -> real, i: int, j: int, k: nat)
    requires DrawOracle(o)
    requires -IndexHalfBlocks <= i <= IndexHalfBlocks && -IndexHalfBlocks <= j <= IndexHalfBlocks
    requires !(i == 0 && j == 0)
    ensures IndexPlacedIn(IndexBuilding(o, i, j, k), i, j)
  {
    MulStrict(6.0, o(PartDraw(i, j, k, 0)), 1.0);
    MulStrict(40.0, o(PartDraw(i, j, k, 1)), 1.0);
    MulStrict(6.0, o(PartDraw(i, j, k, 2)), 1.0);
  }

  lemma {:induction false} IndexLayoutFromPlaced(o: Draw -> real, i: int, j: int)
    requires DrawOracle(o)
    requires -IndexHalfBlocks <= i && -IndexHalfBlocks <= j <= IndexHalfBlocks + 1
    ensures forall b :: b in IndexLayoutFrom(o, i, j) ==> IndexPlaced(b)
    decreases IndexHalfBlocks + 1 - i, IndexHalfBlocks + 1 - j
  {
    if i > IndexHalfBlocks {
    } else if j > IndexHalfBlocks {
      IndexLayoutFromPlaced(o, i + 1, -IndexHalfBlocks);
    } else if i == 0 && j == 0 {
      IndexLayoutFromPlaced(o, i, j + 1);
    } else {
      var n := IndexBuildingCount(o(CountDraw(i, j)));
      var block := IndexBlockBuildings(o, i, j, n);
      var rest := IndexLayoutFrom(o, i, j + 1);
      assert IndexLayoutFrom(o, i, j) == block + rest;
      IndexLayoutFromPlaced(o, i, j + 1);
      forall k | 0 <= k < n
        ensures IndexPlaced(block[k])
      {
        IndexBuildingPlaced(o, i, j, k);
      }
      ConcatIndexPlaced(block, rest);
    }
  }

  lemma ConcatIndexPlaced(a: seq<Building>, b: seq<Building>)
    requires forall x :: x in a ==> IndexPlaced(x)
    requires forall x :: x in b ==> IndexPlaced(x)
    ensures forall x :: x in a + b ==> IndexPlaced(x)
  {
  }

  /** Every building stands inside a non-spawn block of the [-5, 5] grid. */
  lemma IndexLayoutPlaced(o: Draw -> real)
    requires DrawOracle(o)
    ensures forall b :: b in IndexLayoutFrom(o, -IndexHalfBlocks, -IndexHalfBlocks) ==> IndexPlaced(b)
  {
    IndexLayoutFromPlaced(o, -IndexHalfBlocks, -IndexHalfBlocks);
  }

  // ---------------------------------------------------------------------------
  // Gems and the game state

  /** The index.js `Gem` class: a fixed position and topic, and a flag set by `collect()`. */
  class GemObject {
    const position: Vec3
    const topic: string
    var collected: bool

    constructor(position: Vec3, topic: string)
      ensures this.position == position && this.topic == topic && !collected
    {
      this.position := position;
      this.topic := topic;
      collected := false;
    }

    /** `collect()`: the mesh is hidden and the flag set. */
    method Collect()
      modifies this
      ensures collected
    {
      collected := true;
    }
  }

  /** How many flags are set. */
  function CountTrue(flags: seq<bool>): (n: nat)
    ensures n <= |flags|
  {
    if flags == [] then 0
    else CountTrue(flags[..|flags| - 1]) + (if flags[|flags| - 1] then 1 else 0)
  }

  /** Setting a clear flag raises the count by exactly one. */
  lemma {:induction false} CountTrueSet(flags: seq<bool>, k: nat)
    requires k < |flags| && !flags[k]
    ensures CountTrue(flags[k := true]) == CountTrue(flags) + 1
    decreases |flags|
  {
    var n := |flags|;
    if k == n - 1 {
      assert flags[k := true][..n - 1] == flags[..n - 1];
    } else {
      assert flags[k := true][..n - 1] == flags[..n - 1][k := true];
      CountTrueSet(flags[..n - 1], k);
    }
  }

  /** An uncollected gem within 2.5 of the eye. */
  predicate InReach(g: GemObject, eye: Vec3)
    reads g
  {
    !g.collected && DistSq(eye, g.position) < IndexReachSq
  }

  class Game {
    var score: int
    var level: int
    var gemsFound: int
    var lastInteractTime: int
    var moveState: MoveState
    /** `controls.isLocked`. */
    var locked: bool
    /** The `gems` array, filled once at start-up. */
    const gems: seq<GemObject>
    /** The expected answer of the puzzle whose submit button is on screen. */
    var activeAnswer: Option<string>
    /** Puzzle requests sent and not yet answered. */
    ghost var pending: nat

    /** The collected flags of the gems, in order. */
    ghost function Flags(): (flags: seq<bool>)
      reads gems
      ensures |flags| == |gems|
    {
      seq(|gems|, i reads gems requires 0 <= i < |gems| => gems[i].collected)
    }

    /** Scoring is consistent, the gems are distinct objects, and every point was
        earned by a collected gem: found gems, outstanding requests and the open
        puzzle never outnumber the collected gems. */
    ghost predicate Valid()
      reads this, gems
    {
      && score == SolveReward * gemsFound && level == LevelFor(score) && gemsFound >= 0
      && (forall i, j :: 0 <= i < j < |gems| ==> gems[i] != gems[j])
      && gemsFound + pending + (if activeAnswer.Some? then 1 else 0) <= CountTrue(Flags())
    }

    /** The global `state` and the "Populate Gems" loop: gem i sits at
        `((r - 0.5) * 300, 1, (r' - 0.5) * 300)` with draws `2i`, `2i + 1` of
        `gemDraws` and the (i mod 6)-th topic. */
    constructor(gemDraws: nat -> real)
      requires RandomStream(gemDraws)
      ensures Valid()
      ensures score == 0 && level == 1 && gemsFound == 0 && lastInteractTime == 0
      ensures moveState == Idle && !locked && activeAnswer.None? && pending == 0
      ensures |gems| == IndexGemCount
      ensures forall i :: 0 <= i < |gems| ==>
        && gems[i].topic == IndexTopics[i % |IndexTopics|] && !gems[i].collected
        && gems[i].position == Vec3(Offset(gemDraws(2 * i), IndexWorldSize), 1.0, Offset(gemDraws(2 * i + 1), IndexWorldSize))
        && -IndexWorldSize / 2.0 <= gems[i].position.x < IndexWorldSize / 2.0
        && -IndexWorldSize / 2.0 <= gems[i].position.z < IndexWorldSize / 2.0
    {
      var acc: seq<GemObject> := [];
      var i := 0;
      while i < IndexGemCount
        invariant 0 <= i <= IndexGemCount && |acc| == i
        invariant forall a, b :: 0 <= a < b < i ==> acc[a] != acc[b]
        invariant forall k :: 0 <= k < i ==>
          && acc[k].topic == IndexTopics[k % |IndexTopics|] && !acc[k].collected
          && acc[k].position == Vec3(Offset(gemDraws(2 * k), IndexWorldSize), 1.0, Offset(gemDraws(2 * k + 1), IndexWorldSize))
          && -IndexWorldSize / 2.0 <= acc[k].position.x < IndexWorldSize / 2.0
          && -IndexWorldSize / 2.0 <= acc[k].position.z < IndexWorldSize / 2.0
      {
        var pos := Vec3(Offset(gemDraws(2 * i), IndexWorldSize), 1.0, Offset(gemDraws(2 * i + 1), IndexWorldSize));
        var g := new GemObject(pos, IndexTopics[i % |IndexTopics|]);
        acc := acc + [g];
        i := i + 1;
      }
      gems := acc;
      score, level, gemsFound, lastInteractTime := 0, 1, 0, 0;
      moveState := Idle;
      locked := false;
      activeAnswer := None;
      pending := 0;
    }

    method OnKeyDown(code: string)
      requires Valid()
      modifies this
      ensures Valid()
      ensures moveState == KeyDown(old(moveState), code)
      ensures score == old(score) && level == old(level) && gemsFound == old(gemsFound)
      ensures lastInteractTime == old(lastInteractTime) && locked == old(locked)
      ensures activeAnswer == old(activeAnswer)
    {
      moveState := KeyDown(moveState, code);
    }

    method OnKeyUp(code: string)
      requires Valid()
      modifies this
      ensures Valid()
      ensures moveState == KeyUp(old(moveState), code)
      ensures score == old(score) && level == old(level) && gemsFound == old(gemsFound)
      ensures lastInteractTime == old(lastInteractTime) && locked == old(locked)
      ensures activeAnswer == old(activeAnswer)
    {
      moveState := KeyUp(moveState, code);
    }

    /**
     * The gem part of one animation frame, with the eye at `eye` and the clock at
     * `now`. Only while the pointer is locked, each gem in turn is tested; an
     * uncollected gem within 2.5 fires when the cooldown has passed, which restarts
     * the cooldown, collects the gem at once, releases the pointer and requests a
     * puzzle for its topic. The restarted cooldown keeps every later gem of the same
     * frame from firing, and a collected gem never fires.
     */
    method InteractFrame(eye: Vec3, now: int) returns (fired: Option<nat>)
      requires Valid()
      modifies this, gems
      ensures Valid()
      ensures score == old(score) && level == old(level) && gemsFound == old(gemsFound)
      ensures moveState == old(moveState) && activeAnswer == old(activeAnswer)
      ensures fired.None? ==>
        && Flags() == old(Flags()) && lastInteractTime == old(lastInteractTime)
        && locked == old(locked) && pending == old(pending)
      ensures fired.None? && old(locked) && now - old(lastInteractTime) > 1000 ==>
        forall j :: 0 <= j < |gems| ==> !old(InReach(gems[j], eye))
      ensures fired.Some? ==>
        var k := fired.value;
        && old(locked) && now - old(lastInteractTime) > 1000
        && k < |gems| && old(InReach(gems[k], eye))
        && (forall j :: 0 <= j < k ==> !old(InReach(gems[j], eye)))
        && Flags() == old(Flags())[k := true]
        && lastInteractTime == now && !locked && pending == old(pending) + 1
    {
      fired := None;
      if !locked {
        return;
      }
      var i := 0;
      while i < |gems|
        invariant 0 <= i <= |gems|
        invariant score == old(score) && level == old(level) && gemsFound == old(gemsFound)
        invariant moveState == old(moveState) && activeAnswer == old(activeAnswer)
        invariant Valid()
        invariant fired.None? ==>
          && Flags() == old(Flags()) && lastInteractTime == old(lastInteractTime) && locked
          && pending == old(pending)
          && (now - old(lastInteractTime) > 1000 ==> forall j :: 0 <= j < i ==> !old(InReach(gems[j], eye)))
        invariant fired.Some? ==>
          var k := fired.value;
          && now - old(lastInteractTime) > 1000
          && k < i && old(InReach(gems[k], eye))
          && (forall j :: 0 <= j < k ==> !old(InReach(gems[j], eye)))
          && Flags() == old(Flags())[k := true]
          && lastInteractTime == now && !locked && pending == old(pending) + 1
      {
        var g := gems[i];
        assert Flags()[i] == g.collected && old(Flags())[i] == old(g.collected);
        if !g.collected && DistSq(eye, g.position) < IndexReachSq {
          if now - lastInteractTime > 1000 {
            Fire(i, now);
            fired := Some(i);
          }
        }
        i := i + 1;
      }
    }

    /** The body of the test for gem `i` once it fires: restart the cooldown, collect
        the gem, release the pointer and send the request. */
    method Fire(i: nat, now: int)
      requires Valid() && i < |gems| && !gems[i].collected
      modifies this, gems[i]
      ensures Valid()
      ensures Flags() == old(Flags())[i := true]
      ensures lastInteractTime == now && !locked && pending == old(pending) + 1
      ensures score == old(score) && level == old(level) && gemsFound == old(gemsFound)
      ensures moveState == old(moveState) && activeAnswer == old(activeAnswer)
    {
      CountTrueSet(Flags(), i);
      CollectGem(i);
      lastInteractTime, locked, pending := now, false, pending + 1;
    }

    /** `gem.collect()` on gem `i`: since the gems are distinct objects, only its flag changes. */
    method CollectGem(i: nat)
      requires i < |gems| && forall a, b :: 0 <= a < b < |gems| ==> gems[a] != gems[b]
      modifies gems[i]
      ensures Flags() == old(Flags())[i := true]
    {
      var before := Flags();
      var g := gems[i];
      g.Collect();
      forall j | 0 <= j < |gems|
        ensures Flags()[j] == before[i := true][j]
      {
        if j < i {
          assert gems[j] != g;
        } else if j > i {
          assert gems[j] != g;
        }
      }
      assert Flags() == before[i := true];
    }

    /** `showPuzzleModal`: a requested puzzle arrives and its submit button appears. */
    method ShowPuzzle(correctAnswer: string)
      requires Valid() && pending > 0
      modifies this
      ensures Valid()
      ensures activeAnswer == Some(correctAnswer) && pending == old(pending) - 1
      ensures score == old(score) && level == old(level) && gemsFound == old(gemsFound)
      ensures locked == old(locked) && lastInteractTime == old(lastInteractTime)
      ensures moveState == old(moveState)
    {
      activeAnswer := Some(correctAnswer);
      pending := pending - 1;
    }

    /** A failed request: the loading screen goes and the pointer is locked again. */
    method PuzzleFailed()
      requires Valid() && pending > 0
      modifies this
      ensures Valid()
      ensures locked && pending == old(pending) - 1
      ensures score == old(score) && level == old(level) && gemsFound == old(gemsFound)
      ensures activeAnswer == old(activeAnswer)
      ensures lastInteractTime == old(lastInteractTime) && moveState == old(moveState)
    {
      locked := true;
      pending := pending - 1;
    }

    /**
     * The submit button. A trimmed, lower-cased input equal to the lower-cased (not
     * trimmed) expected answer scores 250, counts a found gem, recomputes the level
     * and replaces the form by the success view; anything else changes no state.
     */
    method Submit(input: string) returns (accepted: bool)
      requires Valid()
      modifies this
      ensures Valid()
      ensures accepted <==> old(activeAnswer).Some? && AcceptsUntrimmed(input, old(activeAnswer).value)
      ensures accepted ==>
        && score == old(score) + SolveReward && gemsFound == old(gemsFound) + 1
        && level == LevelFor(score) && activeAnswer.None?
      ensures !accepted ==>
        score == old(score) && gemsFound == old(gemsFound) && level == old(level)
        && activeAnswer == old(activeAnswer)
      ensures locked == old(locked) && pending == old(pending)
      ensures lastInteractTime == old(lastInteractTime) && moveState == old(moveState)
    {
      accepted := activeAnswer.Some? && AcceptsUntrimmed(input, activeAnswer.value);
      if accepted {
        score := score + SolveReward;
        gemsFound := gemsFound + 1;
        level := LevelFor(score);
        activeAnswer := None;
      }
    }

    /** The start button: the pointer is locked and play begins. */
    method Start()
      requires Valid()
      modifies this
      ensures Valid()
      ensures locked
      ensures score == old(score) && level == old(level) && gemsFound == old(gemsFound)
      ensures pending == old(pending) && activeAnswer == old(activeAnswer)
      ensures lastInteractTime == old(lastInteractTime) && moveState == old(moveState)
    {
      locked := true;
    }

    /** The close button, or the success view's resume button: hide the dialog and
        lock the pointer again. */
    method CloseDialog()
      requires Valid()
      modifies this
      ensures Valid()
      ensures activeAnswer.None? && locked
      ensures score == old(score) && level == old(level) && gemsFound == old(gemsFound)
      ensures pending == old(pending)
      ensures lastInteractTime == old(lastInteractTime) && moveState == old(moveState)
    {
      activeAnswer := None;
      locked := true;
    }

    /** Under the invariant no more gems are ever found than were collected, and every
        four found gems earn a level. */
    lemma FoundNeverExceedsCollected()
      requires Valid()
      ensures 0 <= gemsFound <= CountTrue(Flags()) <= |gems|
      ensures level == gemsFound / 4 + 1
    {
      LevelCountsSolves(PlayerStats(seq(gemsFound, _ => ""), score, level));
    }
  }
}
