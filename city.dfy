/**
 * constants.ts: the city grid and its road classifier, the gem placement
 * sampler, the fixed monolith table and the NPC spawn table. The building
 * generator lives in CityBuildings, and CityWorld threads the tables together.
 * `Math.random()` is a supplied stream (`rand`, see JsNum.RandomStream) read
 * from a cursor. The gem sampler returns the first draw it left unused; the NPC
 * table reads a fixed seven draws per NPC from the cursor it is given.
 */
module City {
  import opened Wrappers
  import opened JsNum
  import opened GameTypes

  const WorldSize: real := 300.0
  const RoadWidth: real := 10.0
  const BlockSize: real := 25.0
  const GridInterval: real := RoadWidth + BlockSize
  const SafeZoneRadius: real := 15.0
  /** `Math.floor(WORLD_SIZE / GRID_INTERVAL)`. */
  const HalfBlocks: int := (WorldSize / GridInterval).Floor

  lemma GridConstants()
    ensures GridInterval == 35.0 && HalfBlocks == 8
  {
  }

  // ---------------------------------------------------------------------------
  // Road classification

  /** `isOnRoad`: the truncated remainder of either coordinate by the grid interval
      is more than half a block away from zero. */
  predicate IsOnRoad(x: real, z: real)
  {
    Abs(Rem(x, GridInterval)) > BlockSize / 2.0 || Abs(Rem(z, GridInterval)) > BlockSize / 2.0
  }

  /** The per-coordinate half of the test. */
  predicate RoadCoord(x: real)
  {
    Abs(Rem(x, GridInterval)) > BlockSize / 2.0
  }

  lemma GridRemBounds(x: real)
    ensures x >= 0.0 ==> 0.0 <= Rem(x, GridInterval) < GridInterval
    ensures x < 0.0 ==> -GridInterval < Rem(x, GridInterval) <= 0.0
    ensures x - Rem(x, GridInterval) == GridInterval * Trunc(x / GridInterval) as real
  {
  }

  lemma GridRemNeg(x: real)
    ensures Rem(-x, GridInterval) == -Rem(x, GridInterval)
  {
    TruncNeg(x / GridInterval);
  }

  /** A coordinate within the band `[35k, 35k + 12.5]` above the k-th grid multiple,
      measured on its magnitude. */
  predicate NearAbove(x: real, k: int)
  {
    GridInterval * k as real <= Abs(x) <= GridInterval * k as real + BlockSize / 2.0
  }

  /** A coordinate passes the test exactly when its magnitude lies at most half a block
      above some multiple of the grid interval. The band is one-sided: a magnitude in
      (35k + 12.5, 35k + 35) counts as road. */
  lemma OffRoadCoordIff(x: real)
    ensures !RoadCoord(x) ==> NearAbove(x, Trunc(Abs(x) / GridInterval))
    ensures forall k: int :: NearAbove(x, k) ==> !RoadCoord(x)
  {
    AbsRem(x);
    var y := Abs(x);
    GridRemBounds(y);
    forall k: int | NearAbove(x, k)
      ensures !RoadCoord(x)
    {
      BandTrunc(y, k);
    }
  }

  /** The magnitude of the remainder is the remainder of the magnitude. */
  lemma AbsRem(x: real)
    ensures Abs(Rem(x, GridInterval)) == Rem(Abs(x), GridInterval)
  {
    GridRemNeg(x);
    if x < 0.0 {
      GridRemBounds(-x);
    } else {
      GridRemBounds(x);
    }
  }

  lemma BandTrunc(y: real, k: int)
    requires 0.0 <= y
    requires GridInterval * k as real <= y <= GridInterval * k as real + BlockSize / 2.0
    ensures Trunc(y / GridInterval) == k
  {
    assert k as real <= y / GridInterval < k as real + 1.0;
  }

  /** The test is unchanged by negating either coordinate or by swapping them. */
  lemma IsOnRoadSymmetric(x: real, z: real)
    ensures IsOnRoad(-x, z) <==> IsOnRoad(x, z)
    ensures IsOnRoad(x, -z) <==> IsOnRoad(x, z)
    ensures IsOnRoad(z, x) <==> IsOnRoad(x, z)
  {
    GridRemNeg(x);
    GridRemNeg(z);
  }

  /** The comparison is strict: every grid multiple, and an offset of exactly half a
      block above one, is not road. */
  lemma RoadThresholdIsStrict(k: int, m: int)
    requires k >= 0 && m >= 0
    ensures !IsOnRoad(GridInterval * k as real, GridInterval * m as real)
    ensures !IsOnRoad(-GridInterval * k as real, -GridInterval * m as real)
    ensures !IsOnRoad(GridInterval * k as real + BlockSize / 2.0, -GridInterval * m as real - BlockSize / 2.0)
  {
    OffRoadCoordIff(GridInterval * k as real);
    OffRoadCoordIff(GridInterval * m as real);
    OffRoadCoordIff(-GridInterval * k as real);
    OffRoadCoordIff(-GridInterval * m as real);
    OffRoadCoordIff(GridInterval * k as real + BlockSize / 2.0);
    OffRoadCoordIff(-GridInterval * m as real - BlockSize / 2.0);
    assert NearAbove(GridInterval * k as real, k);
    assert NearAbove(-GridInterval * k as real, k);
    assert NearAbove(GridInterval * m as real, m);
    assert NearAbove(-GridInterval * m as real, m);
    assert NearAbove(GridInterval * k as real + BlockSize / 2.0, k);
    assert NearAbove(-GridInterval * m as real - BlockSize / 2.0, m);
  }

  /** GameWorld.tsx draws the i-th road strip centred half a block plus half a road
      past the i-th grid multiple, `ROAD_WIDTH` wide. */
  function RoadCentre(i: int): real
  {
    i as real * GridInterval + BlockSize / 2.0 + RoadWidth / 2.0
  }

  predicate InRoadStrip(x: real, i: int)
  {
    RoadCentre(i) - RoadWidth / 2.0 < x < RoadCentre(i) + RoadWidth / 2.0
  }

  /** A coordinate that passes the test lies within half a block of a grid multiple,
      hence strictly inside no drawn road strip. */
  lemma OffRoadAvoidsDrawnRoads(x: real)
    requires !RoadCoord(x)
    ensures Abs(x - GridInterval * Trunc(x / GridInterval) as real) <= BlockSize / 2.0
    ensures forall i: int :: !InRoadStrip(x, i)
  {
    GridRemBounds(x);
    var t := Trunc(x / GridInterval);
    forall i: int
      ensures !InRoadStrip(x, i)
    {
      if i < t {
        assert RoadCentre(i) + RoadWidth / 2.0 <= GridInterval * t as real - BlockSize / 2.0;
      } else {
        assert RoadCentre(i) - RoadWidth / 2.0 >= GridInterval * t as real + BlockSize / 2.0;
      }
    }
  }

  /** The converse fails: a coordinate whose remainder is 22.5 or more is classified as
      road although it lies within half a block of the next grid multiple and inside no
      drawn strip (for instance x = 30, which is 5 from the block centre at 35). */
  lemma RoadTestCoversBlockEdge(r: real)
    requires BlockSize / 2.0 + RoadWidth <= r < GridInterval
    ensures RoadCoord(r) && IsOnRoad(r, 0.0)
    ensures Abs(r - GridInterval) <= BlockSize / 2.0
    ensures forall i: int :: !InRoadStrip(r, i)
  {
    assert Trunc(r / GridInterval) == 0;
    forall i: int
      ensures !InRoadStrip(r, i)
    {
      if i < 0 {
        assert RoadCentre(i) + RoadWidth / 2.0 <= 0.0;
      } else if i == 0 {
      } else {
        assert RoadCentre(i) - RoadWidth / 2.0 >= GridInterval + BlockSize / 2.0;
      }
    }
  }

  // ---------------------------------------------------------------------------
  // Gems: rejection sampling

  const GemCount: nat := 50
  /** `WORLD_SIZE / 2 - 10`: gems are drawn from [-140, 140) on both axes. */
  const GemSpan: real := WorldSize / 2.0 - 10.0

  /** One pass of the do-while body: x from draw `c`, z from draw `c + 1`. */
  function GemCandidate(rand: nat -> real, c: nat): (p: (real, real))
    requires RandomStream(rand)
    ensures -GemSpan <= p.0 < GemSpan && -GemSpan <= p.1 < GemSpan
  {
    (Rand(rand(c), -GemSpan, GemSpan), Rand(rand(c + 1), -GemSpan, GemSpan))
  }

  predicate CandidateRejected(rand: nat -> real, c: nat)
    requires RandomStream(rand)
  {
    IsOnRoad(GemCandidate(rand, c).0, GemCandidate(rand, c).1)
  }

  /**
   * The do-while of one gem: draw a candidate, repeat while it is on road. The
   * source has no retry bound; `maxTries` only limits how much of the stream this
   * model looks at. `None` means every candidate inspected was on road, so the
   * source would still be drawing.
   */
  method SampleGemPosition(rand: nat -> real, start: nat, maxTries: nat)
    returns (pos: Option<(real, real)>, tries: nat)
    requires RandomStream(rand)
    ensures tries <= maxTries
    ensures pos.Some? ==> 1 <= tries && pos.value == GemCandidate(rand, start + 2 * (tries - 1))
    ensures pos.Some? ==> !IsOnRoad(pos.value.0, pos.value.1)
    ensures pos.None? ==> tries == maxTries
    ensures forall a :: 0 <= a < (if pos.Some? then tries - 1 else tries) ==>
      CandidateRejected(rand, start + 2 * a)
  {
    tries := 0;
    while tries < maxTries
      invariant tries <= maxTries
      invariant forall a :: 0 <= a < tries ==> CandidateRejected(rand, start + 2 * a)
    {
      var x := Rand(rand(start + 2 * tries), -GemSpan, GemSpan);
      var z := Rand(rand(start + 2 * tries + 1), -GemSpan, GemSpan);
      tries := tries + 1;
      if !IsOnRoad(x, z) {
        return Some((x, z)), tries;
      }
    }
    return None, tries;
  }

  function GemId(i: nat): string
  {
    "gem-" + NatToString(i)
  }

  /** Distinct gems get distinct ids. */
  lemma GemIdInjective(i: nat, j: nat)
    ensures GemId(i) == GemId(j) ==> i == j
  {
    if GemId(i) == GemId(j) {
      assert NatToString(i) == GemId(i)[4..] == GemId(j)[4..] == NatToString(j);
      NatToStringInjective(i, j);
    }
  }

  /** What `GEMS[i]` promises. */
  predicate GemPlaced(i: nat, g: Gem<CryptoTopic>)
  {
    && g.id == GemId(i)
    && g.topic == Topics[i % |Topics|]
    && !g.collected
    && g.position.y == 1.0
    && -GemSpan <= g.position.x < GemSpan && -GemSpan <= g.position.z < GemSpan
    && !IsOnRoad(g.position.x, g.position.z)
  }

  /** A do-while started at draw `c` ends with its `n`-th candidate: that one is off
      road and every earlier one was on road. */
  predicate AcceptedAt(rand: nat -> real, c: nat, n: nat)
    requires RandomStream(rand)
  {
    && n >= 1 && !CandidateRejected(rand, c + 2 * (n - 1))
    && forall a :: 0 <= a < n - 1 ==> CandidateRejected(rand, c + 2 * a)
  }

  /** The first `n` candidates from draw `c` are all on road. */
  predicate RejectsAll(rand: nat -> real, c: nat, n: nat)
    requires RandomStream(rand)
  {
    forall a :: 0 <= a < n ==> CandidateRejected(rand, c + 2 * a)
  }

  /** The stream decides how many candidates a do-while reads. */
  lemma AcceptedAtUnique(rand: nat -> real, c: nat, n: nat, m: nat)
    requires RandomStream(rand)
    requires AcceptedAt(rand, c, n) && AcceptedAt(rand, c, m)
    ensures n == m
  {
  }

  /** The i-th gem object built from the candidate at draw `c`. */
  function GemFrom(rand: nat -> real, i: nat, c: nat): Gem<CryptoTopic>
    requires RandomStream(rand)
  {
    var p := GemCandidate(rand, c);
    Gem(GemId(i), Vec3(p.0, 1.0, p.1), Topics[i % |Topics|], false)
  }

  /** A gem built from an accepted candidate meets what `GEMS` promises. */
  lemma GemFromPlaced(rand: nat -> real, i: nat, c: nat)
    requires RandomStream(rand) && !CandidateRejected(rand, c)
    ensures GemPlaced(i, GemFrom(rand, i, c))
  {
  }

  /** The draw at which gem i's do-while starts: two draws per candidate read by the
      gems before it. */
  function GemStart(start: nat, counts: seq<nat>, i: nat): (c: nat)
    requires i <= |counts|
    ensures c >= start
  {
    if i == 0 then start else GemStart(start, counts, i - 1) + 2 * counts[i - 1]
  }

  /** Appending a count leaves the start of every earlier gem where it was. */
  lemma {:induction false} GemStartAppend(start: nat, counts: seq<nat>, t: nat, i: nat)
    requires i <= |counts|
    ensures GemStart(start, counts + [t], i) == GemStart(start, counts, i)
  {
    if i > 0 {
      GemStartAppend(start, counts, t, i - 1);
      assert (counts + [t])[i - 1] == counts[i - 1];
    }
  }

  /** Gem `k` was built from the candidate its own do-while accepted, after reading
      `counts[k]` candidates from where the previous gem's stopped. */
  predicate GemSampledAt(rand: nat -> real, start: nat, counts: seq<nat>, gems: seq<Gem<CryptoTopic>>, k: nat)
    requires RandomStream(rand) && k < |counts| && k < |gems|
  {
    && AcceptedAt(rand, GemStart(start, counts, k), counts[k])
    && gems[k] == GemFrom(rand, k, GemStart(start, counts, k) + 2 * (counts[k] - 1))
  }

  /** Every gem so far was sampled in turn. */
  predicate GemsSampled(rand: nat -> real, start: nat, counts: seq<nat>, gems: seq<Gem<CryptoTopic>>)
    requires RandomStream(rand)
  {
    && |gems| == |counts|
    && forall k :: 0 <= k < |counts| ==> GemSampledAt(rand, start, counts, gems, k)
  }

  /** Sampled gems meet what `GEMS` promises and carry distinct ids. */
  lemma GemsSampledPlaced(rand: nat -> real, start: nat, counts: seq<nat>, gems: seq<Gem<CryptoTopic>>)
    requires RandomStream(rand) && GemsSampled(rand, start, counts, gems)
    ensures forall i :: 0 <= i < |gems| ==> GemPlaced(i, gems[i])
    ensures forall i, j :: 0 <= i < j < |gems| ==> gems[i].id != gems[j].id
  {
    forall i | 0 <= i < |gems|
      ensures GemPlaced(i, gems[i])
    {
      assert GemSampledAt(rand, start, counts, gems, i);
      GemFromPlaced(rand, i, GemStart(start, counts, i) + 2 * (counts[i] - 1));
    }
    forall i, j | 0 <= i < j < |gems|
      ensures gems[i].id != gems[j].id
    {
      assert GemSampledAt(rand, start, counts, gems, i) && GemSampledAt(rand, start, counts, gems, j);
      GemIdInjective(i, j);
    }
  }

  /** The loop step of GenerateGems: one more accepted gem extends the sampled prefix. */
  lemma GemsSampledStep(rand: nat -> real, start: nat, counts: seq<nat>, gems: seq<Gem<CryptoTopic>>, t: nat)
    requires RandomStream(rand) && GemsSampled(rand, start, counts, gems)
    requires AcceptedAt(rand, GemStart(start, counts, |counts|), t)
    ensures GemsSampled(rand, start, counts + [t],
      gems + [GemFrom(rand, |counts|, GemStart(start, counts, |counts|) + 2 * (t - 1))])
  {
    var g := GemFrom(rand, |counts|, GemStart(start, counts, |counts|) + 2 * (t - 1));
    forall k | 0 <= k < |counts| + 1
      ensures GemSampledAt(rand, start, counts + [t], gems + [g], k)
    {
      GemSampledAtAppend(rand, start, counts, gems, t, g, k);
    }
  }

  lemma GemSampledAtAppend(rand: nat -> real, start: nat, counts: seq<nat>, gems: seq<Gem<CryptoTopic>>,
                           t: nat, g: Gem<CryptoTopic>, k: nat)
    requires RandomStream(rand) && |gems| == |counts| && k <= |counts|
    requires k < |counts| ==> GemSampledAt(rand, start, counts, gems, k)
    requires k == |counts| ==>
      AcceptedAt(rand, GemStart(start, counts, k), t) && g == GemFrom(rand, k, GemStart(start, counts, k) + 2 * (t - 1))
    ensures GemSampledAt(rand, start, counts + [t], gems + [g], k)
  {
    GemStartAppend(start, counts, t, k);
    if k < |counts| {
      assert (counts + [t])[k] == counts[k] && (gems + [g])[k] == gems[k];
    }
  }

  /**
   * `GEMS`: 50 gems, each placed by its own do-while, which starts at the draw where
   * the previous gem's stopped. `counts[i]` is how many candidates gem i read. On
   * success gem i is built from the candidate its do-while accepted, so it has id
   * `gem-i`, the (i mod 6)-th topic, is uncollected at height 1 and off road inside
   * the sampling square, and the ids are pairwise distinct. `None` means the last
   * gem attempted saw `maxTries` candidates on road. `next` is the first unused draw.
   */
  method GenerateGems(rand: nat -> real, start: nat, maxTries: nat)
    returns (gems: Option<seq<Gem<CryptoTopic>>>, counts: seq<nat>, next: nat)
    requires RandomStream(rand)
    ensures next == GemStart(start, counts, |counts|) && |counts| <= GemCount
    ensures gems.Some? ==> |counts| == GemCount && GemsSampled(rand, start, counts, gems.value)
    ensures gems.Some? ==> forall i :: 0 <= i < GemCount ==> GemPlaced(i, gems.value[i])
    ensures gems.Some? ==> forall i, j :: 0 <= i < j < GemCount ==> gems.value[i].id != gems.value[j].id
    ensures gems.None? ==>
      && 1 <= |counts| && counts[|counts| - 1] == maxTries
      && RejectsAll(rand, GemStart(start, counts, |counts| - 1), maxTries)
      && forall k :: 0 <= k < |counts| - 1 ==> AcceptedAt(rand, GemStart(start, counts, k), counts[k])
  {
    var acc: seq<Gem<CryptoTopic>> := [];
    counts := [];
    next := start;
    while |counts| < GemCount
      invariant |counts| <= GemCount
      invariant GemsSampled(rand, start, counts, acc)
      invariant next == GemStart(start, counts, |counts|)
    {
      var pos, tries := SampleGemPosition(rand, next, maxTries);
      if pos.None? {
        assert RejectsAll(rand, next, maxTries);
        GemStartAppend(start, counts, tries, |counts|);
        SampledAccepted(rand, start, counts, acc, tries);
        counts := counts + [tries];
        next := next + 2 * tries;
        return None, counts, next;
      }
      GemsSampledStep(rand, start, counts, acc, tries);
      GemStartAppend(start, counts, tries, |counts|);
      acc := acc + [GemFrom(rand, |counts|, next + 2 * (tries - 1))];
      counts := counts + [tries];
      next := next + 2 * tries;
    }
    GemsSampledPlaced(rand, start, counts, acc);
    gems := Some(acc);
  }

  /** Two samplings of the same stream agree on every count and every gem: `GEMS` is a
      function of the random stream. */
  lemma GemsSampledUnique(rand: nat -> real, start: nat, c1: seq<nat>, g1: seq<Gem<CryptoTopic>>,
                          c2: seq<nat>, g2: seq<Gem<CryptoTopic>>)
    requires RandomStream(rand)
    requires GemsSampled(rand, start, c1, g1) && GemsSampled(rand, start, c2, g2) && |c1| == |c2|
    ensures c1 == c2 && g1 == g2
  {
    SampledPrefixAgrees(rand, start, c1, g1, c2, g2, |c1|);
    forall k | 0 <= k < |g1|
      ensures g1[k] == g2[k]
    {
      SampledPrefixAgrees(rand, start, c1, g1, c2, g2, k);
      assert GemSampledAt(rand, start, c1, g1, k) && GemSampledAt(rand, start, c2, g2, k);
    }
  }

  lemma {:induction false} SampledPrefixAgrees(rand: nat -> real, start: nat, c1: seq<nat>, g1: seq<Gem<CryptoTopic>>,
                                               c2: seq<nat>, g2: seq<Gem<CryptoTopic>>, k: nat)
    requires RandomStream(rand)
    requires GemsSampled(rand, start, c1, g1) && GemsSampled(rand, start, c2, g2) && |c1| == |c2|
    requires k <= |c1|
    ensures GemStart(start, c1, k) == GemStart(start, c2, k)
    ensures c1[..k] == c2[..k]
  {
    if k > 0 {
      SampledPrefixAgrees(rand, start, c1, g1, c2, g2, k - 1);
      assert GemSampledAt(rand, start, c1, g1, k - 1) && GemSampledAt(rand, start, c2, g2, k - 1);
      AcceptedAtUnique(rand, GemStart(start, c1, k - 1), c1[k - 1], c2[k - 1]);
      assert c1[..k] == c1[..k - 1] + [c1[k - 1]];
      assert c2[..k] == c2[..k - 1] + [c2[k - 1]];
    }
  }

  /** The do-whiles of the gems already sampled each accepted a candidate, also once a
      further count is appended. */
  lemma SampledAccepted(rand: nat -> real, start: nat, counts: seq<nat>, gems: seq<Gem<CryptoTopic>>, t: nat)
    requires RandomStream(rand) && GemsSampled(rand, start, counts, gems)
    ensures forall k :: 0 <= k < |counts| ==> AcceptedAt(rand, GemStart(start, counts + [t], k), (counts + [t])[k])
  {
    forall k | 0 <= k < |counts|
      ensures AcceptedAt(rand, GemStart(start, counts + [t], k), (counts + [t])[k])
    {
      assert GemSampledAt(rand, start, counts, gems, k);
      GemStartAppend(start, counts, t, k);
      assert (counts + [t])[k] == counts[k];
    }
  }

  // ---------------------------------------------------------------------------
  // Monoliths

  /** `MONOLITHS`: five fixed slabs on the block centres around the spawn. */
  function Monoliths(): seq<Monolith<PuzzleType>>
  {
    [ Monolith("m1", Vec3(GridInterval, 0.0, GridInterval), Caesar, "Ancient Caesar Slab", false),
      Monolith("m2", Vec3(-GridInterval, 0.0, GridInterval), HashPuzzle, "Hashing Fountain", false),
      Monolith("m3", Vec3(GridInterval, 0.0, -GridInterval), Vigenere, "Vigenere Obelisk", false),
      Monolith("m4", Vec3(-GridInterval, 0.0, -GridInterval), AsymmetricPuzzle, "Asymmetric Gate", false),
      Monolith("m5", Vec3(0.0, 0.0, GridInterval * 2.0), Substitution, "Substitution Totem", false) ]
  }

  /** Five unsolved monoliths standing on the ground, one per puzzle type. */
  lemma MonolithKinds()
    ensures |Monoliths()| == 5
    ensures forall i :: 0 <= i < 5 ==> !Monoliths()[i].solved && Monoliths()[i].position.y == 0.0
    ensures forall i, j :: 0 <= i < j < 5 ==> Monoliths()[i].kind != Monoliths()[j].kind
    ensures (set m | m in Monoliths() :: m.kind) == {Caesar, HashPuzzle, Vigenere, AsymmetricPuzzle, Substitution}
  {
    var ms := Monoliths();
    assert ms[0].kind == Caesar && ms[1].kind == HashPuzzle && ms[2].kind == Vigenere;
    assert ms[3].kind == AsymmetricPuzzle && ms[4].kind == Substitution;
    assert ms[0] in ms && ms[1] in ms && ms[2] in ms && ms[3] in ms && ms[4] in ms;
  }

  /** Every monolith stands at a block centre, off road. */
  lemma MonolithsOffRoad()
    ensures forall i :: 0 <= i < |Monoliths()| ==> !IsOnRoad(Monoliths()[i].position.x, Monoliths()[i].position.z)
  {
    RoadThresholdIsStrict(1, 1);
    RoadThresholdIsStrict(0, 2);
    IsOnRoadSymmetric(GridInterval, GridInterval);
    IsOnRoadSymmetric(-GridInterval, GridInterval);
    IsOnRoadSymmetric(GridInterval * 2.0, 0.0);
  }

  // ---------------------------------------------------------------------------
  // NPCs

  const NpcCount: nat := 40
  /** Draws used by one NPC: two block indices, the edge coin, one offset, colour,
      gender and skin tone. */
  const NpcDraws: nat := 7

  /** `Math.floor(rand(-halfBlocks, halfBlocks))` for both axes (draws `c`, `c + 1`). */
  function NpcBlock(rand: nat -> real, c: nat): (b: (int, int))
    requires RandomStream(rand)
    ensures -HalfBlocks <= b.0 < HalfBlocks && -HalfBlocks <= b.1 < HalfBlocks
  {
    (Rand(rand(c), -HalfBlocks as real, HalfBlocks as real).Floor,
     Rand(rand(c + 1), -HalfBlocks as real, HalfBlocks as real).Floor)
  }

  /** The i-th NPC, from draws `c .. c + 6`. Exactly one of x and z draws an offset
      (draw `c + 3`); the other sits one unit past the block edge. */
  function NpcAt(i: nat, rand: nat -> real, c: nat): NpcData
    requires RandomStream(rand)
  {
    var (bx, bz) := NpcBlock(rand, c);
    var isEdgeX := rand(c + 2) > 0.5;
    var x := bx as real * GridInterval
      + (if isEdgeX then BlockSize / 2.0 + 1.0 else Rand(rand(c + 3), -BlockSize / 2.0, BlockSize / 2.0));
    var z := bz as real * GridInterval
      + (if !isEdgeX then BlockSize / 2.0 + 1.0 else Rand(rand(c + 3), -BlockSize / 2.0, BlockSize / 2.0));
    NpcData("npc-" + NatToString(i), Vec3(x, 0.0, z))
  }

  /** `NPCS`. */
  function Npcs(rand: nat -> real, start: nat): (npcs: seq<NpcData>)
    requires RandomStream(rand)
    ensures |npcs| == NpcCount
  {
    seq(NpcCount, i requires 0 <= i < NpcCount => NpcAt(i, rand, start + NpcDraws * i))
  }

  /** Each NPC stands in block (bx, bz) with indices in [-8, 7]: one coordinate exactly
      13.5 past its block centre, the other within half a block of it. */
  lemma NpcPlacement(rand: nat -> real, start: nat, i: nat)
    requires RandomStream(rand) && i < NpcCount
    ensures var (bx, bz) := NpcBlock(rand, start + NpcDraws * i);
      var p := Npcs(rand, start)[i].position;
      && -8 <= bx <= 7 && -8 <= bz <= 7 && p.y == 0.0
      && ((p.x - bx as real * GridInterval == 13.5 && -12.5 <= p.z - bz as real * GridInterval < 12.5)
       || (p.z - bz as real * GridInterval == 13.5 && -12.5 <= p.x - bx as real * GridInterval < 12.5))
  {
  }

  /** The NPC ids `npc-0` .. `npc-39` are pairwise distinct. */
  lemma NpcIdsDistinct(rand: nat -> real, start: nat)
    requires RandomStream(rand)
    ensures forall i, j :: 0 <= i < j < NpcCount ==> Npcs(rand, start)[i].id != Npcs(rand, start)[j].id
  {
    var npcs := Npcs(rand, start);
    forall i, j | 0 <= i < j < NpcCount
      ensures npcs[i].id != npcs[j].id
    {
      var p := "npc-";
      assert npcs[i].id == p + NatToString(i) && npcs[j].id == p + NatToString(j);
      if npcs[i].id == npcs[j].id {
        assert NatToString(i) == npcs[i].id[|p|..] == npcs[j].id[|p|..] == NatToString(j);
        NatToStringInjective(i, j);
      }
    }
  }

  /** One unit past the block edge is road, whichever side of zero the block is on. */
  lemma EdgeIsRoad(b: int)
    ensures RoadCoord(b as real * GridInterval + BlockSize / 2.0 + 1.0)
  {
    var x := b as real * GridInterval + BlockSize / 2.0 + 1.0;
    if b >= 0 {
      assert Trunc(x / GridInterval) == b;
    } else {
      assert Trunc(x / GridInterval) == b + 1;
    }
  }

  /** Consequently every NPC spawns on a road. */
  lemma NpcsSpawnOnRoad(rand: nat -> real, start: nat)
    requires RandomStream(rand)
    ensures forall i :: 0 <= i < NpcCount ==>
      IsOnRoad(Npcs(rand, start)[i].position.x, Npcs(rand, start)[i].position.z)
  {
    forall i | 0 <= i < NpcCount
      ensures IsOnRoad(Npcs(rand, start)[i].position.x, Npcs(rand, start)[i].position.z)
    {
      var c := start + NpcDraws * i;
      var (bx, bz) := NpcBlock(rand, c);
      var p := NpcAt(i, rand, c).position;
      assert Npcs(rand, start)[i].position == p;
      if rand(c + 2) > 0.5 {
        EdgeIsRoad(bx);
        assert p.x == bx as real * GridInterval + BlockSize / 2.0 + 1.0;
      } else {
        EdgeIsRoad(bz);
        assert p.z == bz as real * GridInterval + BlockSize / 2.0 + 1.0;
      }
    }
  }
}
