/**
 * Loading constants.ts as a whole: its top-level tables are evaluated in source
 * order, so `GEMS` reads the random stream first, `BUILDINGS` continues where the
 * gem sampler stopped and `NPCS` continues after the buildings. `MONOLITHS` reads
 * no draws.
 */
module CityWorld {
  import opened Wrappers
  import opened JsNum
  import opened GameTypes
  import opened City
  import opened CityBuildings

  datatype World = World(
    gems: seq<Gem<CryptoTopic>>,
    monoliths: seq<Monolith<PuzzleType>>,
    buildings: seq<Building>,
    npcs: seq<NpcData>)

  /** Draws read by `NPCS`: seven per NPC. */
  const NpcTableDraws: nat := NpcCount * NpcDraws

  /**
   * The module body: the gem do-whiles from `start`, then the building loops from the
   * first draw the gems left unused, then the NPC table from the first draw the
   * buildings left unused; `next` is the first draw left after all three. `None`
   * means a gem's do-while saw `maxTries` candidates on road, so loading never
   * reaches the later tables in this model.
   */
  method LoadWorld(rand: nat -> real, start: nat, maxTries: nat)
    returns (world: Option<World>, counts: seq<nat>, next: nat)
    requires RandomStream(rand)
    ensures world.Some? ==>
      var gemsEnd := GemStart(start, counts, |counts|);
      var buildingsEnd := Layout(rand, gemsEnd).1;
      && |counts| == GemCount
      && GemsSampled(rand, start, counts, world.value.gems)
      && world.value.monoliths == Monoliths()
      && world.value.buildings == Layout(rand, gemsEnd).0
      && world.value.npcs == Npcs(rand, buildingsEnd)
      && next == buildingsEnd + NpcTableDraws
    ensures world.None? ==>
      && next == GemStart(start, counts, |counts|)
      && 1 <= |counts| && counts[|counts| - 1] == maxTries
      && RejectsAll(rand, GemStart(start, counts, |counts| - 1), maxTries)
    ensures world.Some? ==> WorldApart(world.value)
  {
    var gems, cs, gemsEnd := GenerateGems(rand, start, maxTries);
    counts := cs;
    if gems.None? {
      return None, counts, gemsEnd;
    }
    var buildings, buildingsEnd := GenerateBuildings(rand, gemsEnd);
    var npcs := Npcs(rand, buildingsEnd);
    world := Some(World(gems.value, Monoliths(), buildings, npcs));
    next := buildingsEnd + NpcTableDraws;
    NpcsSpawnOnRoad(rand, buildingsEnd);
    GemsOffNpcs(gems.value, npcs);
  }

  /** Every gem and every monolith stands off road, every NPC on road, so no NPC
      spawns on the ground point of a gem or of a monolith. */
  ghost predicate WorldApart(w: World)
  {
    && (forall g, n :: g in w.gems && n in w.npcs ==> (g.position.x, g.position.z) != (n.position.x, n.position.z))
    && (forall m, n :: m in w.monoliths && n in w.npcs ==> (m.position.x, m.position.z) != (n.position.x, n.position.z))
  }

  lemma GemsOffNpcs(gems: seq<Gem<CryptoTopic>>, npcs: seq<NpcData>)
    requires forall i :: 0 <= i < |gems| ==> GemPlaced(i, gems[i])
    requires forall i :: 0 <= i < |npcs| ==> IsOnRoad(npcs[i].position.x, npcs[i].position.z)
    ensures forall g, n :: g in gems && n in npcs ==> (g.position.x, g.position.z) != (n.position.x, n.position.z)
    ensures forall m, n :: m in Monoliths() && n in npcs ==> (m.position.x, m.position.z) != (n.position.x, n.position.z)
  {
    MonolithsOffRoad();
    forall g, n | g in gems && n in npcs
      ensures (g.position.x, g.position.z) != (n.position.x, n.position.z)
    {
      var i :| 0 <= i < |gems| && gems[i] == g;
      var j :| 0 <= j < |npcs| && npcs[j] == n;
      assert GemPlaced(i, gems[i]);
    }
    forall m, n | m in Monoliths() && n in npcs
      ensures (m.position.x, m.position.z) != (n.position.x, n.position.z)
    {
      var i :| 0 <= i < |Monoliths()| && Monoliths()[i] == m;
      var j :| 0 <= j < |npcs| && npcs[j] == n;
    }
  }
}
