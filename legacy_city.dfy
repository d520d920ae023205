/**
 * The earlier city tables of constants.js: unfiltered random gems with four
 * string topics, a single monolith, twenty free-standing towers and no NPCs.
 * Each table is an `Array.from(...).map` comprehension, so each is a function
 * of the random stream; gems read two draws each, then buildings three each.
 */
module LegacyCity {
  import opened JsNum
  import opened GameTypes

  const LegacyGemCount: nat := 30
  const LegacyBuildingCount: nat := 20

  const LegacyTopics: seq<string> := ["Encryption Basics", "Symmetric Ciphers", "Hashing", "Signatures"]

  /** `GEMS`: gem i reads draws `start + 2i` (x) and `start + 2i + 1` (z). */
  function LegacyGems(rand: nat -> real, start: nat): (gems: seq<Gem<string>>)
    requires RandomStream(rand)
    ensures |gems| == LegacyGemCount
    ensures forall i :: 0 <= i < |gems| ==>
      && gems[i].id == "gem-" + NatToString(i)
      && gems[i].topic == LegacyTopics[i % 4]
      && !gems[i].collected
      && gems[i].position.y == 1.0
      && -100.0 <= gems[i].position.x < 100.0 && -100.0 <= gems[i].position.z < 100.0
  {
    seq(LegacyGemCount, i requires 0 <= i < LegacyGemCount =>
      Gem("gem-" + NatToString(i),
        Vec3(Rand(rand(start + 2 * i), -100.0, 100.0), 1.0, Rand(rand(start + 2 * i + 1), -100.0, 100.0)),
        LegacyTopics[i % 4], false))
  }

  /** The topics cycle with period four: gems i and i + 4 share a topic, and the first
      four gems carry the four topics in order. */
  lemma LegacyTopicsCycle(rand: nat -> real, start: nat)
    requires RandomStream(rand)
    ensures forall i :: 0 <= i < LegacyGemCount - 4 ==>
      LegacyGems(rand, start)[i].topic == LegacyGems(rand, start)[i + 4].topic
    ensures forall t :: t in LegacyTopics ==> exists i :: 0 <= i < 4 && LegacyGems(rand, start)[i].topic == t
  {
    var gems := LegacyGems(rand, start);
    forall i | 0 <= i < LegacyGemCount - 4
      ensures gems[i].topic == gems[i + 4].topic
    {
      assert (i + 4) % 4 == i % 4;
    }
    forall t | t in LegacyTopics
      ensures exists i :: 0 <= i < 4 && gems[i].topic == t
    {
      var i :| 0 <= i < 4 && LegacyTopics[i] == t;
      assert gems[i].topic == t;
    }
  }

  /** `MONOLITHS`: one unsolved Caesar slab. */
  function LegacyMonoliths(): (ms: seq<Monolith<string>>)
    ensures |ms| == 1 && ms[0].kind == "CAESAR" && !ms[0].solved
  {
    [Monolith("m1", Vec3(20.0, 0.0, 20.0), "CAESAR", "Ancient Slab", false)]
  }

  /** `BUILDINGS`: building i reads draws `c + 3i` (x), `c + 3i + 1` (z) and `c + 3i + 2`
      (height), where `c` follows the gem draws. */
  function LegacyBuildings(rand: nat -> real, c: nat): (bs: seq<Building>)
    requires RandomStream(rand)
    ensures |bs| == LegacyBuildingCount
    ensures forall i :: 0 <= i < |bs| ==>
      && bs[i].id == "b-" + NatToString(i)
      && bs[i].scale.x == 10.0 && bs[i].scale.z == 10.0 && 10.0 <= bs[i].scale.y < 40.0
      && bs[i].position.y == 0.0
      && -120.0 <= bs[i].position.x < 120.0 && -120.0 <= bs[i].position.z < 120.0
  {
    seq(LegacyBuildingCount, i requires 0 <= i < LegacyBuildingCount =>
      Building("b-" + NatToString(i),
        Vec3(Rand(rand(c + 3 * i), -120.0, 120.0), 0.0, Rand(rand(c + 3 * i + 1), -120.0, 120.0)),
        Vec3(10.0, Rand(rand(c + 3 * i + 2), 10.0, 40.0), 10.0)))
  }

  /** `NPCS` is empty. */
  function LegacyNpcs(): (npcs: seq<NpcData>)
    ensures npcs == []
  {
    []
  }

  /** The module's tables in evaluation order: the buildings read the draws right
      after the sixty gem draws. */
  function LegacyWorld(rand: nat -> real, start: nat): (w: (seq<Gem<string>>, seq<Monolith<string>>, seq<Building>, seq<NpcData>))
    requires RandomStream(rand)
    ensures |w.0| == LegacyGemCount && |w.1| == 1 && |w.2| == LegacyBuildingCount && w.3 == []
  {
    (LegacyGems(rand, start), LegacyMonoliths(), LegacyBuildings(rand, start + 2 * LegacyGemCount), LegacyNpcs())
  }
}
