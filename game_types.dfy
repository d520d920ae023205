/**
 * The data shapes of types.ts. Colours, building style, gender, hats and
 * skin tones only affect drawing and are not carried. Gems, monoliths and
 * puzzles are generic in their topic type: types.ts gives them the enums
 * below, while constants.js and App.js use plain strings.
 */
module GameTypes {

  /** The six learning topics, in declaration order. */
  datatype CryptoTopic = Basics | Symmetric | Asymmetric | Hashing | Signatures | Salts
  {
    /** The enum's string value. */
    function Name(): string
    {
      match this
      case Basics => "Basics of Encryption"
      case Symmetric => "Symmetric Ciphers"
      case Asymmetric => "Public Key Cryptography"
      case Hashing => "Data Integrity & Hashing"
      case Signatures => "Digital Signatures"
      case Salts => "Password Salting"
    }
  }

  /** `Object.values(CryptoTopic)`. */
  const Topics: seq<CryptoTopic> := [Basics, Symmetric, Asymmetric, Hashing, Signatures, Salts]

  /** The five puzzle kinds a monolith can hold. */
  datatype PuzzleType = Caesar | HashPuzzle | Vigenere | AsymmetricPuzzle | Substitution
  {
    function Name(): string
    {
      match this
      case Caesar => "CAESAR"
      case HashPuzzle => "HASHING"
      case Vigenere => "VIGENERE"
      case AsymmetricPuzzle => "ASYMMETRIC"
      case Substitution => "SUBSTITUTION"
    }
  }

  datatype Vec3 = Vec3(x: real, y: real, z: real)

  datatype Gem<T> = Gem(id: string, position: Vec3, topic: T, collected: bool)

  datatype Monolith<T> = Monolith(id: string, position: Vec3, kind: T, labelText: string, solved: bool)

  datatype Building = Building(id: string, position: Vec3, scale: Vec3)

  datatype NpcData = NpcData(id: string, position: Vec3)

  datatype Puzzle<T> = Puzzle(
    id: string, topic: T, title: string, tutorial: string,
    task: string, correctAnswer: string, explanation: string)

  datatype PlayerStats = PlayerStats(gemsCollected: seq<string>, score: int, level: int)

  /** Squared distance in the ground plane. */
  function PlanarDistSq(ax: real, az: real, bx: real, bz: real): real
  {
    (ax - bx) * (ax - bx) + (az - bz) * (az - bz)
  }

  /** Squared distance in space. */
  function DistSq(a: Vec3, b: Vec3): real
  {
    (a.x - b.x) * (a.x - b.x) + (a.y - b.y) * (a.y - b.y) + (a.z - b.z) * (a.z - b.z)
  }

  /** `gems.map(g => g.topic === topic ? { ...g, collected: true } : g)`: every gem of the
      topic ends up collected, not only the one approached; no other field and no other gem
      changes, and the list keeps its length and order. */
  function CollectTopic<T(==)>(gems: seq<Gem<T>>, topic: T): (r: seq<Gem<T>>)
    ensures |r| == |gems|
    ensures forall i :: 0 <= i < |gems| ==>
      && r[i].id == gems[i].id && r[i].position == gems[i].position && r[i].topic == gems[i].topic
      && r[i].collected == (gems[i].collected || gems[i].topic == topic)
  {
    seq(|gems|, i requires 0 <= i < |gems| =>
      if gems[i].topic == topic then gems[i].(collected := true) else gems[i])
  }

  /** `monoliths.map(m => m.type === kind ? { ...m, solved: true } : m)`: the monoliths of
      that kind end up solved and nothing else changes. */
  function SolveKind<T(==)>(monoliths: seq<Monolith<T>>, kind: T): (r: seq<Monolith<T>>)
    ensures |r| == |monoliths|
    ensures forall i :: 0 <= i < |monoliths| ==>
      && r[i].id == monoliths[i].id && r[i].position == monoliths[i].position
      && r[i].kind == monoliths[i].kind && r[i].labelText == monoliths[i].labelText
      && r[i].solved == (monoliths[i].solved || monoliths[i].kind == kind)
  {
    seq(|monoliths|, i requires 0 <= i < |monoliths| =>
      if monoliths[i].kind == kind then monoliths[i].(solved := true) else monoliths[i])
  }
}
