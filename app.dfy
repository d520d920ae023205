/**
 * The game-state reducer of App.tsx: the React state of the top-level
 * component as the fields of a class, and each handler as a method. The
 * asynchronous tutorial request of `handleInteract` is split into the part
 * that runs before the `await` (`BeginInteract`) and the part that runs when
 * the request settles (`FinishInteract`, with `None` for a rejected request).
 */
module App {
  import opened Wrappers
  import opened GameTypes
  import opened Scoring

  class GameApp {
    var gems: seq<Gem<CryptoTopic>>
    var activeTutorial: Option<Puzzle<CryptoTopic>>
    var loading: bool
    var isLocked: bool
    var stats: PlayerStats
    var lastGemPosition: Option<Vec3>
    var nudgeTrigger: int

    /** The handlers keep the score invariant and only ever count the nudge up. */
    predicate Valid()
      reads this
    {
      Consistent(stats) && nudgeTrigger >= 0
    }

    /** A tutorial, or the loading overlay, is on screen. */
    function IsModalOpen(): bool
      reads this
    {
      activeTutorial.Some? || loading
    }

    /** The `isPaused` flag handed to the world. */
    function IsPaused(): bool
      reads this
    {
      IsModalOpen() || !isLocked
    }

    constructor(initialGems: seq<Gem<CryptoTopic>>)
      ensures Valid()
      ensures gems == initialGems && activeTutorial.None? && !loading && !isLocked
      ensures stats == InitialStats && lastGemPosition.None? && nudgeTrigger == 0
    {
      gems := initialGems;
      activeTutorial := None;
      loading := false;
      isLocked := false;
      stats := InitialStats;
      lastGemPosition := None;
      nudgeTrigger := 0;
      InitialConsistent();
    }

    /**
     * `handleInteract` up to the `await`. A collected gem is ignored. Otherwise the
     * pointer is released, the loading overlay shown and the gem's position kept
     * for a later nudge; `request` is the topic sent to the tutorial service.
     */
    method BeginInteract(gem: Gem<CryptoTopic>) returns (request: Option<CryptoTopic>)
      requires Valid()
      modifies this
      ensures Valid()
      ensures gems == old(gems) && stats == old(stats) && activeTutorial == old(activeTutorial)
      ensures nudgeTrigger == old(nudgeTrigger)
      ensures gem.collected ==>
        && request.None? && loading == old(loading) && isLocked == old(isLocked)
        && lastGemPosition == old(lastGemPosition)
      ensures !gem.collected ==>
        && request == Some(gem.topic) && loading && !isLocked
        && lastGemPosition == Some(gem.position)
        && IsModalOpen() && IsPaused()
    {
      if gem.collected {
        return None;
      }
      isLocked := false;
      loading := true;
      lastGemPosition := Some(gem.position);
      request := Some(gem.topic);
    }

    /** The rest of `handleInteract`: a delivered tutorial becomes active, a failed
        request leaves the active tutorial alone, and loading ends either way. The
        tutorial service stamps the requested topic on what it returns. */
    method FinishInteract(request: CryptoTopic, result: Option<Puzzle<CryptoTopic>>)
      requires Valid()
      requires result.Some? ==> result.value.topic == request
      modifies this
      ensures Valid()
      ensures activeTutorial == (if result.Some? then result else old(activeTutorial))
      ensures result.Some? ==> activeTutorial.Some? && activeTutorial.value.topic == request
      ensures !loading
      ensures gems == old(gems) && stats == old(stats) && isLocked == old(isLocked)
      ensures lastGemPosition == old(lastGemPosition) && nudgeTrigger == old(nudgeTrigger)
    {
      if result.Some? {
        activeTutorial := result;
      }
      loading := false;
    }

    /**
     * `handleSolve`. Without an active tutorial nothing happens. Otherwise the stats
     * record the solve, every gem of the tutorial's topic is collected, and the
     * tutorial and remembered gem position are cleared.
     */
    method Solve()
      requires Valid()
      modifies this
      ensures Valid()
      ensures old(activeTutorial).None? ==>
        && gems == old(gems) && stats == old(stats) && activeTutorial.None?
        && lastGemPosition == old(lastGemPosition)
      ensures old(activeTutorial).Some? ==>
        var t := old(activeTutorial).value;
        && stats == AwardSolve(old(stats), t.id)
        && gems == CollectTopic(old(gems), t.topic)
        && activeTutorial.None? && lastGemPosition.None?
      ensures old(activeTutorial).Some? ==> stats.score == old(stats.score) + SolveReward
      ensures loading == old(loading) && isLocked == old(isLocked) && nudgeTrigger == old(nudgeTrigger)
    {
      if activeTutorial.None? {
        return;
      }
      var t := activeTutorial.value;
      AwardKeepsConsistent(stats, t.id);
      stats := AwardSolve(stats, t.id);
      gems := CollectTopic(gems, t.topic);
      activeTutorial := None;
      lastGemPosition := None;
    }

    /** `handleCancel`: close the tutorial and count one more nudge; the remembered
        gem position stays so that the player can be pushed away from it. */
    method Cancel()
      requires Valid()
      modifies this
      ensures Valid()
      ensures activeTutorial.None? && nudgeTrigger == old(nudgeTrigger) + 1
      ensures nudgeTrigger > 0
      ensures gems == old(gems) && stats == old(stats) && loading == old(loading)
      ensures isLocked == old(isLocked) && lastGemPosition == old(lastGemPosition)
    {
      activeTutorial := None;
      nudgeTrigger := nudgeTrigger + 1;
    }

    /** The pointer-lock control's `onLock`/`onUnlock`. The control is only mounted
        while no modal is open, so with a modal open the events do not arrive. */
    method PointerLock(locked: bool)
      requires Valid()
      modifies this
      ensures Valid()
      ensures isLocked == (if old(IsModalOpen()) then old(isLocked) else locked)
      ensures gems == old(gems) && stats == old(stats) && loading == old(loading)
      ensures activeTutorial == old(activeTutorial) && lastGemPosition == old(lastGemPosition)
      ensures nudgeTrigger == old(nudgeTrigger)
    {
      if !IsModalOpen() {
        isLocked := locked;
      }
    }
  }

  /** After a solve no gem of the solved topic is left uncollected, and no gem that was
      collected becomes uncollected. */
  lemma SolveCollectsWholeTopic(gems: seq<Gem<CryptoTopic>>, topic: CryptoTopic)
    ensures forall i :: 0 <= i < |gems| && gems[i].topic == topic ==> CollectTopic(gems, topic)[i].collected
    ensures forall i :: 0 <= i < |gems| && gems[i].collected ==> CollectTopic(gems, topic)[i].collected
    ensures CollectTopic(CollectTopic(gems, topic), topic) == CollectTopic(gems, topic)
  {
    var once := CollectTopic(gems, topic);
    var twice := CollectTopic(once, topic);
    assert |twice| == |once|;
    forall i | 0 <= i < |once|
      ensures twice[i] == once[i]
    {
      assert twice[i].collected == once[i].collected;
    }
  }
}
