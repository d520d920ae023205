/**
 * The earlier reducer of App.js: the App.tsx handlers plus monoliths, which can
 * also open a tutorial and are marked solved by topic, and a pause-menu flag
 * that no handler ever sets. Topics, monolith kinds and puzzle topics are plain
 * strings here, so a puzzle requested by a monolith carries its kind name as
 * its topic.
 */
module AppLegacy {
  import opened Wrappers
  import opened GameTypes
  import opened Scoring
  import JsNum
  import LegacyCity

  class LegacyApp {
    var gems: seq<Gem<string>>
    var monoliths: seq<Monolith<string>>
    var activeTutorial: Option<Puzzle<string>>
    var loading: bool
    var isLocked: bool
    var showPauseMenu: bool
    var stats: PlayerStats
    var lastGemPosition: Option<Vec3>
    var nudgeTrigger: int

    /** The score invariant, a non-negative nudge count, and the pause menu that
        nothing ever opens. */
    predicate Valid()
      reads this
    {
      Consistent(stats) && nudgeTrigger >= 0 && !showPauseMenu
    }

    function IsModalOpen(): bool
      reads this
    {
      activeTutorial.Some? || loading || showPauseMenu
    }

    function IsPaused(): bool
      reads this
    {
      IsModalOpen() || !isLocked
    }

    /** With the pause menu never shown, the modal test reduces to the App.tsx one. */
    lemma ModalIgnoresPauseMenu()
      requires Valid()
      ensures IsModalOpen() <==> activeTutorial.Some? || loading
    {
    }

    constructor(initialGems: seq<Gem<string>>, initialMonoliths: seq<Monolith<string>>)
      ensures Valid()
      ensures gems == initialGems && monoliths == initialMonoliths
      ensures activeTutorial.None? && !loading && !isLocked && !showPauseMenu
      ensures stats == InitialStats && lastGemPosition.None? && nudgeTrigger == 0
    {
      gems := initialGems;
      monoliths := initialMonoliths;
      activeTutorial := None;
      loading := false;
      isLocked := false;
      showPauseMenu := false;
      stats := InitialStats;
      lastGemPosition := None;
      nudgeTrigger := 0;
      InitialConsistent();
    }

    /** `handleInteract` up to the `await`, as in App.tsx. */
    method BeginInteract(gem: Gem<string>) returns (request: Option<string>)
      requires Valid()
      modifies this
      ensures Valid()
      ensures gems == old(gems) && monoliths == old(monoliths) && stats == old(stats)
      ensures activeTutorial == old(activeTutorial) && nudgeTrigger == old(nudgeTrigger)
      ensures showPauseMenu == old(showPauseMenu)
      ensures gem.collected ==>
        && request.None? && loading == old(loading) && isLocked == old(isLocked)
        && lastGemPosition == old(lastGemPosition)
      ensures !gem.collected ==>
        && request == Some(gem.topic) && loading && !isLocked
        && lastGemPosition == Some(gem.position) && IsPaused()
    {
      if gem.collected {
        return None;
      }
      isLocked := false;
      loading := true;
      lastGemPosition := Some(gem.position);
      request := Some(gem.topic);
    }

    /** `handleMonolithInteract` up to the `await`: like a gem, except that the
        remembered nudge position is left alone. */
    method BeginMonolithInteract(monolith: Monolith<string>) returns (request: Option<string>)
      requires Valid()
      modifies this
      ensures Valid()
      ensures gems == old(gems) && monoliths == old(monoliths) && stats == old(stats)
      ensures activeTutorial == old(activeTutorial) && nudgeTrigger == old(nudgeTrigger)
      ensures showPauseMenu == old(showPauseMenu) && lastGemPosition == old(lastGemPosition)
      ensures monolith.solved ==>
        request.None? && loading == old(loading) && isLocked == old(isLocked)
      ensures !monolith.solved ==>
        request == Some(monolith.kind) && loading && !isLocked && IsPaused()
    {
      if monolith.solved {
        return None;
      }
      isLocked := false;
      loading := true;
      request := Some(monolith.kind);
    }

    /** Either request settling: a delivered tutorial becomes active, loading ends.
        The tutorial service stamps the requested topic or kind on what it returns. */
    method FinishInteract(request: string, result: Option<Puzzle<string>>)
      requires Valid()
      requires result.Some? ==> result.value.topic == request
      modifies this
      ensures Valid()
      ensures activeTutorial == (if result.Some? then result else old(activeTutorial))
      ensures result.Some? ==> activeTutorial.Some? && activeTutorial.value.topic == request
      ensures !loading
      ensures gems == old(gems) && monoliths == old(monoliths) && stats == old(stats)
      ensures isLocked == old(isLocked) && showPauseMenu == old(showPauseMenu)
      ensures lastGemPosition == old(lastGemPosition) && nudgeTrigger == old(nudgeTrigger)
    {
      if result.Some? {
        activeTutorial := result;
      }
      loading := false;
    }

    /** `handleSolve`: the App.tsx update, plus every monolith whose kind equals the
        tutorial's topic is marked solved. */
    method Solve()
      requires Valid()
      modifies this
      ensures Valid()
      ensures old(activeTutorial).None? ==>
        && gems == old(gems) && monoliths == old(monoliths) && stats == old(stats)
        && activeTutorial.None? && lastGemPosition == old(lastGemPosition)
      ensures old(activeTutorial).Some? ==>
        var t := old(activeTutorial).value;
        && stats == AwardSolve(old(stats), t.id)
        && gems == CollectTopic(old(gems), t.topic)
        && monoliths == SolveKind(old(monoliths), t.topic)
        && activeTutorial.None? && lastGemPosition.None?
      ensures loading == old(loading) && isLocked == old(isLocked)
      ensures showPauseMenu == old(showPauseMenu) && nudgeTrigger == old(nudgeTrigger)
    {
      if activeTutorial.None? {
        return;
      }
      var t := activeTutorial.value;
      AwardKeepsConsistent(stats, t.id);
      stats := AwardSolve(stats, t.id);
      gems := CollectTopic(gems, t.topic);
      monoliths := SolveKind(monoliths, t.topic);
      activeTutorial := None;
      lastGemPosition := None;
    }

    /** `handleCancel`: close the tutorial and count one more nudge. */
    method Cancel()
      requires Valid()
      modifies this
      ensures Valid()
      ensures activeTutorial.None? && nudgeTrigger == old(nudgeTrigger) + 1
      ensures gems == old(gems) && monoliths == old(monoliths) && stats == old(stats)
      ensures loading == old(loading) && isLocked == old(isLocked)
      ensures showPauseMenu == old(showPauseMenu) && lastGemPosition == old(lastGemPosition)
    {
      activeTutorial := None;
      nudgeTrigger := nudgeTrigger + 1;
    }

    /** The pointer-lock control, mounted only while no modal is open. */
    method PointerLock(locked: bool)
      requires Valid()
      modifies this
      ensures Valid()
      ensures isLocked == (if old(IsModalOpen()) then old(isLocked) else locked)
      ensures gems == old(gems) && monoliths == old(monoliths) && stats == old(stats)
      ensures loading == old(loading) && activeTutorial == old(activeTutorial)
      ensures showPauseMenu == old(showPauseMenu) && lastGemPosition == old(lastGemPosition)
      ensures nudgeTrigger == old(nudgeTrigger)
    {
      if !IsModalOpen() {
        isLocked := locked;
      }
    }
  }

  /** With the constants.js tables the two kinds of topic never meet: solving the
      monolith's "CAESAR" tutorial collects no gem, and solving any gem topic solves
      no monolith. */
  lemma LegacyTopicsDisjoint(rand: nat -> real, start: nat)
    requires JsNum.RandomStream(rand)
    ensures CollectTopic(LegacyCity.LegacyGems(rand, start), "CAESAR") == LegacyCity.LegacyGems(rand, start)
    ensures forall t :: t in LegacyCity.LegacyTopics ==>
      SolveKind(LegacyCity.LegacyMonoliths(), t) == LegacyCity.LegacyMonoliths()
  {
    var gems := LegacyCity.LegacyGems(rand, start);
    var after := CollectTopic(gems, "CAESAR");
    forall i | 0 <= i < |gems|
      ensures after[i] == gems[i]
    {
      assert gems[i].topic in LegacyCity.LegacyTopics;
    }
  }
}
