/**
 * The answer dialogs: components/UI/TutorialModal.tsx, components/UI/PuzzleModal.tsx
 * and the earlier components/UI/TutorialModal.js. Each keeps the typed answer
 * and an `isCorrect` flag (the TypeScript ones also an `error` flag, the puzzle
 * dialog a hint toggle). Submitting compares the answer with the puzzle's; a
 * match shows the success view, which no longer contains the form, and
 * schedules `onSolve`. Scheduled callbacks are recorded in a timer log rather
 * than run; the one that clears the error flag is a separate event.
 */
module Modals {
  import opened JsText

  /** A `setTimeout` the dialog has scheduled: `onSolve`, or the error reset. */
  datatype Timer = SolveAfter(ms: int) | ClearErrorAfter(ms: int)

  /** How many `onSolve` callbacks the log holds. */
  function SolveCount(ts: seq<Timer>): (n: nat)
    ensures n <= |ts|
    ensures n == 0 <==> forall i :: 0 <= i < |ts| ==> !ts[i].SolveAfter?
  {
    if ts == [] then 0
    else SolveCount(ts[..|ts| - 1]) + (if ts[|ts| - 1].SolveAfter? then 1 else 0)
  }

  lemma SolveCountAppend(ts: seq<Timer>, t: Timer)
    ensures SolveCount(ts + [t]) == SolveCount(ts) + (if t.SolveAfter? then 1 else 0)
  {
    assert (ts + [t])[..|ts|] == ts;
  }

  const TutorialSolveDelay: int := 2500
  const PuzzleSolveDelay: int := 3000
  const LegacySolveDelay: int := 2000
  const ErrorFlashDelay: int := 500

  /** TutorialModal.tsx. */
  class TutorialDialog {
    const correctAnswer: string
    var answer: string
    var isCorrect: bool
    var error: bool
    var timers: seq<Timer>

    /** `onSolve` is scheduled once exactly when the answer was accepted. */
    predicate Valid()
      reads this
    {
      SolveCount(timers) == (if isCorrect then 1 else 0)
    }

    constructor(correct: string)
      ensures Valid()
      ensures correctAnswer == correct && answer == "" && !isCorrect && !error && timers == []
    {
      correctAnswer := correct;
      answer := "";
      isCorrect := false;
      error := false;
      timers := [];
    }

    /** The input's `onChange`. */
    method Type(text: string)
      requires Valid()
      modifies this
      ensures Valid()
      ensures answer == text && isCorrect == old(isCorrect) && error == old(error) && timers == old(timers)
    {
      answer := text;
    }

    /**
     * `handleSubmit`. The form exists only until the answer is accepted. A match
     * (both sides trimmed and lower-cased) sets `isCorrect` and schedules `onSolve`
     * after 2500 ms; a mismatch raises the error flag and schedules its reset.
     */
    method Submit() returns (accepted: bool)
      requires Valid()
      modifies this
      ensures Valid()
      ensures accepted <==> !old(isCorrect) && Accepts(old(answer), correctAnswer)
      ensures answer == old(answer)
      ensures old(isCorrect) ==> isCorrect && error == old(error) && timers == old(timers)
      ensures accepted ==>
        isCorrect && error == old(error) && timers == old(timers) + [SolveAfter(TutorialSolveDelay)]
      ensures !old(isCorrect) && !accepted ==>
        !isCorrect && error && timers == old(timers) + [ClearErrorAfter(ErrorFlashDelay)]
    {
      if isCorrect {
        return false;
      }
      accepted := Accepts(answer, correctAnswer);
      if accepted {
        isCorrect := true;
        SolveCountAppend(timers, SolveAfter(TutorialSolveDelay));
        timers := timers + [SolveAfter(TutorialSolveDelay)];
      } else {
        error := true;
        SolveCountAppend(timers, ClearErrorAfter(ErrorFlashDelay));
        timers := timers + [ClearErrorAfter(ErrorFlashDelay)];
      }
    }

    /** The scheduled reset: `setError(false)`. */
    method ClearError()
      requires Valid()
      modifies this
      ensures Valid()
      ensures !error && answer == old(answer) && isCorrect == old(isCorrect) && timers == old(timers)
    {
      error := false;
    }
  }

  /** PuzzleModal.tsx: as above with a 3000 ms delay, the error flag cleared on success,
      and a hint toggle. */
  class PuzzleDialog {
    const correctAnswer: string
    var answer: string
    var showHint: bool
    var error: bool
    var isCorrect: bool
    var timers: seq<Timer>

    predicate Valid()
      reads this
    {
      SolveCount(timers) == (if isCorrect then 1 else 0)
    }

    constructor(correct: string)
      ensures Valid()
      ensures correctAnswer == correct && answer == "" && !showHint && !error && !isCorrect && timers == []
    {
      correctAnswer := correct;
      answer := "";
      showHint := false;
      error := false;
      isCorrect := false;
      timers := [];
    }

    method Type(text: string)
      requires Valid()
      modifies this
      ensures Valid()
      ensures answer == text && showHint == old(showHint) && error == old(error)
      ensures isCorrect == old(isCorrect) && timers == old(timers)
    {
      answer := text;
    }

    /** `handleSubmit`, reachable only while the form is shown. */
    method Submit() returns (accepted: bool)
      requires Valid()
      modifies this
      ensures Valid()
      ensures accepted <==> !old(isCorrect) && Accepts(old(answer), correctAnswer)
      ensures answer == old(answer) && showHint == old(showHint)
      ensures old(isCorrect) ==> isCorrect && error == old(error) && timers == old(timers)
      ensures accepted ==>
        isCorrect && !error && timers == old(timers) + [SolveAfter(PuzzleSolveDelay)]
      ensures !old(isCorrect) && !accepted ==>
        !isCorrect && error && timers == old(timers) + [ClearErrorAfter(ErrorFlashDelay)]
    {
      if isCorrect {
        return false;
      }
      accepted := Accepts(answer, correctAnswer);
      if accepted {
        isCorrect := true;
        error := false;
        SolveCountAppend(timers, SolveAfter(PuzzleSolveDelay));
        timers := timers + [SolveAfter(PuzzleSolveDelay)];
      } else {
        error := true;
        SolveCountAppend(timers, ClearErrorAfter(ErrorFlashDelay));
        timers := timers + [ClearErrorAfter(ErrorFlashDelay)];
      }
    }

    method ClearError()
      requires Valid()
      modifies this
      ensures Valid()
      ensures !error && answer == old(answer) && showHint == old(showHint)
      ensures isCorrect == old(isCorrect) && timers == old(timers)
    {
      error := false;
    }

    /** The hint button: `setShowHint(!showHint)`. It is only on screen while the
        puzzle is unsolved; the success view replaces it. */
    method ToggleHint()
      requires Valid()
      requires !isCorrect
      modifies this
      ensures Valid()
      ensures showHint == !old(showHint)
      ensures answer == old(answer) && error == old(error) && isCorrect == old(isCorrect) && timers == old(timers)
    {
      showHint := !showHint;
    }
  }

  /** TutorialModal.js: the expected answer is lower-cased but not trimmed, a wrong
      answer changes nothing, and `onSolve` follows after 2000 ms. */
  class LegacyTutorialDialog {
    const correctAnswer: string
    var answer: string
    var isCorrect: bool
    var timers: seq<Timer>

    predicate Valid()
      reads this
    {
      SolveCount(timers) == (if isCorrect then 1 else 0)
    }

    constructor(correct: string)
      ensures Valid()
      ensures correctAnswer == correct && answer == "" && !isCorrect && timers == []
    {
      correctAnswer := correct;
      answer := "";
      isCorrect := false;
      timers := [];
    }

    method Type(text: string)
      requires Valid()
      modifies this
      ensures Valid()
      ensures answer == text && isCorrect == old(isCorrect) && timers == old(timers)
    {
      answer := text;
    }

    method Submit() returns (accepted: bool)
      requires Valid()
      modifies this
      ensures Valid()
      ensures accepted <==> !old(isCorrect) && AcceptsUntrimmed(old(answer), correctAnswer)
      ensures answer == old(answer)
      ensures accepted ==> isCorrect && timers == old(timers) + [SolveAfter(LegacySolveDelay)]
      ensures !accepted ==> isCorrect == old(isCorrect) && timers == old(timers)
    {
      if isCorrect {
        return false;
      }
      accepted := AcceptsUntrimmed(answer, correctAnswer);
      if accepted {
        isCorrect := true;
        SolveCountAppend(timers, SolveAfter(LegacySolveDelay));
        timers := timers + [SolveAfter(LegacySolveDelay)];
      }
    }
  }
}
