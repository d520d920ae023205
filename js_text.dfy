/**
 * `String.prototype.trim` and `String.prototype.toLowerCase`, restricted to
 * ASCII: the whitespace set is space, tab, line feed, vertical tab, form feed
 * and carriage return, and only `A`..`Z` change case.
 */
module JsText {

  predicate IsSpace(c: char)
  {
    c == ' ' || c == '\t' || c == '\n' || c == '\r' || c == 11 as char || c == 12 as char
  }

  predicate AllSpace(s: string)
  {
    forall i :: 0 <= i < |s| ==> IsSpace(s[i])
  }

  /** No whitespace at either end. */
  predicate Trimmed(s: string)
  {
    |s| == 0 || (!IsSpace(s[0]) && !IsSpace(s[|s| - 1]))
  }

  /** `trimStart`: the result does not begin with whitespace and keeps the last character. */
  function TrimStart(s: string): (r: string)
    ensures |r| <= |s|
    ensures |r| == 0 || !IsSpace(r[0])
    ensures |r| == 0 || r[|r| - 1] == s[|s| - 1]
  {
    if |s| > 0 && IsSpace(s[0]) then TrimStart(s[1..]) else s
  }

  /** `trimEnd`: the result does not end with whitespace and keeps the first character. */
  function TrimEnd(s: string): (r: string)
    ensures |r| <= |s|
    ensures |r| == 0 || !IsSpace(r[|r| - 1])
    ensures |r| == 0 || r[0] == s[0]
  {
    if |s| > 0 && IsSpace(s[|s| - 1]) then TrimEnd(s[..|s| - 1]) else s
  }

  /** What `trimStart` drops is whitespace: the result is a suffix of `s` and the rest
      of `s` is all whitespace. */
  lemma {:induction false} TrimStartIsSuffix(s: string)
    ensures s == s[..|s| - |TrimStart(s)|] + TrimStart(s)
    ensures AllSpace(s[..|s| - |TrimStart(s)|])
  {
    if |s| > 0 && IsSpace(s[0]) {
      TrimStartIsSuffix(s[1..]);
      var k := |s| - |TrimStart(s)|;
      assert s[..k] == [s[0]] + s[1..][..k - 1];
    }
  }

  /** What `trimEnd` drops is whitespace: the result is a prefix of `s` and the rest
      of `s` is all whitespace. */
  lemma {:induction false} TrimEndIsPrefix(s: string)
    ensures s == TrimEnd(s) + s[|TrimEnd(s)|..]
    ensures AllSpace(s[|TrimEnd(s)|..])
  {
    if |s| > 0 && IsSpace(s[|s| - 1]) {
      var t := s[..|s| - 1];
      TrimEndIsPrefix(t);
      var k := |TrimEnd(s)|;
      assert s[k..] == t[k..] + [s[|s| - 1]];
    }
  }

  /** `s.trim()`: the result keeps no whitespace at either end. */
  function Trim(s: string): (r: string)
    ensures Trimmed(r)
    ensures |r| <= |s|
  {
    TrimEnd(TrimStart(s))
  }

  function LowerChar(c: char): char
  {
    if 'A' <= c <= 'Z' then (c as int + 32) as char else c
  }

  /** `s.toLowerCase()` on ASCII. */
  function Lower(s: string): (r: string)
    ensures |r| == |s|
    ensures forall i :: 0 <= i < |s| ==> r[i] == LowerChar(s[i])
  {
    seq(|s|, i requires 0 <= i < |s| => LowerChar(s[i]))
  }

  /** The comparison of TutorialModal.tsx and PuzzleModal.tsx: both sides trimmed and lowercased. */
  predicate Accepts(answer: string, correct: string)
  {
    Lower(Trim(answer)) == Lower(Trim(correct))
  }

  /** The comparison of TutorialModal.js and index.js: the expected answer is only lowercased. */
  predicate AcceptsUntrimmed(answer: string, correct: string)
  {
    Lower(Trim(answer)) == Lower(correct)
  }

  // ---------------------------------------------------------------------------
  // Trimming

  lemma {:induction false} TrimStartSpaces(w: string, t: string)
    requires AllSpace(w)
    ensures TrimStart(w + t) == TrimStart(t)
  {
    if |w| > 0 {
      assert (w + t)[1..] == w[1..] + t;
      TrimStartSpaces(w[1..], t);
    } else {
      assert w + t == t;
    }
  }

  lemma {:induction false} TrimEndSpaces(t: string, w: string)
    requires AllSpace(w)
    ensures TrimEnd(t + w) == TrimEnd(t)
  {
    if |w| > 0 {
      assert (t + w)[..|t + w| - 1] == t + w[..|w| - 1];
      TrimEndSpaces(t, w[..|w| - 1]);
    } else {
      assert t + w == t;
    }
  }

  /** Trailing material survives TrimStart once a non-space has been met. */
  lemma {:induction false} TrimStartAppend(s: string, w: string)
    requires !AllSpace(s)
    ensures TrimStart(s + w) == TrimStart(s) + w
  {
    assert |s| > 0;
    if IsSpace(s[0]) {
      assert (s + w)[1..] == s[1..] + w;
      TrimStartAppend(s[1..], w);
    }
  }

  lemma {:induction false} TrimStartAllSpace(s: string)
    requires AllSpace(s)
    ensures TrimStart(s) == []
  {
    if |s| > 0 {
      TrimStartAllSpace(s[1..]);
    }
  }

  /** Whitespace added at either end of the input does not change what `trim` returns. */
  lemma TrimIgnoresPadding(w1: string, s: string, w2: string)
    requires AllSpace(w1) && AllSpace(w2)
    ensures Trim(w1 + s + w2) == Trim(s)
  {
    assert w1 + s + w2 == w1 + (s + w2);
    TrimStartSpaces(w1, s + w2);
    if AllSpace(s) {
      assert AllSpace(s + w2);
      TrimStartAllSpace(s + w2);
      TrimStartAllSpace(s);
    } else {
      TrimStartAppend(s, w2);
      TrimEndSpaces(TrimStart(s), w2);
    }
  }

  /** A string with no whitespace at either end is its own trim. */
  lemma TrimOfTrimmed(s: string)
    requires Trimmed(s)
    ensures Trim(s) == s
  {
  }

  // ---------------------------------------------------------------------------
  // Lowercasing

  lemma LowerKeepsSpace(c: char)
    ensures IsSpace(LowerChar(c)) <==> IsSpace(c)
  {
  }

  lemma {:induction false} TrimStartLower(s: string)
    ensures TrimStart(Lower(s)) == Lower(TrimStart(s))
  {
    if |s| > 0 {
      LowerKeepsSpace(s[0]);
      if IsSpace(s[0]) {
        assert Lower(s)[1..] == Lower(s[1..]);
        TrimStartLower(s[1..]);
      }
    }
  }

  lemma {:induction false} TrimEndLower(s: string)
    ensures TrimEnd(Lower(s)) == Lower(TrimEnd(s))
  {
    if |s| > 0 {
      LowerKeepsSpace(s[|s| - 1]);
      if IsSpace(s[|s| - 1]) {
        assert Lower(s)[..|s| - 1] == Lower(s[..|s| - 1]);
        TrimEndLower(s[..|s| - 1]);
      }
    }
  }

  /** Trimming and lowercasing commute. */
  lemma TrimLowerCommute(s: string)
    ensures Trim(Lower(s)) == Lower(Trim(s))
  {
    TrimStartLower(s);
    TrimEndLower(TrimStart(s));
  }

  // ---------------------------------------------------------------------------
  // Answer acceptance

  /** The stored answer, typed as it is, is accepted. */
  lemma AcceptsCorrectAnswer(correct: string)
    ensures Accepts(correct, correct)
  {
  }

  /** Acceptance ignores ASCII letter case on both sides. */
  lemma AcceptsIgnoresCase(a: string, a': string, c: string, c': string)
    requires Lower(a) == Lower(a') && Lower(c) == Lower(c')
    ensures Accepts(a, c) <==> Accepts(a', c')
  {
    TrimLowerCommute(a);
    TrimLowerCommute(a');
    TrimLowerCommute(c);
    TrimLowerCommute(c');
  }

  /** Acceptance ignores leading and trailing whitespace on both sides. */
  lemma AcceptsIgnoresPadding(w1: string, a: string, w2: string, v1: string, c: string, v2: string)
    requires AllSpace(w1) && AllSpace(w2) && AllSpace(v1) && AllSpace(v2)
    ensures Accepts(w1 + a + w2, v1 + c + v2) <==> Accepts(a, c)
  {
    TrimIgnoresPadding(w1, a, w2);
    TrimIgnoresPadding(v1, c, v2);
  }

  /** Without trimming the expected answer, an expected answer with whitespace
      at either end can never be matched. */
  lemma UntrimmedRejectsPaddedAnswer(answer: string, correct: string)
    requires !Trimmed(correct)
    ensures !AcceptsUntrimmed(answer, correct)
  {
    var t := Trim(answer);
    var n := |correct|;
    LowerKeepsSpace(correct[0]);
    LowerKeepsSpace(correct[n - 1]);
    if |t| == n {
      LowerKeepsSpace(t[0]);
      LowerKeepsSpace(t[n - 1]);
      assert Lower(t)[0] != Lower(correct)[0] || Lower(t)[n - 1] != Lower(correct)[n - 1];
    }
  }

  /** When the expected answer has no surrounding whitespace, the two comparisons agree;
      otherwise the untrimmed one rejects everything. */
  lemma UntrimmedAgreesWhenTrimmed(answer: string, correct: string)
    ensures Trimmed(correct) ==> (AcceptsUntrimmed(answer, correct) <==> Accepts(answer, correct))
    ensures AcceptsUntrimmed(answer, correct) ==> Accepts(answer, correct)
  {
    if Trimmed(correct) {
      TrimOfTrimmed(correct);
    } else {
      UntrimmedRejectsPaddedAnswer(answer, correct);
    }
  }
}
