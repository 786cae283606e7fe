/** The hint finder (SuggestWord) and the AI's word picker (SelectAIWord, longestIn). */
module WordPick {
  import opened Words
  import opened Overlay

  const PREFERRED_LENGTH := 3
  const TRAP_LETTERS: set<Rune> := {0x0698, 0x0638, 0x062B, 0x0630, 0x0636}

  // ----- hints -----

  predicate HintEligible(letter: Rune, used: set<Word>, w: Word) {
    FirstLetter(w) == letter && w !in used && |w| >= MIN_WORD_LENGTH
  }

  /** What a hint promises over the set of valid words, whatever order they were visited in. */
  ghost predicate IsHint(dict: set<Word>, letter: Rune, used: set<Word>, r: Word) {
    && (r != [] ==> r in dict && HintEligible(letter, used, r))
    && (r == [] <==> forall w :: w in dict ==> !HintEligible(letter, used, w))
    && (|r| >= PREFERRED_LENGTH <==> exists w :: w in dict && HintEligible(letter, used, w) && |w| >= PREFERRED_LENGTH)
  }

  method SuggestWord(engine: Engine, letter: Rune, used: set<Word>) returns (r: Word)
    requires engine.Valid()
    ensures IsHint(engine.Live(), letter, used, r)
  {
    var visited := engine.EachWord();
    ghost var live := engine.Live();
    assert forall w :: w in visited <==> w in multiset(visited);
    assert forall w :: w in multiset(live) <==> w in live;
    var preferred, fallback := [], [];
    for i := 0 to |visited|
      invariant preferred == []
      invariant forall j :: 0 <= j < i && HintEligible(letter, used, visited[j]) ==>
                  |visited[j]| < PREFERRED_LENGTH && fallback != []
      invariant fallback != [] ==>
        fallback in live && HintEligible(letter, used, fallback) && |fallback| < PREFERRED_LENGTH
    {
      var w := visited[i];
      assert w in visited;
      if FirstLetter(w) != letter || w in used {
        continue;
      }
      if |w| >= PREFERRED_LENGTH {
        preferred := w;
        break;
      }
      if fallback == [] && |w| >= MIN_WORD_LENGTH {
        fallback := w;
      }
    }
    if preferred != [] {
      return preferred;
    }
    return fallback;
  }

  /**
   * A hint for the letter a chain ends on is exactly what ValidateMove accepts next: the hint is
   * legal, it is missing only when nothing is, and it is long whenever some long word is legal.
   */
  lemma HintAgreesWithTheRules(dict: set<Word>, prev: Word, used: set<Word>, r: Word)
    requires forall w :: w in dict ==> WellFormed(w)
    requires prev != [] && IsHint(dict, LastLetter(prev), used, r)
    ensures r != [] ==> ValidateMove(prev, r, used, dict).Accepted?
    ensures r == [] <==> forall w :: !ValidateMove(prev, w, used, dict).Accepted?
    ensures |r| >= 3 <==> exists w :: ValidateMove(prev, w, used, dict).Accepted? && |TrimSpace(w)| >= 3
  {
    var letter := LastLetter(prev);
    forall w | w in dict && HintEligible(letter, used, w)
      ensures ValidateMove(prev, w, used, dict).Accepted? && TrimSpace(w) == w
    {
      WellFormedIsTrimmed(w);
    }
    forall w | ValidateMove(prev, w, used, dict).Accepted?
      ensures TrimSpace(w) in dict && HintEligible(letter, used, TrimSpace(w))
    {
    }
  }

  // ----- the AI's pick -----

  predicate AIEligible(letter: Rune, used: set<Word>, blocked: set<Word>, minLen: int, w: Word) {
    |w| >= minLen && (letter != 0 ==> FirstLetter(w) == letter) && w !in used && w !in blocked
  }

  ghost predicate IsAIPick(dict: set<Word>, blocked: set<Word>, letter: Rune, used: set<Word>, minLen: int, r: Word) {
    && (r != [] ==> r in dict && AIEligible(letter, used, blocked, minLen, r))
    && (r == [] <==> forall w :: w in dict ==> !AIEligible(letter, used, blocked, minLen, w))
  }

  predicate IsTrap(w: Word) {
    LastLetter(w) in TRAP_LETTERS
  }

  /** A trap ends on one of five letters few words begin with: zhe, zah, theh, thal, dad. */
  lemma TrapsEndOnRareLetters(w: Word)
    ensures IsTrap(w) <==> LastLetter(w) in [0x0698, 0x0638, 0x062B, 0x0630, 0x0636]
  {
  }

  /** Go's string order; comparing UTF-8 bytes orders strings like their code points. */
  predicate Less(a: Word, b: Word) {
    if a == [] || b == [] then |a| < |b|
    else if a[0] != b[0] then a[0] < b[0]
    else Less(a[1..], b[1..])
  }

  /** The longest word of a collection, the smallest in string order among equals. */
  ghost predicate IsLongest(words: set<Word>, best: Word) {
    best in words && forall w :: w in words && w != best ==> |w| < |best| || (|w| == |best| && Less(best, w))
  }

  lemma {:induction false} LessIsStrictTotal(a: Word, b: Word, c: Word)
    ensures !(Less(a, b) && Less(b, a))
    ensures a != b ==> Less(a, b) || Less(b, a)
    ensures Less(a, b) && Less(b, c) ==> Less(a, c)
  {
    if a != [] && b != [] {
      LessIsStrictTotal(a[1..], b[1..], if c == [] then [] else c[1..]);
      assert a == [a[0]] + a[1..] && b == [b[0]] + b[1..];
    }
  }

  /** The visiting order of a Go map cannot change the choice: two longest words of one set are equal. */
  lemma LongestIsUnique(words: set<Word>, x: Word, y: Word)
    requires IsLongest(words, x) && IsLongest(words, y)
    ensures x == y
  {
    LessIsStrictTotal(x, y, x);
  }

  method LongestIn(words: seq<Word>) returns (best: Word)
    ensures (forall w :: w in words ==> w == []) ==> best == []
    ensures (exists w :: w in words && w != []) ==> IsLongest((set w | w in words), best)
  {
    best := [];
    var bestLen := 0;
    for i := 0 to |words|
      invariant bestLen == |best|
      invariant best != [] ==> best in words[..i]
      invariant forall j :: 0 <= j < i && words[j] != best ==>
                  |words[j]| < |best| || (|words[j]| == |best| && Less(best, words[j]))
    {
      var w := words[i];
      if |w| > bestLen || (|w| == bestLen && Less(w, best)) {
        forall j | 0 <= j < i && words[j] != w
          ensures |words[j]| < |w| || (|words[j]| == |w| && Less(w, words[j]))
        {
          LessIsStrictTotal(w, best, words[j]);
        }
        best, bestLen := w, |w|;
      } else if w != best {
        LessIsStrictTotal(w, best, w);
      }
    }
    assert words[..|words|] == words;
  }

  /**
   * `roll` is the random draw compared with trapPref; the index drawn afterwards is arbitrary.
   * A trap word is chosen exactly when one exists and the draw falls below the preference.
   */
  method SelectAIWord(engine: Engine, letter: Rune, used: set<Word>, minLen: int, trapPref: real, roll: real,
                      preferLongest: bool)
    returns (r: Word)
    requires engine.Valid()
    ensures minLen >= 1 ==> IsAIPick(engine.Live(), engine.View().aiBlocked, letter, used, minLen, r)
    ensures var live, blocked := engine.Live(), engine.View().aiBlocked;
            var traps := set w | w in live && AIEligible(letter, used, blocked, minLen, w) && IsTrap(w);
            traps != {} && 0.0 < trapPref && roll < trapPref ==> r in traps && (preferLongest ==> IsLongest(traps, r))
  {
    var visited := engine.EachWord();
    ghost var live := engine.Live();
    var blocked := engine.overlay.aiBlocked;
    assert forall w :: w in visited <==> w in multiset(visited);
    assert forall w :: w in multiset(live) <==> w in live;
    var candidates, trapCandidates := [], [];
    for i := 0 to |visited|
      invariant forall w :: w in candidates <==> w in visited[..i] && AIEligible(letter, used, blocked, minLen, w)
      invariant forall w :: w in trapCandidates <==> w in candidates && IsTrap(w)
    {
      var w := visited[i];
      if |w| < minLen || (letter != 0 && FirstLetter(w) != letter) || w in used || w in blocked {
        continue;
      }
      candidates := candidates + [w];
      if LastLetter(w) in TRAP_LETTERS {
        trapCandidates := trapCandidates + [w];
      }
    }
    ghost var traps := set w | w in live && AIEligible(letter, used, blocked, minLen, w) && IsTrap(w);
    assert visited[..|visited|] == visited;
    assert forall w :: w in traps <==> w in trapCandidates;
    assert (set w | w in trapCandidates) == traps;
    if |trapCandidates| > 0 && trapPref > 0.0 && roll < trapPref {
      assert trapCandidates[0] in trapCandidates && IsTrap(trapCandidates[0]);
      if preferLongest {
        r := LongestIn(trapCandidates);
        return;
      }
      var k :| 0 <= k < |trapCandidates|;
      return trapCandidates[k];
    }
    if |candidates| == 0 {
      return [];
    }
    var k :| 0 <= k < |candidates|;
    r := candidates[k];
    assert r in candidates;
  }

  /**
   * The AI asks for LastLetter(prev), where 0 lifts the letter rule. Its word is accepted unless the
   * previous word had nothing but spaces and ZWNJs: then the rule is lifted for the AI only.
   */
  lemma AIPickAgreesWithTheRules(dict: set<Word>, blocked: set<Word>, prev: Word, used: set<Word>, minLen: int, r: Word)
    requires forall w :: w in dict ==> WellFormed(w)
    requires minLen >= MIN_WORD_LENGTH
    requires IsAIPick(dict, blocked, if prev == [] then 0 else LastLetter(prev), used, minLen, r) && r != []
    ensures ValidateMove(prev, r, used, dict).Accepted? <==> prev == [] || LastLetter(prev) != 0
    ensures r !in blocked
  {
    WellFormedIsTrimmed(r);
    assert r[0] in r;
  }

  /** A dictionary that holds a word of ZWNJs alone meets the exceptional case. */
  lemma AIPickCanBeRefused()
    ensures var dict: set<Word> := {[ZWNJ, ZWNJ], [0x0628, 0x0627]};
      && (forall w :: w in dict ==> WellFormed(w))
      && ValidateMove([], [ZWNJ, ZWNJ], {}, dict).Accepted?
      && IsAIPick(dict, {}, LastLetter([ZWNJ, ZWNJ]), {[ZWNJ, ZWNJ]}, 2, [0x0628, 0x0627])
      && ValidateMove([ZWNJ, ZWNJ], [0x0628, 0x0627], {[ZWNJ, ZWNJ]}, dict) == WrongLetter
  {
    var zz: Word := [ZWNJ, ZWNJ];
    var ba: Word := [0x0628, 0x0627];
    WellFormedIsTrimmed(zz);
    WellFormedIsTrimmed(ba);
    assert TrimRight(zz) == zz;
    LastLetterIsTheLastNonZwnj(zz);
  }
}
