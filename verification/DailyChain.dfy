/** The check of an uploaded Daily Challenge chain (service/daily_chain.go) against the play that produces it. */
module DailyChain {
  import opened Words

  const SAFETY_CAP := 200
  const TURN_SECONDS := 15
  const LONG_WORD := 7

  // ----- scores -----

  /** CalculateScore, with times as reals and the conversions to int truncating. */
  function CalculateScore(word: Word, seconds: real, streak: int, limit: real): int {
    var baseScore := |word| * 10;
    var speed := (limit - seconds) * 2.0;
    baseScore + (if speed < 0.0 then 0 else speed.Floor) + (if streak >= 3 then |word| * 5 else 0)
  }

  /** The app's own score of a turn: the same formula, doubled for long words. */
  function TurnScore(word: Word, seconds: real, streak: int): int {
    var score := CalculateScore(word, seconds, streak, 15.0);
    if |word| >= LONG_WORD then score * 2 else score
  }

  function MaxTurnScore(word: Word): int {
    var baseScore := |word| * 10;
    var score := baseScore + TURN_SECONDS * 2 + baseScore / 2;
    if |word| >= LONG_WORD then score * 2 else score
  }

  function MaxScore(chain: seq<Word>): int {
    if chain == [] then 0 else MaxScore(chain[..|chain| - 1]) + MaxTurnScore(chain[|chain| - 1])
  }

  /** The bound of a word is the best its turn can score, and some turn scores it. */
  lemma TurnBoundIsTight(word: Word, seconds: real, streak: int)
    requires seconds >= 0.0
    ensures 0 <= TurnScore(word, seconds, streak) <= MaxTurnScore(word) == TurnScore(word, 0.0, 3)
  {
    assert ((15.0 - 0.0) * 2.0).Floor == 30;
  }

  /** Whole twice a number. */
  lemma TwiceTheRest(k: int)
    ensures (15.0 - k as real / 2.0) * 2.0 == (30 - k) as real
  {
  }

  /**
   * Ten a letter, two a second left of fifteen, five a letter more after three words in a row, and all of it twice
   * for seven letters: exactly so at every half second.
   */
  lemma ScoreAtHalfSeconds(word: Word, k: nat, streak: int)
    ensures var plain := 10 * |word| + (if k < 30 then 30 - k else 0) + (if streak >= 3 then 5 * |word| else 0);
      TurnScore(word, k as real / 2.0, streak) == if |word| >= 7 then 2 * plain else plain
  {
    TwiceTheRest(k);
    assert ((30 - k) as real).Floor == 30 - k;
  }

  lemma FloorsAreInOrder(x: real, y: real)
    requires x <= y
    ensures x.Floor <= y.Floor
  {
  }

  /** And in between a slower turn never scores more. */
  lemma SlowerScoresNoMore(word: Word, a: real, b: real, streak: int)
    requires a <= b
    ensures TurnScore(word, b, streak) <= TurnScore(word, a, streak)
  {
    FloorsAreInOrder((15.0 - b) * 2.0, (15.0 - a) * 2.0);
  }

  /** The bound of a chain is the sum of its words' bounds, each the score of an instant word after three in a row. */
  lemma {:induction false} BoundsAddUp(a: seq<Word>, b: seq<Word>)
    ensures MaxScore(a + b) == MaxScore(a) + MaxScore(b)
  {
    if b == [] {
      assert a + b == a;
    } else {
      var n := |b| - 1;
      assert (a + b)[..|a + b| - 1] == a + b[..n];
      BoundsAddUp(a, b[..n]);
    }
  }

  lemma BoundOfOneWord(word: Word)
    ensures MaxScore([word]) == if |word| >= 7 then 30 * |word| + 60 else 15 * |word| + 30
  {
    var one := [word];
    assert one[..0] == [] && MaxScore([]) == 0;
    assert MaxScore(one) == MaxTurnScore(word);
    HalfOfTen(|word|);
  }

  lemma HalfOfTen(n: nat)
    ensures n * 10 / 2 == 5 * n
  {
  }

  // ----- the chain -----

  /** Word i of the chain keeps the rules, given the words before it. */
  ghost predicate WordOk(start: Word, chain: seq<Word>, i: nat, dict: set<Word>)
    requires i < |chain|
  {
    && (i == 0 ==> start <= chain[0])
    && WellFormed(chain[i]) && |chain[i]| >= MIN_WORD_LENGTH
    && (i > 0 ==> chain[i][0] == LastLetter(chain[i - 1]))
    && (forall j :: 0 <= j < i ==> chain[j] != chain[i])
    && chain[i] in dict
  }

  ghost predicate Legal(start: Word, chain: seq<Word>, dict: set<Word>) {
    forall i :: 0 <= i < |chain| ==> WordOk(start, chain, i, dict)
  }

  datatype Check =
    | Fine | NegativeScore | TooLong | ScoreWithoutWords | WrongStart
    | Untrimmed(index: nat) | BadWord(index: nat, verdict: Verdict) | ScoreTooHigh

  /** The set of words a chain uses. */
  function Used(chain: seq<Word>): set<Word> {
    set w | w in chain
  }

  lemma MoveIsWordOk(start: Word, chain: seq<Word>, i: nat, dict: set<Word>)
    requires i < |chain| && start <= chain[0]
    requires i > 0 ==> chain[i - 1] != []
    ensures var prev := if i == 0 then [] else chain[i - 1];
      TrimSpace(chain[i]) == chain[i] && ValidateMove(prev, chain[i], Used(chain[..i]), dict) == Accepted
      <==> WordOk(start, chain, i, dict)
  {
    if WellFormed(chain[i]) {
      WellFormedIsTrimmed(chain[i]);
    }
    assert chain[i] in Used(chain[..i]) <==> exists j :: 0 <= j < i && chain[j] == chain[i];
  }

  lemma OneMore(chain: seq<Word>, i: nat)
    requires i < |chain|
    ensures Used(chain[..i + 1]) == Used(chain[..i]) + {chain[i]}
    ensures MaxScore(chain[..i + 1]) == MaxScore(chain[..i]) + MaxTurnScore(chain[i])
  {
    assert chain[..i + 1][..i] == chain[..i] && chain[..i + 1] == chain[..i] + [chain[i]];
  }

  /** The game's verdict on word i, after the words before it. */
  function MoveVerdict(chain: seq<Word>, i: nat, dict: set<Word>): Verdict
    requires i < |chain|
  {
    ValidateMove(if i == 0 then [] else chain[i - 1], chain[i], Used(chain[..i]), dict)
  }

  /**
   * Accepts exactly the legal chains with a score between 0 and the sum of the words' bounds; a rejected word
   * is the first that breaks a rule.
   */
  method ValidateDailyChain(start: Word, chain: seq<Word>, score: int, dict: set<Word>) returns (v: Check)
    ensures v == Fine <==> |chain| <= 200 && Legal(start, chain, dict) && 0 <= score <= MaxScore(chain)
    ensures v == NegativeScore <==> score < 0
    ensures v == TooLong <==> score >= 0 && |chain| > 200
    ensures v == ScoreWithoutWords <==> score > 0 && chain == []
    ensures v == WrongStart <==> score >= 0 && 0 < |chain| <= 200 && !(start <= chain[0])
    ensures v.Untrimmed? || v.BadWord? ==>
      v.index < |chain| && !WordOk(start, chain, v.index, dict) &&
      forall j :: 0 <= j < v.index ==> WordOk(start, chain, j, dict)
    ensures v.Untrimmed? ==> chain[v.index] != TrimSpace(chain[v.index])
    ensures v.BadWord? ==> chain[v.index] == TrimSpace(chain[v.index])
    ensures v.BadWord? ==> v.verdict == MoveVerdict(chain, v.index, dict)
    ensures v == ScoreTooHigh ==> Legal(start, chain, dict) && score > MaxScore(chain)
  {
    if score < 0 {
      return NegativeScore;
    }
    if |chain| > SAFETY_CAP {
      return TooLong;
    }
    if |chain| == 0 {
      return if score != 0 then ScoreWithoutWords else Fine;
    }
    if !(start <= chain[0]) {
      assert !WordOk(start, chain, 0, dict);
      return WrongStart;
    }
    var used, prev, maxScore := {}, [], 0;
    for i := 0 to |chain|
      invariant used == Used(chain[..i])
      invariant prev == if i == 0 then [] else chain[i - 1]
      invariant maxScore == MaxScore(chain[..i])
      invariant forall j :: 0 <= j < i ==> WordOk(start, chain, j, dict)
    {
      var w := chain[i];
      assert i > 0 ==> WordOk(start, chain, i - 1, dict);
      MoveIsWordOk(start, chain, i, dict);
      if w != TrimSpace(w) {
        return Untrimmed(i);
      }
      var verdict := ValidateMove(prev, w, used, dict);
      if verdict != Accepted {
        return BadWord(i, verdict);
      }
      used := used + {w};
      prev := w;
      maxScore := maxScore + MaxTurnScore(w);
      OneMore(chain, i);
    }
    assert chain[..|chain|] == chain;
    v := if score > maxScore then ScoreTooHigh else Fine;
  }

  // ----- the app's own play -----

  /** A game in the app: the words so far, the score, and the words since the last restart of the streak. */
  datatype Game = Game(chain: seq<Word>, score: int, streak: nat)

  /** A submitted word with its response time, or a paid continue, which starts the streak over. */
  datatype Turn = Submit(word: Word, seconds: real) | Continue

  const NEW_GAME := Game([], 0, 0)

  /** The app's rules: it links on the last code unit of the previous word, whatever that is. */
  predicate AppAccepts(start: Rune, chain: seq<Word>, word: Word, dict: set<Word>) {
    && |word| >= MIN_WORD_LENGTH
    && WellFormed(word)
    && word[0] ==
      (if chain != [] && chain[|chain| - 1] != [] then chain[|chain| - 1][|chain[|chain| - 1]| - 1] else start)
    && word !in chain
    && word in dict
  }

  /** A mistake costs a life and leaves the chain alone. */
  function TakeTurn(start: Rune, g: Game, turn: Turn, dict: set<Word>): Game {
    match turn
    case Continue => g.(streak := 0)
    case Submit(word, seconds) =>
      if AppAccepts(start, g.chain, word, dict)
      then Game(g.chain + [word], g.score + TurnScore(word, seconds, g.streak), g.streak + 1)
      else g
  }

  function Play(start: Rune, turns: seq<Turn>, dict: set<Word>): Game {
    if turns == [] then NEW_GAME
    else TakeTurn(start, Play(start, turns[..|turns| - 1], dict), turns[|turns| - 1], dict)
  }

  ghost predicate InTime(turns: seq<Turn>) {
    forall turn :: turn in turns && turn.Submit? ==> turn.seconds >= 0.0
  }

  ghost predicate AppChain(start: Rune, chain: seq<Word>, dict: set<Word>) {
    forall i :: 0 <= i < |chain| ==> AppAccepts(start, chain[..i], chain[i], dict)
  }

  lemma {:induction false} PlayedChain(start: Rune, turns: seq<Turn>, dict: set<Word>)
    requires InTime(turns)
    ensures var g := Play(start, turns, dict);
      AppChain(start, g.chain, dict) && 0 <= g.score <= MaxScore(g.chain)
  {
    if turns == [] {
    } else {
      var n := |turns| - 1;
      var g := Play(start, turns[..n], dict);
      PlayedChain(start, turns[..n], dict);
      assert turns[n] in turns;
      if turns[n].Submit? && AppAccepts(start, g.chain, turns[n].word, dict) {
        var after := g.chain + [turns[n].word];
        assert after[..|g.chain|] == g.chain;
        TurnBoundIsTight(turns[n].word, turns[n].seconds, g.streak);
        forall i | 0 <= i < |after|
          ensures AppAccepts(start, after[..i], after[i], dict)
        {
          assert after[..i] == g.chain[..i];
        }
      }
    }
  }

  /** c is where the turns after the last continue begin. */
  ghost predicate LastContinueEndsAt(turns: seq<Turn>, c: nat) {
    && c <= |turns| && (c == 0 || turns[c - 1].Continue?)
    && forall i :: c <= i < |turns| ==> turns[i].Submit?
  }

  /** The words since the last continue. */
  ghost function InARow(start: Rune, turns: seq<Turn>, c: nat, dict: set<Word>): int
    requires c <= |turns|
  {
    |Play(start, turns, dict).chain| - |Play(start, turns[..c], dict).chain|
  }

  lemma {:induction false} StreakIsInARow(start: Rune, turns: seq<Turn>, c: nat, dict: set<Word>)
    requires LastContinueEndsAt(turns, c)
    ensures Play(start, turns, dict).streak == InARow(start, turns, c, dict)
  {
    if c == |turns| {
      assert turns[..c] == turns;
    } else {
      var n := |turns| - 1;
      assert turns[..n][..c] == turns[..c];
      StreakIsInARow(start, turns[..n], c, dict);
    }
  }

  /** A turn adds an accepted word and its score, which counts the words since the last continue; or nothing. */
  lemma TurnIsScoredExactly(start: Rune, turns: seq<Turn>, c: nat, turn: Turn, dict: set<Word>)
    requires LastContinueEndsAt(turns, c)
    ensures var g, h := Play(start, turns, dict), Play(start, turns + [turn], dict);
      if turn.Submit? && AppAccepts(start, g.chain, turn.word, dict)
      then && h.chain == g.chain + [turn.word]
           && h.score == g.score + TurnScore(turn.word, turn.seconds, InARow(start, turns, c, dict))
      else h.chain == g.chain && h.score == g.score
    ensures Play(start, [], dict).score == 0
  {
    StreakIsInARow(start, turns, c, dict);
    assert (turns + [turn])[..|turns|] == turns;
  }

  predicate EndsInALetter(w: Word) {
    w != [] && w[|w| - 1] != ZWNJ
  }

  /** The server skips a trailing ZWNJ, the app does not; on every other word they name the same letter. */
  lemma LinkLettersAgreeExactly(w: Word)
    requires WellFormed(w) && w != []
    ensures LastLetter(w) == w[|w| - 1] <==> EndsInALetter(w)
  {
    LinkLetterIsNeverZwnj(w);
    assert w[|w| - 1] in w;
    assert TrimRight(w) == w;
    if w[|w| - 1] != ZWNJ {
      LastLetterIsTheLastNonZwnj(w);
      var k :| LastNonZwnjAt(w, k) && LastLetter(w) == w[k];
      assert k == |w| - 1;
    }
  }

  /** Word i of an app chain is legal for the server unless the word before it ends in a ZWNJ. */
  lemma AppWordIsLegalExactly(start: Rune, chain: seq<Word>, i: nat, dict: set<Word>)
    requires AppChain(start, chain, dict) && i < |chain|
    ensures chain[i] != []
    ensures WordOk([start], chain, i, dict) <==> i == 0 || EndsInALetter(chain[i - 1])
  {
    assert AppAccepts(start, chain[..i], chain[i], dict);
    if i > 0 {
      assert AppAccepts(start, chain[..i - 1], chain[i - 1], dict);
      LinkLettersAgreeExactly(chain[i - 1]);
      assert chain[..i][|chain[..i]| - 1] == chain[i - 1];
    }
    forall j | 0 <= j < i
      ensures chain[j] != chain[i]
    {
      assert chain[..i][j] == chain[j];
    }
  }

  /**
   * Honest play and the server's check: whatever the player does, the app's upload is accepted exactly when the
   * chain is not over the safety cap and no word but the last ends in a ZWNJ. The score is never the reason.
   */
  lemma HonestPlayIsAcceptedExactly(start: Rune, turns: seq<Turn>, dict: set<Word>)
    requires InTime(turns)
    ensures var g := Play(start, turns, dict);
      && (|g.chain| <= 200 && Legal([start], g.chain, dict) && 0 <= g.score <= MaxScore(g.chain) <==>
          |g.chain| <= 200 && forall i :: 0 <= i < |g.chain| - 1 ==> EndsInALetter(g.chain[i]))
  {
    var chain := Play(start, turns, dict).chain;
    PlayedChain(start, turns, dict);
    forall i | 0 <= i < |chain|
      ensures WordOk([start], chain, i, dict) <==> i == 0 || EndsInALetter(chain[i - 1])
    {
      AppWordIsLegalExactly(start, chain, i, dict);
    }
    if Legal([start], chain, dict) {
      forall i | 0 <= i < |chain| - 1
        ensures EndsInALetter(chain[i])
      {
        assert WordOk([start], chain, i + 1, dict);
      }
    }
  }

  // ----- both conditions are needed -----

  const BEH: Rune := 0x0628

  /** A list with a word that ends in a ZWNJ and one that begins with it makes an upload the server turns down. */
  lemma TrailingZwnjIsTurnedDown()
    ensures var turns := [Submit([BEH, ZWNJ], 1.0), Submit([ZWNJ, BEH], 1.0)];
      var dict := {[BEH, ZWNJ], [ZWNJ, BEH]};
      var g := Play(BEH, turns, dict);
      g.chain == [[BEH, ZWNJ], [ZWNJ, BEH]] && !Legal([BEH], g.chain, dict)
  {
    var turns := [Submit([BEH, ZWNJ], 1.0), Submit([ZWNJ, BEH], 1.0)];
    var dict := {[BEH, ZWNJ], [ZWNJ, BEH]};
    assert turns[..1] == [turns[0]] && turns[..1][..0] == [];
    assert Play(BEH, turns[..1], dict) == TakeTurn(BEH, NEW_GAME, turns[0], dict);
    assert AppAccepts(BEH, [], [BEH, ZWNJ], dict);
    assert Play(BEH, turns[..1], dict).chain == [[BEH, ZWNJ]];
    assert AppAccepts(BEH, [[BEH, ZWNJ]], [ZWNJ, BEH], dict);
    var g := Play(BEH, turns, dict);
    assert g.chain == [[BEH, ZWNJ], [ZWNJ, BEH]];
    LinkLetterIsNeverZwnj(g.chain[0]);
    assert !WordOk([BEH], g.chain, 1, dict);
  }

  /** The word of n letters, all the same. */
  function Repeated(n: nat): Word {
    seq(n, _ => BEH)
  }

  function LongTurns(n: nat): seq<Turn> {
    seq(n, (i: nat) => Submit(Repeated(i + 2), 1.0))
  }

  function LongChain(n: nat): seq<Word> {
    seq(n, (i: nat) => Repeated(i + 2))
  }

  lemma LongerIsAccepted(n: nat, dict: set<Word>)
    requires Repeated(n + 2) in dict
    ensures AppAccepts(BEH, LongChain(n), Repeated(n + 2), dict)
  {
    forall w | w in LongChain(n)
      ensures |w| < |Repeated(n + 2)|
    {
      var i :| 0 <= i < n && w == LongChain(n)[i];
    }
    if n > 0 {
      assert LongChain(n)[n - 1] == Repeated(n + 1);
    }
  }

  lemma {:induction false} LongChainIsPlayed(n: nat, dict: set<Word>)
    requires forall i :: 0 <= i < n ==> LongChain(n)[i] in dict
    ensures Play(BEH, LongTurns(n), dict).chain == LongChain(n)
  {
    if n > 0 {
      var before := LongChain(n - 1);
      forall i | 0 <= i < n - 1
        ensures before[i] in dict
      {
        assert before[i] == LongChain(n)[i];
      }
      LongChainIsPlayed(n - 1, dict);
      assert LongTurns(n)[..n - 1] == LongTurns(n - 1);
      assert LongChain(n) == LongChain(n - 1) + [Repeated(n + 1)];
      assert LongChain(n)[n - 1] in dict;
      LongerIsAccepted(n - 1, dict);
    }
  }

  /** The app has no word limit: a list of 201 linked words plays into an upload over the cap. */
  lemma LongHonestPlayIsTurnedDown()
    ensures exists turns, dict :: InTime(turns) && |Play(BEH, turns, dict).chain| > 200
  {
    var dict := set w | w in LongChain(201);
    LongChainIsPlayed(201, dict);
    assert InTime(LongTurns(201));
  }
}
