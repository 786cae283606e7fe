/** Words as sequences of code points, and the move validator (engine/validator.go). */
module Words {

  type Rune = int
  type Word = seq<Rune>

  /** The zero-width non-joiner: legal inside a word, but never a letter. */
  const ZWNJ: Rune := 0x200C

  /** What decoding a rune from an empty string yields. */
  const RUNE_ERROR: Rune := 0xFFFD

  const MIN_WORD_LENGTH := 2

  predicate IsPersianLetter(r: Rune) {
    || 0x0621 <= r <= 0x0624
    || 0x0626 <= r <= 0x0628
    || 0x062A <= r <= 0x063A
    || 0x0641 <= r <= 0x0642
    || 0x0644 <= r <= 0x0648
    || r == 0x067E || r == 0x0686 || r == 0x0698 || r == 0x06A9 || r == 0x06AF || r == 0x06CC
  }

  /** unicode.IsSpace. */
  predicate IsSpace(r: Rune) {
    || 0x09 <= r <= 0x0D
    || r == 0x20 || r == 0x85 || r == 0xA0 || r == 0x1680
    || 0x2000 <= r <= 0x200A
    || r == 0x2028 || r == 0x2029 || r == 0x202F || r == 0x205F || r == 0x3000
  }

  /** A rune rule 2 of ValidateMove lets through. */
  predicate IsWordRune(r: Rune) {
    IsPersianLetter(r) || r == ZWNJ
  }

  predicate WellFormed(w: Word) {
    forall r :: r in w ==> IsWordRune(r)
  }

  function TrimLeft(w: Word): Word {
    if w != [] && IsSpace(w[0]) then TrimLeft(w[1..]) else w
  }

  function TrimRight(w: Word): Word {
    if w != [] && IsSpace(w[|w| - 1]) then TrimRight(w[..|w| - 1]) else w
  }

  function TrimSpace(w: Word): Word {
    TrimRight(TrimLeft(w))
  }

  function StripZwnj(w: Word): Word {
    if w == [] then []
    else (if w[0] == ZWNJ then [] else [w[0]]) + StripZwnj(w[1..])
  }

  function LastLetter(w: Word): Rune {
    var cleaned := StripZwnj(TrimRight(w));
    if cleaned == [] then 0 else cleaned[|cleaned| - 1]
  }

  function FirstLetter(w: Word): Rune {
    if w == [] then RUNE_ERROR else w[0]
  }

  datatype Verdict = Accepted | InvalidChars | TooShort | WrongLetter | AlreadyUsed | NotInDict

  /** The six rules in order; `dict` is the set of currently valid words. */
  function ValidateMove(prev: Word, word: Word, used: set<Word>, dict: set<Word>): Verdict {
    var w := TrimSpace(word);
    if !WellFormed(w) then InvalidChars
    else if |w| < MIN_WORD_LENGTH then TooShort
    else if prev != [] && FirstLetter(w) != LastLetter(prev) then WrongLetter
    else if w in used then AlreadyUsed
    else if w !in dict then NotInDict
    else Accepted
  }

  lemma {:induction false} StrippedHasNoZwnj(w: Word)
    ensures ZWNJ !in StripZwnj(w)
  {
    if w == [] {
    } else {
      StrippedHasNoZwnj(w[1..]);
    }
  }

  /** The linking letter is never a ZWNJ, so a word that begins with one can only open a chain. */
  lemma LinkLetterIsNeverZwnj(prev: Word)
    ensures LastLetter(prev) != ZWNJ
  {
    StrippedHasNoZwnj(TrimRight(prev));
  }

  lemma WellFormedIsTrimmed(w: Word)
    requires WellFormed(w)
    ensures TrimSpace(w) == w
  {
    assert w != [] ==> w[0] in w && w[|w| - 1] in w;
  }

  predicate AllSpace(w: Word) {
    forall r :: r in w ==> IsSpace(r)
  }

  /** Trimming only ever cuts whitespace, and leaves none at either end. */
  lemma {:induction false} TrimSpaceCutsTheEnds(w: Word) returns (front: Word, back: Word)
    ensures w == front + TrimSpace(w) + back
    ensures AllSpace(front) && AllSpace(back)
    ensures TrimSpace(w) != [] ==> !IsSpace(TrimSpace(w)[0]) && !IsSpace(TrimSpace(w)[|TrimSpace(w)| - 1])
  {
    front := TrimLeftCuts(w);
    back := TrimRightCuts(TrimLeft(w));
    assert TrimSpace(w) != [] ==> TrimSpace(w)[0] == TrimLeft(w)[0];
  }

  lemma {:induction false} TrimLeftCuts(w: Word) returns (front: Word)
    ensures w == front + TrimLeft(w) && AllSpace(front)
    ensures TrimLeft(w) != [] ==> !IsSpace(TrimLeft(w)[0])
  {
    front := [];
    if w != [] && IsSpace(w[0]) {
      front := TrimLeftCuts(w[1..]);
      assert w == [w[0]] + w[1..];
      front := [w[0]] + front;
    }
  }

  lemma {:induction false} TrimRightCuts(w: Word) returns (back: Word)
    ensures w == TrimRight(w) + back && AllSpace(back)
    ensures TrimRight(w) != [] ==> !IsSpace(TrimRight(w)[|TrimRight(w)| - 1])
  {
    back := [];
    if w != [] && IsSpace(w[|w| - 1]) {
      back := TrimRightCuts(w[..|w| - 1]);
      assert w == w[..|w| - 1] + [w[|w| - 1]];
      back := back + [w[|w| - 1]];
    }
  }

  /** Position k holds the last rune of w that is not a ZWNJ. */
  predicate LastNonZwnjAt(w: Word, k: int) {
    0 <= k < |w| && w[k] != ZWNJ && forall j :: k < j < |w| ==> w[j] == ZWNJ
  }

  lemma {:induction false} StripIsEmptyExactly(w: Word)
    ensures StripZwnj(w) == [] <==> (forall r :: r in w ==> r == ZWNJ)
  {
    if w == [] {
    } else {
      StripIsEmptyExactly(w[1..]);
      assert w == [w[0]] + w[1..];
      assert w[0] in w && forall r :: r in w <==> r == w[0] || r in w[1..];
    }
  }

  lemma {:induction false} StripKeepsTheLast(w: Word)
    requires StripZwnj(w) != []
    ensures exists k :: LastNonZwnjAt(w, k) && w[k] == StripZwnj(w)[|StripZwnj(w)| - 1]
  {
    var rest := w[1..];
    if StripZwnj(rest) != [] {
      StripKeepsTheLast(rest);
      var k :| LastNonZwnjAt(rest, k) && rest[k] == StripZwnj(rest)[|StripZwnj(rest)| - 1];
      assert LastNonZwnjAt(w, k + 1);
    } else {
      StripIsEmptyExactly(rest);
      assert forall j :: 0 < j < |w| ==> w[j] == rest[j - 1] && rest[j - 1] in rest;
      assert LastNonZwnjAt(w, 0);
    }
  }

  /** LastLetter skips trailing spaces, then trailing ZWNJs; 0 means nothing was left. */
  lemma LastLetterIsTheLastNonZwnj(w: Word)
    ensures (forall r :: r in TrimRight(w) ==> r == ZWNJ) ==> LastLetter(w) == 0
    ensures (exists r :: r in TrimRight(w) && r != ZWNJ) ==>
      exists k :: LastNonZwnjAt(TrimRight(w), k) && LastLetter(w) == TrimRight(w)[k]
  {
    StripIsEmptyExactly(TrimRight(w));
    if StripZwnj(TrimRight(w)) != [] {
      StripKeepsTheLast(TrimRight(w));
    }
  }

  // ----- the alphabet -----

  /** The letters of the game, with the hamza forms: alef to ghain, feh to waw, and the six of Persian alone. */
  const ALPHABET: set<Rune> := {
    0x0621, 0x0622, 0x0623, 0x0624, 0x0626, 0x0627, 0x0628, 0x062A, 0x062B, 0x062C, 0x062D, 0x062E, 0x062F, 0x0630,
    0x0631, 0x0632, 0x0633, 0x0634, 0x0635, 0x0636, 0x0637, 0x0638, 0x0639, 0x063A, 0x0641, 0x0642, 0x0644, 0x0645,
    0x0646, 0x0647, 0x0648, 0x067E, 0x0686, 0x0698, 0x06A9, 0x06AF, 0x06CC}

  /** White space: the controls, the Latin ones, and the separators of the general punctuation block. */
  const SPACES: set<Rune> := {
    0x09, 0x0A, 0x0B, 0x0C, 0x0D, 0x20, 0x85, 0xA0, 0x1680, 0x2000, 0x2001, 0x2002, 0x2003, 0x2004, 0x2005, 0x2006,
    0x2007, 0x2008, 0x2009, 0x200A, 0x2028, 0x2029, 0x202F, 0x205F, 0x3000}

  lemma AlphabetExactly(r: Rune)
    ensures IsPersianLetter(r) <==> r in ALPHABET
    ensures IsSpace(r) <==> r in SPACES
    ensures IsWordRune(r) <==> r in ALPHABET || r == 0x200C
  {
  }

  // ----- the six rules -----

  /** What is left of a word when the whitespace around it is cut off. */
  ghost predicate IsTrimmed(raw: Word, w: Word) {
    && (exists front, back :: AllSpace(front) && AllSpace(back) && raw == front + w + back)
    && (w != [] ==> !IsSpace(w[0]) && !IsSpace(w[|w| - 1]))
  }

  lemma {:induction false} SpacesAreCut(front: Word, w: Word)
    requires AllSpace(front) && (w != [] ==> !IsSpace(w[0]))
    ensures TrimLeft(front + w) == w
  {
    if front == [] {
      assert front + w == w;
    } else {
      assert front[0] in front && (front + w)[1..] == front[1..] + w;
      SpacesAreCut(front[1..], w);
    }
  }

  lemma {:induction false} SpacesAreCutAtTheEnd(w: Word, back: Word)
    requires AllSpace(back) && (w != [] ==> !IsSpace(w[|w| - 1]))
    ensures TrimRight(w + back) == w
  {
    if back == [] {
      assert w + back == w;
    } else {
      var n := |back| - 1;
      assert back[n] in back && (w + back)[..|w + back| - 1] == w + back[..n];
      SpacesAreCutAtTheEnd(w, back[..n]);
    }
  }

  lemma {:induction false} OnlySpacesAreCut(w: Word)
    requires AllSpace(w)
    ensures TrimLeft(w) == []
  {
    if w == [] {
    } else {
      assert w[0] in w;
      OnlySpacesAreCut(w[1..]);
    }
  }

  /** A word has one trimmed form, whatever surrounds it. */
  lemma TrimmedIsUnique(raw: Word, w: Word)
    requires IsTrimmed(raw, w)
    ensures TrimSpace(raw) == w
  {
    var front, back :| AllSpace(front) && AllSpace(back) && raw == front + w + back;
    if w == [] {
      assert AllSpace(raw);
      OnlySpacesAreCut(raw);
    } else {
      assert raw == front + (w + back) && (w + back)[0] == w[0];
      SpacesAreCut(front, w + back);
      SpacesAreCutAtTheEnd(w, back);
    }
  }

  predicate AllLetters(w: Word) {
    forall r :: r in w ==> r in ALPHABET || r == 0x200C
  }

  predicate LinksTo(prev: Word, w: Word) {
    prev != [] ==> w != [] && w[0] == LastLetter(prev)
  }

  /**
   * The verdict on a move, by the word the player meant: letters and ZWNJs only, two at least, on the letter of the
   * word before, not used, and in the dictionary. The first rule broken is the answer.
   */
  lemma VerdictExactly(prev: Word, raw: Word, w: Word, used: set<Word>, dict: set<Word>)
    requires IsTrimmed(raw, w)
    ensures var v := ValidateMove(prev, raw, used, dict);
      && (v == Accepted <==> AllLetters(w) && |w| >= 2 && LinksTo(prev, w) && w !in used && w in dict)
      && (v == InvalidChars <==> !AllLetters(w))
      && (v == TooShort <==> AllLetters(w) && |w| < 2)
      && (v == WrongLetter <==> AllLetters(w) && |w| >= 2 && !LinksTo(prev, w))
      && (v == AlreadyUsed <==> AllLetters(w) && |w| >= 2 && LinksTo(prev, w) && w in used)
      && (v == NotInDict <==> AllLetters(w) && |w| >= 2 && LinksTo(prev, w) && w !in used && w !in dict)
  {
    TrimmedIsUnique(raw, w);
    forall r {
      AlphabetExactly(r);
    }
  }
}
