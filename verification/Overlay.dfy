/** The copy-on-write overlay over the bundled word list (engine/dictionary.go). */
module Overlay {
  import opened Optional
  import opened Words

  datatype Override = Override(word: Word, present: bool, aiBlocked: bool)

  /** The contents of one overlay snapshot. */
  datatype Sets = Sets(added: set<Word>, removed: set<Word>, aiBlocked: set<Word>)

  const EMPTY := Sets({}, {}, {})

  function ApplyOne(s: Sets, c: Override): Sets {
    var t := if c.present
      then s.(added := s.added + {c.word}, removed := s.removed - {c.word})
      else s.(removed := s.removed + {c.word}, added := s.added - {c.word});
    if c.aiBlocked then t.(aiBlocked := t.aiBlocked + {c.word}) else t.(aiBlocked := t.aiBlocked - {c.word})
  }

  function ApplyAll(s: Sets, cs: seq<Override>): Sets {
    if cs == [] then s else ApplyOne(ApplyAll(s, cs[..|cs| - 1]), cs[|cs| - 1])
  }

  /** What the bundled file lists: its lines without the whitespace around them, blank ones left out. */
  ghost function BaseOf(lines: seq<Word>): set<Word> {
    set l | l in lines && TrimSpace(l) != [] :: TrimSpace(l)
  }

  /** A word is bundled exactly if it is some line of the file with the whitespace around it cut off, and not empty. */
  lemma BundledExactly(lines: seq<Word>, w: Word)
    ensures w in BaseOf(lines) <==> w != [] && exists l :: l in lines && IsTrimmed(l, w)
  {
    if w in BaseOf(lines) {
      var l :| l in lines && TrimSpace(l) == w && w != [];
      var front, back := TrimSpaceCutsTheEnds(l);
      assert IsTrimmed(l, w);
    }
    if w != [] && exists l :: l in lines && IsTrimmed(l, w) {
      var l :| l in lines && IsTrimmed(l, w);
      TrimmedIsUnique(l, w);
    }
  }

  /** IsValid: removed is consulted first, then added, then the bundled list. */
  predicate ValidIn(base: set<Word>, s: Sets, w: Word) {
    w !in s.removed && (w in s.added || w in base)
  }

  /** The set of currently valid words. */
  function ValidWords(base: set<Word>, s: Sets): set<Word> {
    set w | w in base + s.added && ValidIn(base, s, w)
  }

  ghost predicate Disjoint(s: Sets) {
    s.added !! s.removed
  }

  /** The last change a batch makes to w. */
  function LastChange(cs: seq<Override>, w: Word): Option<Override> {
    if cs == [] then None
    else if cs[|cs| - 1].word == w then Some(cs[|cs| - 1])
    else LastChange(cs[..|cs| - 1], w)
  }

  /** Whatever the batch, the last entry for a word decides it and all other words keep their state. */
  lemma {:induction false} LaterEntriesWin(base: set<Word>, s: Sets, cs: seq<Override>, w: Word)
    requires Disjoint(s)
    ensures Disjoint(ApplyAll(s, cs))
    ensures LastChange(cs, w).None? ==>
      (ValidIn(base, ApplyAll(s, cs), w) <==> ValidIn(base, s, w)) &&
      (w in ApplyAll(s, cs).aiBlocked <==> w in s.aiBlocked)
    ensures LastChange(cs, w).Some? ==>
      (ValidIn(base, ApplyAll(s, cs), w) <==> LastChange(cs, w).value.present) &&
      (w in ApplyAll(s, cs).aiBlocked <==> LastChange(cs, w).value.aiBlocked)
  {
    if cs == [] {
    } else {
      LaterEntriesWin(base, s, cs[..|cs| - 1], w);
    }
  }

  lemma {:induction false} ApplyAllConcat(s: Sets, a: seq<Override>, b: seq<Override>)
    ensures ApplyAll(s, a + b) == ApplyAll(ApplyAll(s, a), b)
  {
    if b == [] {
      assert a + b == a;
    } else {
      assert (a + b)[..|a + b| - 1] == a + b[..|b| - 1];
      ApplyAllConcat(s, a, b[..|b| - 1]);
    }
  }

  // ----- two writers at once -----

  /** Two states give the same two answers about w. */
  ghost predicate Agree(base: set<Word>, s: Sets, t: Sets, w: Word) {
    (ValidIn(base, s, w) <==> ValidIn(base, t, w)) && (w in s.aiBlocked <==> w in t.aiBlocked)
  }

  /** What a change asks for is already so. */
  ghost predicate Granted(base: set<Word>, s: Sets, c: Override) {
    (ValidIn(base, s, c.word) <==> c.present) && (c.word in s.aiBlocked <==> c.aiBlocked)
  }

  /**
   * The pointer is loaded and stored without a lock on writers. When b's writer loaded before a's stored, a's batch
   * is lost; that shows for a word exactly when a changed it and b did not.
   */
  lemma RacingWriterIsLostExactly(base: set<Word>, s: Sets, a: seq<Override>, b: seq<Override>, w: Word)
    requires Disjoint(s)
    ensures Agree(base, ApplyAll(s, b), ApplyAll(ApplyAll(s, a), b), w) <==>
      LastChange(b, w).Some? || LastChange(a, w).None? || Granted(base, s, LastChange(a, w).value)
  {
    LaterEntriesWin(base, s, a, w);
    LaterEntriesWin(base, s, b, w);
    LaterEntriesWin(base, ApplyAll(s, a), b, w);
    LastChangeIsTheWords(a, w);
  }

  /** Stored in the other order than the rows, two batches disagree about a word exactly when both change it apart. */
  lemma SwappedWritersAgreeExactly(base: set<Word>, s: Sets, a: seq<Override>, b: seq<Override>, w: Word)
    requires Disjoint(s)
    ensures Agree(base, ApplyAll(ApplyAll(s, b), a), ApplyAll(ApplyAll(s, a), b), w) <==>
      LastChange(a, w).None? || LastChange(b, w).None? || LastChange(a, w) == LastChange(b, w)
  {
    LaterEntriesWin(base, s, a, w);
    LaterEntriesWin(base, s, b, w);
    LaterEntriesWin(base, ApplyAll(s, a), b, w);
    LaterEntriesWin(base, ApplyAll(s, b), a, w);
    LastChangeIsTheWords(a, w);
    LastChangeIsTheWords(b, w);
  }

  lemma {:induction false} LastChangeIsTheWords(cs: seq<Override>, w: Word)
    ensures LastChange(cs, w).Some? ==> LastChange(cs, w).value.word == w
  {
    if cs == [] {
    } else {
      LastChangeIsTheWords(cs[..|cs| - 1], w);
    }
  }

  /** One overlay snapshot; published once and never written again. */
  class Snapshot {
    var added: set<Word>
    var removed: set<Word>
    var aiBlocked: set<Word>

    constructor (s: Sets)
      ensures View() == s
    {
      added, removed, aiBlocked := s.added, s.removed, s.aiBlocked;
    }

    ghost function View(): Sets
      reads this
    {
      Sets(added, removed, aiBlocked)
    }
  }

  lemma OneMoreVisited(visited: seq<Word>, reached: set<Word>, w: Word)
    requires w !in reached && multiset(visited) == multiset(reached)
    ensures multiset(visited + [w]) == multiset(reached + {w})
  {
  }

  /** The live dictionary: an immutable base list and a pointer to the current snapshot. */
  class Engine {
    const base: set<Word>
    var overlay: Snapshot

    /** The lines of the bundled file, trimmed; a line of whitespace alone is no word. */
    constructor (lines: seq<Word>)
      ensures Valid() && View() == EMPTY && fresh(overlay)
      ensures base == BaseOf(lines)
    {
      var words := {};
      for i := 0 to |lines|
        invariant words == BaseOf(lines[..i])
      {
        var w := TrimSpace(lines[i]);
        if w != [] {
          words := words + {w};
        }
        assert lines[..i + 1] == lines[..i] + [lines[i]];
      }
      assert lines[..|lines|] == lines;
      base := words;
      overlay := new Snapshot(EMPTY);
    }

    ghost function View(): Sets
      reads this, overlay
    {
      overlay.View()
    }

    ghost predicate Valid()
      reads this, overlay
    {
      Disjoint(View())
    }

    /** The currently valid words. */
    ghost function Live(): set<Word>
      reads this, overlay
    {
      ValidWords(base, View())
    }

    /** A new snapshot replaces the pointer; the one a reader already loaded keeps its contents. */
    method ApplyOverrides(changes: seq<Override>)
      modifies this`overlay
      ensures View() == ApplyAll(old(View()), changes)
      ensures old(Valid()) ==> Valid()
      ensures changes != [] ==> fresh(overlay)
      ensures changes == [] ==> overlay == old(overlay)
      ensures old(overlay).View() == old(overlay.View())
    {
      if |changes| == 0 {
        return;
      }
      var next := new Snapshot(Sets(overlay.added, overlay.removed, overlay.aiBlocked));
      for i := 0 to |changes|
        modifies next
        invariant next.View() == ApplyAll(old(View()), changes[..i])
        invariant overlay == old(overlay) && overlay != next && overlay.View() == old(overlay.View())
      {
        var c := changes[i];
        if c.present {
          next.added := next.added + {c.word};
          next.removed := next.removed - {c.word};
        } else {
          next.removed := next.removed + {c.word};
          next.added := next.added - {c.word};
        }
        if c.aiBlocked {
          next.aiBlocked := next.aiBlocked + {c.word};
        } else {
          next.aiBlocked := next.aiBlocked - {c.word};
        }
        assert changes[..i + 1][..i] == changes[..i];
      }
      assert changes[..|changes|] == changes;
      ghost var before := old(View());
      if Disjoint(before) {
        LaterEntriesWin(base, before, changes, []);
      }
      overlay := next;
    }

    method IsValid(w: Word) returns (ok: bool)
      ensures ok <==> w in Live()
    {
      if w in overlay.removed {
        return false;
      }
      if w in overlay.added {
        return true;
      }
      return w in base;
    }

    method IsAIBlocked(w: Word) returns (ok: bool)
      ensures ok <==> w in View().aiBlocked
    {
      ok := w in overlay.aiBlocked;
    }

    /** The order eachWord may visit: both maps in any order, each valid word exactly once. */
    method EachWord() returns (visited: seq<Word>)
      requires Valid()
      ensures multiset(visited) == multiset(Live())
    {
      visited := [];
      ghost var reached: set<Word> := {};
      var todo := base;
      while todo != {}
        invariant todo <= base
        invariant reached == set w | w in base - todo && w !in overlay.removed
        invariant multiset(visited) == multiset(reached)
      {
        var w :| w in todo;
        todo := todo - {w};
        if w !in overlay.removed {
          OneMoreVisited(visited, reached, w);
          visited, reached := visited + [w], reached + {w};
        }
      }
      todo := overlay.added;
      while todo != {}
        invariant todo <= overlay.added
        invariant reached == set w | w in base + (overlay.added - todo) && (w in base ==> w !in overlay.removed)
        invariant multiset(visited) == multiset(reached)
      {
        var w :| w in todo;
        todo := todo - {w};
        if w !in base {
          OneMoreVisited(visited, reached, w);
          visited, reached := visited + [w], reached + {w};
        }
      }
      assert reached == Live();
    }
  }
}
