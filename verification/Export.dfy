/** Folding the overlay back into the bundled list at a release (Export in service/admin_words.go). */
module Export {
  import opened Words
  import Overlay
  import opened Dictionary

  datatype WordExport = WordExport(seqNo: int, added: seq<Word>, removed: seq<Word>, aiBlocked: seq<Word>)

  /** The list a release ships: append the added words, delete the removed ones. */
  ghost function Folded(base: set<Word>, e: WordExport): set<Word> {
    (base + (set w | w in e.added)) - (set w | w in e.removed)
  }

  /** What an export must say about the rows it was made from. */
  ghost predicate Describes(base: set<Word>, s: Server, e: WordExport) {
    && (forall w :: w in e.added <==> w in s.rows && s.rows[w].present && w !in base)
    && (forall w :: w in e.removed <==> w in s.rows && !s.rows[w].present && w in base)
    && (forall w :: w in e.aiBlocked <==> w in s.rows && s.rows[w].aiBlocked)
    && (Attained(s) ==> e.seqNo == s.max)
  }

  /** The export of a list of rows, built row by row. */
  function ExportOf(base: set<Word>, rows: seq<Row>): WordExport {
    if rows == [] then WordExport(0, [], [], [])
    else
      var e, o := ExportOf(base, rows[..|rows| - 1]), rows[|rows| - 1];
      WordExport(
        if o.seqNo > e.seqNo then o.seqNo else e.seqNo,
        if o.present && o.word !in base then e.added + [o.word] else e.added,
        if !o.present && o.word in base then e.removed + [o.word] else e.removed,
        if o.aiBlocked then e.aiBlocked + [o.word] else e.aiBlocked)
  }

  lemma {:induction false} ExportLists(base: set<Word>, rows: seq<Row>, w: Word)
    ensures w in ExportOf(base, rows).added <==> exists r :: r in rows && r.word == w && r.present && w !in base
    ensures w in ExportOf(base, rows).removed <==> exists r :: r in rows && r.word == w && !r.present && w in base
    ensures w in ExportOf(base, rows).aiBlocked <==> exists r :: r in rows && r.word == w && r.aiBlocked
  {
    if rows == [] {
    } else {
      var n := |rows| - 1;
      assert rows == rows[..n] + [rows[n]];
      ExportLists(base, rows[..n], w);
    }
  }

  lemma {:induction false} ExportSeq(base: set<Word>, rows: seq<Row>)
    requires RisingRows(rows) && forall r :: r in rows ==> r.seqNo > 0
    ensures ExportOf(base, rows).seqNo == if rows == [] then 0 else rows[|rows| - 1].seqNo
  {
    if rows == [] {
    } else {
      var n := |rows| - 1;
      ExportSeq(base, rows[..n]);
      assert rows[n] in rows;
    }
  }

  lemma ExportDescribes(base: set<Word>, s: Server, rows: seq<Row>)
    requires Keyed(s) && RisingRows(rows)
    requires forall r :: r in rows ==> r.word in s.rows && r == s.rows[r.word]
    requires forall w :: w in s.rows ==> s.rows[w] in rows
    ensures Describes(base, s, ExportOf(base, rows))
  {
    forall w {
      ExportLists(base, rows, w);
    }
    if Attained(s) {
      ExportTellsMax(base, s, rows);
    }
  }

  lemma ExportTellsMax(base: set<Word>, s: Server, rows: seq<Row>)
    requires Keyed(s) && Attained(s) && RisingRows(rows)
    requires forall r :: r in rows ==> r.word in s.rows && r == s.rows[r.word]
    requires forall w :: w in s.rows ==> s.rows[w] in rows
    ensures ExportOf(base, rows).seqNo == s.max
  {
    ExportSeq(base, rows);
    if rows != [] {
      assert rows[|rows| - 1] in rows;
      var w :| w in s.rows && s.rows[w].seqNo == s.max;
      var k :| 0 <= k < |rows| && rows[k] == s.rows[w];
    }
  }

  method MakeExport(svc: Service) returns (out: WordExport)
    requires Keyed(svc.State())
    ensures Describes(svc.engine.base, svc.State(), out)
  {
    var rows := svc.AllOverrides();
    var seqNo := 0;
    var added, removed, aiBlocked := [], [], [];
    for i := 0 to |rows|
      invariant WordExport(seqNo, added, removed, aiBlocked) == ExportOf(svc.engine.base, rows[..i])
    {
      var o := rows[i];
      assert rows[..i + 1][..i] == rows[..i];
      if o.seqNo > seqNo {
        seqNo := o.seqNo;
      }
      if o.present && o.word !in svc.engine.base {
        added := added + [o.word];
      } else if !o.present && o.word in svc.engine.base {
        removed := removed + [o.word];
      }
      if o.aiBlocked {
        aiBlocked := aiBlocked + [o.word];
      }
    }
    assert rows[..|rows|] == rows;
    ExportDescribes(svc.engine.base, svc.State(), rows);
    out := WordExport(seqNo, added, removed, aiBlocked);
  }

  /** The overlay a release may cut down to: the rows of the words the AI never plays. */
  ghost predicate KeepsOnlyBlocks(s: Server, kept: Server) {
    && (forall w :: w in kept.rows <==> w in s.rows && s.rows[w].aiBlocked)
    && (forall w :: w in kept.rows ==> kept.rows[w] == s.rows[w])
  }

  /**
   * Export preserves meaning. The folded list is the set of valid words, the two lists touch only
   * what they may, and the blocks reported are the live ones.
   */
  lemma FoldedListIsTheLiveDictionary(base: set<Word>, s: Server, sets: Overlay.Sets, e: WordExport)
    requires Coupled(base, s.rows, sets) && Describes(base, s, e)
    ensures Folded(base, e) == Overlay.ValidWords(base, sets)
    ensures (forall w :: w in e.added ==> w !in base) && (forall w :: w in e.removed ==> w in base)
    ensures (set w | w in e.aiBlocked) == sets.aiBlocked
  {
    forall w
      ensures w in Folded(base, e) <==> w in Overlay.ValidWords(base, sets)
    {
      assert Overlay.ValidIn(base, sets, w) <==> if w in s.rows then s.rows[w].present else w in base;
    }
  }

  /**
   * Shipping the folded list changes no answer, whether the overlay is kept as it was or cut down to
   * its blocks: the same words are valid, and the same words are closed to the AI.
   */
  lemma ReleaseChangesNoAnswer(base: set<Word>, s: Server, sets: Overlay.Sets, e: WordExport,
                               kept: Server, keptSets: Overlay.Sets)
    requires Coupled(base, s.rows, sets) && Describes(base, s, e)
    requires kept == s || KeepsOnlyBlocks(s, kept)
    requires Coupled(Folded(base, e), kept.rows, keptSets)
    ensures Overlay.ValidWords(Folded(base, e), keptSets) == Overlay.ValidWords(base, sets)
    ensures keptSets.aiBlocked == sets.aiBlocked
  {
    FoldedListIsTheLiveDictionary(base, s, sets, e);
    var live, folded := Overlay.ValidWords(base, sets), Folded(base, e);
    forall w
      ensures w in Overlay.ValidWords(folded, keptSets) <==> w in live
    {
      assert Overlay.ValidIn(base, sets, w) <==> if w in s.rows then s.rows[w].present else w in base;
      assert Overlay.ValidIn(folded, keptSets, w) <==> if w in kept.rows then kept.rows[w].present else w in folded;
    }
  }

  /**
   * An app still on the old list with the whole delta, and one on the new list with the same delta,
   * have the same words: a row says what a word is, not how it changed.
   */
  lemma OldAndNewAppsAgree(base: set<Word>, s: Server, e: WordExport)
    requires Describes(base, s, e)
    ensures ClientWords(Folded(base, e), View(s)) == ClientWords(base, View(s)) == Folded(base, e)
  {
  }
}
