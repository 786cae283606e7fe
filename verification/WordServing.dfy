/** Override rows from their commit to the live dictionary, with the requests of several admins interleaved. */
module WordServing {
  import opened Optional
  import opened Words
  import Overlay
  import opened Dictionary
  import opened R = WordReview

  // ----- the table follows the log -----

  /** Whether the last add or remove of w was an add; true when there was none. */
  function LastPresent(log: seq<LogEntry>, w: Word): bool {
    if log == [] then true
    else
      var c := log[|log| - 1];
      if c.word == w && (c.action == Add || c.action == Remove) then c.action == Add
      else LastPresent(log[..|log| - 1], w)
  }

  /** Whether the last remove, block or unblock of w was a block; false when there was none. */
  function LastBlocked(log: seq<LogEntry>, w: Word): bool {
    if log == [] then false
    else
      var c := log[|log| - 1];
      if c.word == w && c.action != Add then c.action == AIBlock else LastBlocked(log[..|log| - 1], w)
  }

  predicate Touched(log: seq<LogEntry>, w: Word) {
    exists c :: c in log && c.word == w
  }

  /** A word has a row once an action named it, and each field is decided by the last action that touches it. */
  ghost predicate LoggedRow(overrides: map<Word, Row>, log: seq<LogEntry>, w: Word) {
    && (w in overrides <==> Touched(log, w))
    && (w in overrides ==> overrides[w].present == LastPresent(log, w) && overrides[w].aiBlocked == LastBlocked(log, w))
  }

  ghost predicate LoggedRows(overrides: map<Word, Row>, log: seq<LogEntry>) {
    forall w :: LoggedRow(overrides, log, w)
  }

  lemma {:induction false} UntouchedIsDefault(log: seq<LogEntry>, w: Word)
    requires !Touched(log, w)
    ensures LastPresent(log, w) && !LastBlocked(log, w)
  {
    if log == [] {
    } else {
      assert log[|log| - 1] in log;
      UntouchedIsDefault(log[..|log| - 1], w);
    }
  }

  lemma LogAppend(log: seq<LogEntry>, e: LogEntry, w: Word)
    ensures var after := log + [e];
      && (Touched(after, w) <==> Touched(log, w) || w == e.word)
      && LastPresent(after, w) ==
        (if e.word == w && (e.action == Add || e.action == Remove) then e.action == Add else LastPresent(log, w))
      && LastBlocked(after, w) == if e.word == w && e.action != Add then e.action == AIBlock else LastBlocked(log, w)
  {
    var after := log + [e];
    assert after[..|after| - 1] == log && e in after;
    assert forall c :: c in after <==> c in log || c == e;
  }

  lemma CommitKeepsLoggedRow(s: R.State, word: Word, a: Action, w: Word)
    requires LoggedRow(s.overrides, s.log, w)
    ensures LoggedRow(Commit(s, word, a).overrides, Commit(s, word, a).log, w)
  {
    LogAppend(s.log, LogEntry(word, a), w);
    if w !in s.overrides {
      UntouchedIsDefault(s.log, w);
    }
  }

  // ----- rows on their way -----

  /** A row some request still has to apply, or the service was given since it started. */
  ghost predicate Issued(unapplied: set<Row>, applied: seq<Row>, r: Row) {
    r in unapplied || r in applied
  }

  ghost predicate OneNumberEach(unapplied: set<Row>, applied: seq<Row>) {
    forall r, q :: Issued(unapplied, applied, r) && Issued(unapplied, applied, q) && r.seqNo == q.seqNo ==> r == q
  }

  /** No issued row of a word is younger than the table's. */
  ghost predicate TableIsYoungest(s: R.State) {
    forall r :: Issued(s.unapplied, s.applied, r) ==>
      r.word in s.overrides && 1 <= r.seqNo <= s.overrides[r.word].seqNo <= s.lastSeq
  }

  /** Every row of the table is on its way, or has arrived. */
  ghost predicate TableIsIssued(s: R.State) {
    forall w :: w in s.overrides ==> s.overrides[w].word == w && Issued(s.unapplied, s.applied, s.overrides[w])
  }

  ghost predicate RowsInv(s: R.State) {
    && 0 <= s.lastSeq
    && OneNumberEach(s.unapplied, s.applied) && TableIsYoungest(s) && TableIsIssued(s)
    && s.served == ApplyBatch(NO_ROWS, s.applied)
  }

  ghost predicate TableInv(s: R.State) {
    LoggedRows(s.overrides, s.log) && RowsInv(s)
  }

  lemma CommitKeepsRowsInv(s: R.State, word: Word, a: Action)
    requires RowsInv(s)
    ensures RowsInv(Commit(s, word, a))
    ensures forall r :: Issued(s.unapplied, s.applied, r) ==> r.seqNo < Commit(s, word, a).overrides[word].seqNo
  {
    var t := Commit(s, word, a);
    CommitIssues(s, word, a, t, t.overrides[word]);
    assert OneNumberEach(t.unapplied, t.applied);
    assert TableIsYoungest(t);
  }

  lemma CommitIssues(s: R.State, word: Word, a: Action, t: R.State, row: Row)
    requires RowsInv(s) && t == Commit(s, word, a) && row == t.overrides[word]
    ensures row.word == word && row.seqNo == s.lastSeq + 1 == t.lastSeq
    ensures forall r :: Issued(t.unapplied, t.applied, r) <==> Issued(s.unapplied, s.applied, r) || r == row
    ensures forall r :: Issued(s.unapplied, s.applied, r) ==> r.seqNo < row.seqNo
  {
    forall r
      ensures Issued(t.unapplied, t.applied, r) <==> Issued(s.unapplied, s.applied, r) || r == row
    {
    }
  }

  /**
   * A committed row is younger than every row before it. The upsert is one statement: two of them for one word that
   * took their numbers in one order and the row's lock in the other are not part of this model.
   */
  lemma CommitIsYoungest(s: R.State, word: Word, a: Action)
    requires TableInv(s)
    ensures var t := Commit(s, word, a);
      && TableInv(t)
      && forall r :: Issued(s.unapplied, s.applied, r) ==> r.seqNo < t.overrides[word].seqNo
  {
    CommitKeepsRowsInv(s, word, a);
    forall w {
      CommitKeepsLoggedRow(s, word, a, w);
    }
  }

  lemma DeliverKeepsTableInv(s: R.State, row: Row)
    requires TableInv(s)
    ensures TableInv(Deliver(s, row))
  {
    var t := Deliver(s, row);
    if row in s.unapplied {
      assert t.applied[..|s.applied|] == s.applied;
      assert forall r :: Issued(t.unapplied, t.applied, r) <==> Issued(s.unapplied, s.applied, r);
    }
  }

  /** The rows the service holds are the last ones it was given, word by word. */
  function LastApplied(applied: seq<Row>, w: Word): Option<Row> {
    if applied == [] then None
    else if applied[|applied| - 1].word == w then Some(applied[|applied| - 1])
    else LastApplied(applied[..|applied| - 1], w)
  }

  /** The youngest row of w among them. */
  function Youngest(applied: seq<Row>, w: Word): Option<Row> {
    if applied == [] then None
    else
      var r, y := applied[|applied| - 1], Youngest(applied[..|applied| - 1], w);
      if r.word == w && (y.None? || y.value.seqNo <= r.seqNo) then Some(r) else y
  }

  lemma {:induction false} ServedIsTheLast(applied: seq<Row>, w: Word)
    ensures var t := ApplyBatch(NO_ROWS, applied);
      && (w in t.rows <==> LastApplied(applied, w).Some?)
      && (w in t.rows ==> t.rows[w] == LastApplied(applied, w).value)
  {
    if applied == [] {
    } else {
      ServedIsTheLast(applied[..|applied| - 1], w);
    }
  }

  lemma {:induction false} LastIsGiven(applied: seq<Row>, w: Word)
    ensures LastApplied(applied, w).Some? ==>
      LastApplied(applied, w).value in applied && LastApplied(applied, w).value.word == w
    ensures LastApplied(applied, w).None? ==> forall r :: r in applied ==> r.word != w
  {
    if applied == [] {
    } else {
      LastIsGiven(applied[..|applied| - 1], w);
      assert applied == applied[..|applied| - 1] + [applied[|applied| - 1]];
    }
  }

  lemma {:induction false} YoungestIsTheMaximum(applied: seq<Row>, w: Word)
    ensures var y := Youngest(applied, w);
      && (y.Some? ==> y.value in applied && y.value.word == w)
      && (forall r :: r in applied && r.word == w ==> y.Some? && r.seqNo <= y.value.seqNo)
  {
    if applied == [] {
    } else {
      YoungestIsTheMaximum(applied[..|applied| - 1], w);
      assert applied == applied[..|applied| - 1] + [applied[|applied| - 1]];
    }
  }

  lemma {:induction false} MaxOfTheGiven(applied: seq<Row>)
    ensures var t := ApplyBatch(NO_ROWS, applied);
      t.max >= 0 && forall r :: r in applied ==> r.seqNo <= t.max
  {
    if applied == [] {
    } else {
      MaxOfTheGiven(applied[..|applied| - 1]);
      assert applied == applied[..|applied| - 1] + [applied[|applied| - 1]];
    }
  }

  /** What the service holds is in order for the delta protocol, in every run. */
  lemma ServedIsKeyed(s: R.State)
    requires TableInv(s)
    ensures Keyed(s.served)
  {
    MaxOfTheGiven(s.applied);
    forall w | w in s.served.rows
      ensures s.served.rows[w] in s.applied && s.served.rows[w].word == w
    {
      ServedIsTheLast(s.applied, w);
      LastIsGiven(s.applied, w);
    }
    assert forall r :: r in s.applied ==> Issued(s.unapplied, s.applied, r);
  }

  // ----- what is served -----

  ghost predicate HasUnapplied(s: R.State, w: Word) {
    exists r :: r in s.unapplied && r.word == w
  }

  /** Once every row of a word has arrived, the youngest of them is the table's. */
  lemma YoungestIsTheTables(s: R.State, w: Word)
    requires TableInv(s) && !HasUnapplied(s, w)
    ensures Youngest(s.applied, w) == if w in s.overrides then Some(s.overrides[w]) else None
  {
    YoungestIsTheMaximum(s.applied, w);
    var y := Youngest(s.applied, w);
    if y.Some? {
      assert Issued(s.unapplied, s.applied, y.value);
    }
    if w in s.overrides {
      assert s.overrides[w] in s.applied;
    }
  }

  /** The row of w applied last is the youngest of those applied. */
  ghost predicate LastIsYoungest(applied: seq<Row>, w: Word) {
    LastApplied(applied, w) == Youngest(applied, w)
  }

  /** Two tables have the same row, or none, for w. */
  ghost predicate SameRow(a: map<Word, Row>, b: map<Word, Row>, w: Word) {
    (w in a <==> w in b) && (w in a ==> a[w] == b[w])
  }

  lemma SameRowsAreSameTables(a: map<Word, Row>, b: map<Word, Row>)
    ensures a == b <==> forall w :: SameRow(a, b, w)
  {
    if forall w :: SameRow(a, b, w) {
      forall w
        ensures w in a <==> w in b
      {
        assert SameRow(a, b, w);
      }
      forall w | w in a
        ensures a[w] == b[w]
      {
        assert SameRow(a, b, w);
      }
    }
  }

  lemma ServesTheRowExactly(s: R.State, w: Word)
    requires TableInv(s) && !HasUnapplied(s, w)
    ensures SameRow(s.served.rows, s.overrides, w) <==> LastIsYoungest(s.applied, w)
  {
    ServedIsTheLast(s.applied, w);
    YoungestIsTheTables(s, w);
  }

  /**
   * When the service serves the table. With no row on its way it does exactly if, for every word, the row applied
   * last is the youngest one: the order in which the requests applied their rows, not committed them, decides.
   */
  lemma ServesTheTableExactly(s: R.State)
    requires TableInv(s) && s.unapplied == {}
    ensures s.served.rows == s.overrides <==> forall w :: LastIsYoungest(s.applied, w)
  {
    SameRowsAreSameTables(s.served.rows, s.overrides);
    forall w
      ensures SameRow(s.served.rows, s.overrides, w) <==> LastIsYoungest(s.applied, w)
    {
      ServesTheRowExactly(s, w);
    }
    if forall w :: LastIsYoungest(s.applied, w) {
      assert forall w :: SameRow(s.served.rows, s.overrides, w);
    }
  }

  /** Rows of one word are applied in the order they were committed. */
  ghost predicate InOrder(applied: seq<Row>) {
    forall i, j :: 0 <= i < j < |applied| && applied[i].word == applied[j].word ==> applied[i].seqNo < applied[j].seqNo
  }

  lemma {:induction false} InOrderServesTheTable(applied: seq<Row>, w: Word)
    requires InOrder(applied)
    ensures LastIsYoungest(applied, w)
  {
    if applied == [] {
    } else {
      var init := applied[..|applied| - 1];
      InOrderServesTheTable(init, w);
      YoungestIsTheMaximum(init, w);
    }
  }

  // ----- restarts -----

  lemma ReloadKeepsTableInv(s: R.State, p: seq<Row>)
    requires TableInv(s) && p == Reload(s).applied
    ensures TableInv(Reload(s))
    ensures RisingRows(p) && forall r :: r in p <==> r.word in s.overrides && r == s.overrides[r.word]
  {
    var table := Server(s.overrides, s.lastSeq);
    TableIsKeyed(s);
    PendingIsUnique(table, 0, p);
    forall r
      ensures r in p <==> r.word in s.overrides && r == s.overrides[r.word]
    {
      if r.word in s.overrides && r == s.overrides[r.word] {
        assert Issued(s.unapplied, s.applied, r);
      }
    }
  }

  lemma TableIsKeyed(s: R.State)
    requires TableInv(s)
    ensures Keyed(Server(s.overrides, s.lastSeq))
  {
    assert forall w :: w in s.overrides ==> Issued(s.unapplied, s.applied, s.overrides[w]);
  }

  /** Loading the rows oldest first into an empty service rebuilds the table they came from. */
  lemma RestartServesTheTable(s: R.State)
    requires TableInv(s)
    ensures TableInv(Reload(s)) && Reload(s).served.rows == s.overrides && Attained(Reload(s).served)
  {
    var t := Reload(s);
    ReloadKeepsTableInv(s, t.applied);
    OneRowEachIsInOrder(s.overrides, t.applied);
    InOrderServes(t);
    PositiveNumbers(t);
    LoadIsAttained(t.applied);
  }

  lemma LoadIsAttained(p: seq<Row>)
    requires RisingRows(p) && forall r :: r in p ==> r.seqNo > 0
    ensures Attained(ApplyBatch(NO_ROWS, p))
  {
    RisingIsAttained(p, |p|);
    assert p[..|p|] == p;
  }

  /** Rows applied in the order they were committed serve the table. */
  lemma InOrderServes(s: R.State)
    requires TableInv(s) && s.unapplied == {} && InOrder(s.applied)
    ensures s.served.rows == s.overrides
  {
    forall w {
      InOrderServesTheTable(s.applied, w);
    }
    ServesTheTableExactly(s);
  }

  lemma PositiveNumbers(s: R.State)
    requires TableInv(s)
    ensures forall r :: r in s.applied ==> r.seqNo > 0
  {
    assert forall r :: r in s.applied ==> Issued(s.unapplied, s.applied, r);
  }

  lemma OneRowEachIsInOrder(rows: map<Word, Row>, p: seq<Row>)
    requires RisingRows(p) && forall r :: r in p ==> r.word in rows && r == rows[r.word]
    ensures InOrder(p)
  {
    forall i, j | 0 <= i < j < |p| && p[i].word == p[j].word
      ensures p[i].seqNo < p[j].seqNo
    {
      assert p[i] in p && p[j] in p;
    }
  }

  lemma {:induction false} RisingIsAttained(p: seq<Row>, n: nat)
    requires RisingRows(p) && n <= |p| && forall r :: r in p ==> r.seqNo > 0
    ensures Attained(ApplyBatch(NO_ROWS, p[..n]))
    ensures ApplyBatch(NO_ROWS, p[..n]).max == if n == 0 then 0 else p[n - 1].seqNo
  {
    if n == 0 {
    } else {
      RisingIsAttained(p, n - 1);
      assert p[..n][..n - 1] == p[..n - 1] && p[..n][n - 1] == p[n - 1] && p[n - 1] in p;
      var t := ApplyBatch(NO_ROWS, p[..n]);
      assert p[n - 1].word in t.rows && t.rows[p[n - 1].word] == p[n - 1];
    }
  }

  // ----- every run -----

  lemma ApproveKeepsTableInv(s: R.State, topic: Topic, outcome: Option<Action>)
    requires TableInv(s)
    ensures TableInv(Approve(s, topic, outcome).0)
  {
    var (t, o) := Approve(s, topic, outcome);
    if o == R.Done {
      var u := Review(s, topic, Approved);
      assert TableInv(u);
      CommitIsYoungest(u, topic.word, ActionOf(topic.kind, outcome).value);
      assert t == Commit(u, topic.word, ActionOf(topic.kind, outcome).value).(rewards := t.rewards);
    }
  }

  lemma SameTableKeepsInv(s: R.State, t: R.State)
    requires TableInv(s) && t.overrides == s.overrides && s.lastSeq <= t.lastSeq && t.log == s.log
    requires t.unapplied == s.unapplied && t.applied == s.applied && t.served == s.served
    ensures TableInv(t)
  {
    assert LoggedRows(t.overrides, t.log);
    assert forall r :: Issued(s.unapplied, s.applied, r) <==> Issued(t.unapplied, t.applied, r);
  }

  /** Reports and refusals touch no row, and an undone transaction only takes a number. */
  lemma OtherStepKeepsTableInv(s: R.State, step: R.Step)
    requires TableInv(s) && (step.DoReport? || step.DoReject? || step.RolledBack?)
    ensures TableInv(R.Next(s, step))
  {
    SameTableKeepsInv(s, R.Next(s, step));
  }

  lemma SetKeepsTableInv(s: R.State, word: Word, action: Action)
    requires TableInv(s)
    ensures TableInv(R.Next(s, DoSet(word, action)))
  {
    CommitIsYoungest(s, word, action);
  }

  lemma StepKeepsTableInv(s: R.State, step: R.Step)
    requires TableInv(s)
    ensures TableInv(R.Next(s, step))
  {
    match step
    case DoSet(word, action) => SetKeepsTableInv(s, word, action);
    case DoApprove(topic, outcome) => ApproveKeepsTableInv(s, topic, outcome);
    case Applies(row) => DeliverKeepsTableInv(s, row);
    case Restart => RestartServesTheTable(s);
    case _ => OtherStepKeepsTableInv(s, step);
  }

  /**
   * In every interleaving of reviews, edits, their applications, undone transactions and restarts each field of an
   * override is decided by the last action that touches it, and every row of the table has arrived or will.
   */
  lemma {:induction false} OverridesAreKept(s: R.State, steps: seq<R.Step>)
    requires TableInv(s)
    ensures TableInv(RunAll(s, steps))
    decreases |steps|
  {
    if steps == [] {
    } else {
      StepKeepsTableInv(s, steps[0]);
      OverridesAreKept(R.Next(s, steps[0]), steps[1..]);
    }
  }

  /** The players' answers about w are those of the action log, or of the bundled list when no action named it. */
  ghost predicate FollowsTheLog(s: R.State, base: set<Word>, sets: Overlay.Sets, w: Word) {
    && (Overlay.ValidIn(base, sets, w) <==> if Touched(s.log, w) then LastPresent(s.log, w) else w in base)
    && (w in sets.aiBlocked <==> LastBlocked(s.log, w))
  }

  /** The row of w applied last says the same as the youngest. */
  ghost predicate LastAgrees(applied: seq<Row>, w: Word) {
    LastApplied(applied, w).Some? ==>
      Youngest(applied, w).Some? && ChangeOf(LastApplied(applied, w).value) == ChangeOf(Youngest(applied, w).value)
  }

  /**
   * From the action log to the players, in every run: once no row of a word is on its way, its answers follow the
   * log exactly if the row applied last says the same as the youngest; in particular when they were applied in order.
   */
  lemma ValidityFollowsTheLogExactly(steps: seq<R.Step>, base: set<Word>, sets: Overlay.Sets, w: Word)
    requires Coupled(base, RunAll(R.EMPTY, steps).served.rows, sets) && !HasUnapplied(RunAll(R.EMPTY, steps), w)
    ensures var s := RunAll(R.EMPTY, steps);
      FollowsTheLog(s, base, sets, w) <==> LastAgrees(s.applied, w)
    ensures InOrder(RunAll(R.EMPTY, steps).applied) ==> LastAgrees(RunAll(R.EMPTY, steps).applied, w)
  {
    EmptyTable();
    OverridesAreKept(R.EMPTY, steps);
    var s := RunAll(R.EMPTY, steps);
    WordFollowsTheLogExactly(s, base, sets, w);
    if InOrder(s.applied) {
      InOrderServesTheTable(s.applied, w);
    }
  }

  lemma EmptyTable()
    ensures TableInv(R.EMPTY)
  {
  }

  lemma WordFollowsTheLogExactly(s: R.State, base: set<Word>, sets: Overlay.Sets, w: Word)
    requires TableInv(s) && Coupled(base, s.served.rows, sets) && !HasUnapplied(s, w)
    ensures FollowsTheLog(s, base, sets, w) <==> LastAgrees(s.applied, w)
  {
    YoungestIsTheTables(s, w);
    ServedIsTheLast(s.applied, w);
    LastIsGiven(s.applied, w);
    YoungestIsTheMaximum(s.applied, w);
    assert LoggedRow(s.overrides, s.log, w);
    assert Overlay.ValidIn(base, sets, w) <==> if w in s.served.rows then s.served.rows[w].present else w in base;
    if !Touched(s.log, w) {
      UntouchedIsDefault(s.log, w);
    }
  }

  /** Applying one row keeps every app in step exactly if no younger row was applied before, or it changes nothing. */
  lemma ApplyingKeepsAppsExactly(s: R.State, row: Row)
    requires TableInv(s) && row in s.unapplied
    ensures (forall c :: InSync(s.served, c) && 0 <= c.seqNo <= s.served.max ==> InSync(Deliver(s, row).served, c)) <==>
      row.seqNo > s.served.max ||
      (row.word in s.served.rows && ChangeOf(s.served.rows[row.word]) == ChangeOf(row) &&
       s.served.rows[row.word].seqNo <= row.seqNo)
  {
    ServedIsKeyed(s);
    assert Issued(s.unapplied, s.applied, row);
    ApplyKeepsSyncExactly(s.served, row);
  }

  const SAB: Word := [0x0628, 0x0627]

  /** One admin adds a word, a second removes it, and the second's row is applied first: the removed word is served. */
  lemma SecondAdminIsOvertaken()
    ensures var steps := [DoSet(SAB, Add), DoSet(SAB, Remove), Applies(Row(SAB, false, false, 2)),
                          Applies(Row(SAB, true, false, 1))];
      var s := RunAll(R.EMPTY, steps);
      && s.unapplied == {} && !LastPresent(s.log, SAB)
      && s.served.rows == map[SAB := Row(SAB, true, false, 1)] && s.overrides == map[SAB := Row(SAB, false, false, 2)]
  {
    var r1, r2 := Row(SAB, true, false, 1), Row(SAB, false, false, 2);
    var s1 := R.Next(R.EMPTY, DoSet(SAB, Add));
    assert s1 == R.EMPTY.(overrides := map[SAB := r1], lastSeq := 1, unapplied := {r1}, log := [LogEntry(SAB, Add)]);
    var s2 := R.Next(s1, DoSet(SAB, Remove));
    assert s2 ==
      s1.(overrides := map[SAB := r2], lastSeq := 2, unapplied := {r1, r2},
         log := [LogEntry(SAB, Add), LogEntry(SAB, Remove)]);
    var s3 := R.Next(s2, Applies(r2));
    assert s3 == s2.(unapplied := {r1}, served := Server(map[SAB := r2], 2), applied := [r2]);
    var s4 := R.Next(s3, Applies(r1));
    assert s4 == s3.(unapplied := {}, served := Server(map[SAB := r1], 2), applied := [r2, r1]);
    FourSteps(R.EMPTY, DoSet(SAB, Add), DoSet(SAB, Remove), Applies(r2), Applies(r1));
  }

  lemma FourSteps(s: R.State, a: R.Step, b: R.Step, c: R.Step, d: R.Step)
    ensures RunAll(s, [a, b, c, d]) == R.Next(R.Next(R.Next(R.Next(s, a), b), c), d)
  {
    assert [a, b, c, d][1..] == [b, c, d] && [b, c, d][1..] == [c, d] && [c, d][1..] == [d] && [d][1..] == [];
    var s3 := R.Next(R.Next(R.Next(s, a), b), c);
    assert RunAll(R.Next(s3, d), []) == R.Next(s3, d);
    assert RunAll(s3, [d]) == R.Next(s3, d);
    assert RunAll(R.Next(R.Next(s, a), b), [c, d]) == RunAll(s3, [d]);
  }

  // ----- what the actions mean -----

  /**
   * An AI block or unblock does not mean to change what is valid. It changes nothing exactly unless the word
   * has no row and is not in the bundled list: then the fresh row makes it a valid word.
   */
  lemma AIBlockKeepsValidityExactly(s: R.State, base: set<Word>, word: Word, a: Action)
    requires a == AIBlock || a == AIUnblock
    ensures var valid := if word in s.overrides then s.overrides[word].present else word in base;
      Commit(s, word, a).overrides[word].present == valid <==> word in s.overrides || word in base
  {
  }

  /**
   * Whatever players report and admins do, a well-formed base list stays a well-formed dictionary, which is what
   * the hint and the AI rest on.
   */
  lemma DictionaryStaysWellFormed(steps: seq<R.Step>, base: set<Word>, sets: Overlay.Sets)
    requires Coupled(base, RunAll(R.EMPTY, steps).served.rows, sets)
    requires forall w :: w in base ==> WellFormed(w)
    ensures forall w :: w in Overlay.ValidWords(base, sets) ==> WellFormed(w)
  {
    EmptyTable();
    OverridesAreKept(R.EMPTY, steps);
    OnlyProperWords(R.EMPTY, steps);
    var s := RunAll(R.EMPTY, steps);
    forall w | w in Overlay.ValidWords(base, sets)
      ensures WellFormed(w)
    {
      assert Overlay.ValidIn(base, sets, w);
      ServedIsTheLast(s.applied, w);
      LastIsGiven(s.applied, w);
      if w in s.served.rows {
        assert Issued(s.unapplied, s.applied, s.served.rows[w]);
      }
    }
  }
}
