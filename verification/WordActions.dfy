/** What a report, a review and an edit do to the tables (repository/words.go). */
module WordActions {
  import opened Optional
  import opened Words
  import opened Dictionary
  import opened R = WordReview

  /** Whether w counts as present, and as blocked for the AI, in a table; a fresh row starts present and unblocked. */
  predicate PresentOr(rows: map<Word, Row>, w: Word, none: bool) {
    if w in rows then rows[w].present else none
  }

  predicate BlockedOr(rows: map<Word, Row>, w: Word, none: bool) {
    if w in rows then rows[w].aiBlocked else none
  }

  /** The four actions, by what they leave in the row. */
  ghost predicate ActedOn(s: State, t: State, w: Word, a: Action) {
    && w in t.overrides
    && t.overrides[w].word == w && t.overrides[w].seqNo == s.lastSeq + 1 == t.lastSeq
    && t.log == s.log + [LogEntry(w, a)] && t.unapplied == s.unapplied + {t.overrides[w]}
    && t.overrides == s.overrides[w := t.overrides[w]]
    && (a == Add ==> t.overrides[w].present && t.overrides[w].aiBlocked == BlockedOr(s.overrides, w, false))
    && (a == Remove ==> !t.overrides[w].present && !t.overrides[w].aiBlocked)
    && (a == AIBlock ==> t.overrides[w].aiBlocked && t.overrides[w].present == PresentOr(s.overrides, w, true))
    && (a == AIUnblock ==> !t.overrides[w].aiBlocked && t.overrides[w].present == PresentOr(s.overrides, w, true))
    && t.served == s.served && t.applied == s.applied
  }

  /** An edit writes its row, and touches no suggestion, report or reward. */
  lemma EditActs(s: State, w: Word, a: Action)
    ensures ActedOn(s, Commit(s, w, a), w, a)
    ensures var t := Commit(s, w, a);
      t.suggestions == s.suggestions && t.reports == s.reports && t.rewards == s.rewards
  {
  }

  /** What the review asks for: an addition to be added, a removal to be removed or to be blocked for the AI. */
  predicate Asks(topic: Topic, outcome: Option<Action>, a: Action) {
    || (topic.kind == Addition && a == Add)
    || (topic.kind == Removal && a == Remove && outcome == Some(Remove))
    || (topic.kind == Removal && a == AIBlock && outcome == Some(AIBlock))
  }

  predicate IsWaiting(s: State, topic: Topic) {
    topic in s.suggestions && s.suggestions[topic].status == Waiting
  }

  /** The suggestion took the status, and nothing else of it or any other changed. */
  ghost predicate Reviewed(s: State, t: State, topic: Topic, status: Status) {
    && t.suggestions.Keys == s.suggestions.Keys
    && (forall x :: x in s.suggestions && x != topic ==> t.suggestions[x] == s.suggestions[x])
    && topic in s.suggestions && t.suggestions[topic] == Suggestion(status, s.suggestions[topic].reporters)
    && t.reports == s.reports
  }

  /**
   * An approval is done exactly if the suggestion waits and the outcome goes with its kind. It then writes what was
   * asked: an addition becomes present, a removal absent or blocked for the AI; otherwise nothing changes.
   */
  lemma ApprovalActsExactly(s: State, topic: Topic, outcome: Option<Action>)
    ensures var (t, o) := Approve(s, topic, outcome);
      && (o == Done <==> IsWaiting(s, topic) && exists a :: Asks(topic, outcome, a))
      && (o == NotFound <==> topic !in s.suggestions)
      && (o == NotPending <==> topic in s.suggestions && s.suggestions[topic].status != Waiting)
      && (o == BadOutcome <==> IsWaiting(s, topic) && forall a :: !Asks(topic, outcome, a))
      && (o != Done ==> t == s)
    ensures var (t, o) := Approve(s, topic, outcome);
      o == Done ==>
        && Reviewed(s, t, topic, Approved)
        && forall a :: Asks(topic, outcome, a) ==> ActedOn(s, t, topic.word, a)
  {
    var (t, o) := Approve(s, topic, outcome);
    assert topic.kind == Addition ==> Asks(topic, outcome, Add);
    assert topic.kind == Removal && outcome == Some(Remove) ==> Asks(topic, outcome, Remove);
    assert topic.kind == Removal && outcome == Some(AIBlock) ==> Asks(topic, outcome, AIBlock);
    if o == Done {
      var a := ActionOf(topic.kind, outcome).value;
      EditActs(Review(s, topic, Approved), topic.word, a);
    }
  }

  /** The report that is rewarded: the first of the topic made by an account. */
  ghost predicate IsFirstReport(reports: seq<Report>, topic: Topic, k: nat) {
    && k < |reports| && reports[k].topic == topic && reports[k].reporter.Account?
    && forall j :: 0 <= j < k ==> !(reports[j].topic == topic && reports[j].reporter.Account?)
  }

  lemma {:induction false} FirstAccountIsTheFirst(reports: seq<Report>, topic: Topic, k: nat)
    requires IsFirstReport(reports, topic, k)
    ensures FirstAccount(reports, topic) == Some(reports[k].reporter.user)
  {
    if k > 0 {
      assert !(reports[0].topic == topic && reports[0].reporter.Account?);
      FirstAccountIsTheFirst(reports[1..], topic, k - 1);
    }
  }

  lemma {:induction false} NoAccountNoFirst(reports: seq<Report>, topic: Topic)
    requires forall r :: r in reports && r.topic == topic ==> !r.reporter.Account?
    ensures FirstAccount(reports, topic) == None
  {
    if reports == [] {
    } else {
      assert reports[0] in reports;
      NoAccountNoFirst(reports[1..], topic);
    }
  }

  /** A done approval rewards the first signed-in reporter of an addition, once, and nobody else. */
  lemma ApprovalRewardsExactly(s: State, topic: Topic, outcome: Option<Action>, k: nat)
    requires Approve(s, topic, outcome).1 == Done
    ensures var t := Approve(s, topic, outcome).0;
      IsFirstReport(s.reports, topic, k) && topic.kind == Addition ==>
        var gift := Reward(s.reports[k].reporter.user, topic.word);
        t.rewards == if gift in s.rewards then s.rewards else s.rewards + [gift]
    ensures topic.kind == Removal || (forall r :: r in s.reports && r.topic == topic ==> !r.reporter.Account?) ==>
      Approve(s, topic, outcome).0.rewards == s.rewards
  {
    if IsFirstReport(s.reports, topic, k) {
      FirstAccountIsTheFirst(s.reports, topic, k);
    }
    if forall r :: r in s.reports && r.topic == topic ==> !r.reporter.Account? {
      NoAccountNoFirst(s.reports, topic);
    }
  }

  /** A rejection is done exactly if the suggestion waits; it then is rejected, and nothing else changes. */
  lemma RejectionActsExactly(s: State, topic: Topic)
    ensures var (t, o) := Reject(s, topic);
      && (o == Done <==> IsWaiting(s, topic))
      && (o == NotFound <==> topic !in s.suggestions)
      && (o == NotPending <==> topic in s.suggestions && s.suggestions[topic].status != Waiting)
      && (o == Done ==> Reviewed(s, t, topic, Rejected) && t == s.(suggestions := t.suggestions))
      && (o != Done ==> t == s)
  {
  }

  /**
   * A report is taken exactly if the topic was not reviewed. It then waits, the report is listed, and it counts if
   * this reporter had not reported the topic; every other suggestion and every table stays.
   */
  lemma ReportActsExactly(s: State, topic: Topic, reporter: Reporter)
    ensures var (t, o) := Submit(s, topic, reporter);
      var r := Report(topic, reporter);
      var before := if topic in s.suggestions then s.suggestions[topic].reporters else 0;
      && (o == Done <==> topic !in s.suggestions || s.suggestions[topic].status == Waiting)
      && (o != Done ==> o == NotPending && t == s)
      && (o == Done ==>
            && t == s.(suggestions := t.suggestions, reports := t.reports)
            && t.reports == (if r in s.reports then s.reports else s.reports + [r])
            && t.suggestions.Keys == s.suggestions.Keys + {topic}
            && (forall x :: x in s.suggestions && x != topic ==> t.suggestions[x] == s.suggestions[x])
            && t.suggestions[topic] == Suggestion(Waiting, if r in s.reports then before else before + 1))
  {
  }

  // ----- what one step of a run does -----

  ghost predicate Untouched(s: State, t: State) {
    s.overrides == t.overrides && s.log == t.log && s.suggestions == t.suggestions && s.reports == t.reports
    && s.rewards == t.rewards
  }

  /** The effect of each step; a refused report, review or edit has none. */
  ghost predicate TakesEffect(s: State, step: R.Step, t: State) {
    if step.DoReport? then
      if Proper(step.topic.word) && (step.topic !in s.suggestions || IsWaiting(s, step.topic))
      then && Report(step.topic, step.reporter) in t.reports && s.reports <= t.reports && IsWaiting(t, step.topic)
           && t == s.(reports := t.reports, suggestions := t.suggestions)
      else t == s
    else if step.DoApprove? then
      if IsWaiting(s, step.topic) && exists a :: Asks(step.topic, step.outcome, a)
      then && Reviewed(s, t, step.topic, Approved)
           && forall a :: Asks(step.topic, step.outcome, a) ==> ActedOn(s, t, step.topic.word, a)
      else t == s
    else if step.DoReject? then
      if IsWaiting(s, step.topic) then Reviewed(s, t, step.topic, Rejected) && t == s.(suggestions := t.suggestions)
      else t == s
    else if step.DoSet? then if Proper(step.word) then ActedOn(s, t, step.word, step.action) else t == s
    else if step.Applies? then
      if step.row in s.unapplied
      then && Untouched(s, t) && t.unapplied == s.unapplied - {step.row} && t.applied == s.applied + [step.row]
           && t.served.rows == s.served.rows[step.row.word := step.row]
      else t == s
    else if step.RolledBack? then t == s.(lastSeq := s.lastSeq + 1)
    else Untouched(s, t) && t.unapplied == {} && t.lastSeq == s.lastSeq && t == Reload(s)
  }

  lemma StepTakesEffect(s: State, step: R.Step)
    ensures TakesEffect(s, step, R.Next(s, step))
  {
    if step.DoReport? {
      ReportActsExactly(s, step.topic, step.reporter);
    } else if step.DoApprove? {
      ApprovalActsExactly(s, step.topic, step.outcome);
    } else if step.DoReject? {
      RejectionActsExactly(s, step.topic);
    } else if step.DoSet? {
      EditActs(s, step.word, step.action);
    }
  }

  /** The last step of a run acts on what the steps before it left. */
  lemma {:induction false} LastStepActs(s: State, steps: seq<R.Step>, step: R.Step)
    ensures TakesEffect(RunAll(s, steps), step, RunAll(s, steps + [step]))
    decreases |steps|
  {
    if steps == [] {
      assert RunAll(R.Next(s, step), []) == R.Next(s, step);
      StepTakesEffect(s, step);
    } else {
      assert (steps + [step])[1..] == steps[1..] + [step];
      LastStepActs(R.Next(s, steps[0]), steps[1..], step);
    }
  }
}
