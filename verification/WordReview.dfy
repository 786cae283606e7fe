/** Word suggestions, their review, and the override rows they write (repository/words.go, service/admin_words.go). */
module WordReview {
  import opened Optional
  import opened Words
  import opened Dictionary

  type User = int

  /** A player counts once a word: signed in by account, as a guest by install. */
  datatype Reporter = Account(user: User) | Guest(install: int)

  datatype Kind = Addition | Removal
  datatype Status = Waiting | Approved | Rejected

  datatype Topic = Topic(word: Word, kind: Kind)
  datatype Suggestion = Suggestion(status: Status, reporters: nat)
  datatype Report = Report(topic: Topic, reporter: Reporter)
  datatype Reward = Reward(user: User, word: Word)

  datatype Action = Add | Remove | AIBlock | AIUnblock
  datatype LogEntry = LogEntry(word: Word, action: Action)

  /**
   * The tables, with reports in order of creation, and the dictionary service. `unapplied` are the rows committed
   * by requests that have still to apply them, `served` is what the service holds, `applied` lists the rows it was
   * given since it started, and `log` every override action ever committed: no operation reads these two.
   */
  datatype State = State(suggestions: map<Topic, Suggestion>, reports: seq<Report>, rewards: seq<Reward>,
                         overrides: map<Word, Row>, lastSeq: int,
                         unapplied: set<Row>, served: Server, applied: seq<Row>, log: seq<LogEntry>)

  const EMPTY := State(map[], [], [], map[], 0, {}, NO_ROWS, [], [])

  datatype Outcome =
    | Done | NotFound | NotPending | BadOutcome | BadWord | BadNote
    | InDictionary | NotInDictionary | Reviewed | RateLimited | BadRequest

  const MAX_RUNES := 30

  /** A word a report or an edit may name, once trimmed. */
  predicate Proper(w: Word) {
    WellFormed(w) && MIN_WORD_LENGTH <= |w| <= MAX_RUNES
  }

  // ----- overrides -----

  /** The upsert: a new row starts present and unblocked, and an action keeps the fields it does not touch. */
  function Upsert(rows: map<Word, Row>, word: Word, a: Action, seqNo: int): Row {
    var present := a != Remove;
    var ai := a == AIBlock;
    var setPresent := a == Add || a == Remove;
    var setAI := a != Add;
    if word !in rows then Row(word, present, ai, seqNo)
    else Row(word, if setPresent then present else rows[word].present,
             if setAI then ai else rows[word].aiBlocked, seqNo)
  }

  /** Writes the row under the next number of the sequence. */
  function Commit(s: State, word: Word, a: Action): State {
    var row := Upsert(s.overrides, word, a, s.lastSeq + 1);
    s.(overrides := s.overrides[word := row], lastSeq := s.lastSeq + 1,
       unapplied := s.unapplied + {row}, log := s.log + [LogEntry(word, a)])
  }

  /** The request that committed the row applies it to the live dictionary. */
  function Deliver(s: State, row: Row): State {
    if row !in s.unapplied then s
    else s.(served := ApplyRow(s.served, row), applied := s.applied + [row], unapplied := s.unapplied - {row})
  }

  // ----- reports and reviews -----

  /** A reviewed suggestion takes no more reports. */
  function Submit(s: State, topic: Topic, reporter: Reporter): (State, Outcome) {
    if topic in s.suggestions && s.suggestions[topic].status != Waiting then (s, NotPending)
    else
      var known := if topic in s.suggestions then s.suggestions[topic] else Suggestion(Waiting, 0);
      var r := Report(topic, reporter);
      if r in s.reports then (s.(suggestions := s.suggestions[topic := known]), Done)
      else (s.(suggestions := s.suggestions[topic := known.(reporters := known.reporters + 1)],
               reports := s.reports + [r]), Done)
  }

  /** The earliest signed-in reporter of a topic. */
  function FirstAccount(reports: seq<Report>, topic: Topic): Option<User> {
    if reports == [] then None
    else if reports[0].topic == topic && reports[0].reporter.Account? then Some(reports[0].reporter.user)
    else FirstAccount(reports[1..], topic)
  }

  /** What a review does with the dictionary; None for a removal without a proper outcome. */
  function ActionOf(kind: Kind, outcome: Option<Action>): Option<Action> {
    if kind == Addition then Some(Add)
    else if outcome == Some(Remove) || outcome == Some(AIBlock) then outcome
    else None
  }

  function Review(s: State, topic: Topic, status: Status): State
    requires topic in s.suggestions
  {
    s.(suggestions := s.suggestions[topic := s.suggestions[topic].(status := status)])
  }

  /** One transaction: the review, the override and, for an addition, the reward of its first reporter. */
  function Approve(s: State, topic: Topic, outcome: Option<Action>): (State, Outcome) {
    if topic !in s.suggestions then (s, NotFound)
    else if s.suggestions[topic].status != Waiting then (s, NotPending)
    else
      match ActionOf(topic.kind, outcome)
      case None => (s, BadOutcome)
      case Some(a) =>
        var t := Commit(Review(s, topic, Approved), topic.word, a);
        var first := FirstAccount(s.reports, topic);
        if topic.kind == Addition && first.Some? && Reward(first.value, topic.word) !in t.rewards
        then (t.(rewards := t.rewards + [Reward(first.value, topic.word)]), Done)
        else (t, Done)
  }

  function Reject(s: State, topic: Topic): (State, Outcome) {
    if topic !in s.suggestions then (s, NotFound)
    else if s.suggestions[topic].status != Waiting then (s, NotPending)
    else (Review(s, topic, Rejected), Done)
  }

  /** A restart ends the requests in flight and loads every row again, oldest first. */
  ghost function Reload(s: State): State {
    var rows := Pending(Server(s.overrides, s.lastSeq), 0);
    s.(unapplied := {}, served := ApplyBatch(NO_ROWS, rows), applied := rows)
  }

  /** RolledBack stands for a transaction that took a number and was undone. */
  datatype Step =
    | DoReport(topic: Topic, reporter: Reporter)
    | DoApprove(topic: Topic, outcome: Option<Action>)
    | DoReject(topic: Topic)
    | DoSet(word: Word, action: Action)
    | Applies(row: Row)
    | RolledBack
    | Restart

  ghost function Next(s: State, step: Step): State {
    match step
    case DoReport(topic, reporter) => if Proper(topic.word) then Submit(s, topic, reporter).0 else s
    case DoApprove(topic, outcome) => Approve(s, topic, outcome).0
    case DoReject(topic) => Reject(s, topic).0
    case DoSet(word, action) => if Proper(word) then Commit(s, word, action) else s
    case Applies(row) => Deliver(s, row)
    case RolledBack => s.(lastSeq := s.lastSeq + 1)
    case Restart => Reload(s)
  }

  ghost function RunAll(s: State, steps: seq<Step>): State
    decreases |steps|
  {
    if steps == [] then s else RunAll(Next(s, steps[0]), steps[1..])
  }

  // ----- what every run keeps: reviews -----

  function Count(reports: seq<Report>, topic: Topic): nat {
    if reports == [] then 0
    else Count(reports[..|reports| - 1], topic) + if reports[|reports| - 1].topic == topic then 1 else 0
  }

  /** No report is counted twice, and each suggestion's counter is the number of its reports. */
  ghost predicate CountsOk(suggestions: map<Topic, Suggestion>, reports: seq<Report>) {
    && (forall i, j :: 0 <= i < j < |reports| ==> reports[i] != reports[j])
    && (forall topic :: topic in suggestions ==> suggestions[topic].reporters == Count(reports, topic))
    && (forall r :: r in reports ==> r.topic in suggestions)
  }

  /** The reward of a word is earned by the earliest signed-in reporter of an approved addition. */
  ghost predicate Earned(suggestions: map<Topic, Suggestion>, reports: seq<Report>, u: User, w: Word) {
    var topic := Topic(w, Addition);
    topic in suggestions && suggestions[topic].status == Approved && FirstAccount(reports, topic) == Some(u)
  }

  /** A reward exists exactly where it was earned, and once. */
  ghost predicate RewardsOk(suggestions: map<Topic, Suggestion>, reports: seq<Report>, rewards: seq<Reward>) {
    && (forall i, j :: 0 <= i < j < |rewards| ==> rewards[i].word != rewards[j].word)
    && (forall u, w :: Reward(u, w) in rewards <==> Earned(suggestions, reports, u, w))
  }

  ghost predicate ReviewInv(s: State) {
    CountsOk(s.suggestions, s.reports) && RewardsOk(s.suggestions, s.reports, s.rewards)
  }

  lemma {:induction false} CountAppend(reports: seq<Report>, r: Report, topic: Topic)
    ensures Count(reports + [r], topic) == Count(reports, topic) + if r.topic == topic then 1 else 0
  {
    assert (reports + [r])[..|reports|] == reports;
  }

  lemma {:induction false} NoReportsNoCount(reports: seq<Report>, topic: Topic)
    requires forall r :: r in reports ==> r.topic != topic
    ensures Count(reports, topic) == 0
  {
    if reports == [] {
    } else {
      assert reports[|reports| - 1] in reports;
      NoReportsNoCount(reports[..|reports| - 1], topic);
    }
  }

  lemma {:induction false} FirstAccountIgnoresOthers(reports: seq<Report>, r: Report, topic: Topic)
    requires r.topic != topic
    ensures FirstAccount(reports + [r], topic) == FirstAccount(reports, topic)
  {
    if reports != [] {
      assert (reports + [r])[1..] == reports[1..] + [r];
      FirstAccountIgnoresOthers(reports[1..], r, topic);
    } else {
      assert ([] + [r])[1..] == [];
    }
  }

  lemma {:induction false} NewReportCounts(suggestions: map<Topic, Suggestion>, reports: seq<Report>, r: Report, n: nat)
    requires CountsOk(suggestions, reports) && r !in reports
    requires n == if r.topic in suggestions then suggestions[r.topic].reporters else 0
    ensures CountsOk(suggestions[r.topic := Suggestion(Waiting, n + 1)], reports + [r])
  {
    if r.topic !in suggestions {
      NoReportsNoCount(reports, r.topic);
    }
    var after := suggestions[r.topic := Suggestion(Waiting, n + 1)];
    forall x | x in after
      ensures after[x].reporters == Count(reports + [r], x)
    {
      CountAppend(reports, r, x);
    }
    assert forall i :: 0 <= i < |reports| ==> reports[i] in reports;
  }

  lemma ReportEarnsNothing(suggestions: map<Topic, Suggestion>, reports: seq<Report>, r: Report, n: nat, u: User,
                           w: Word)
    requires r.topic in suggestions ==> suggestions[r.topic].status == Waiting
    ensures Earned(suggestions[r.topic := Suggestion(Waiting, n)], reports + [r], u, w) <==>
      Earned(suggestions, reports, u, w)
  {
    if Topic(w, Addition) != r.topic {
      FirstAccountIgnoresOthers(reports, r, Topic(w, Addition));
    }
  }

  lemma ReportKeepsReviewInv(s: State, topic: Topic, reporter: Reporter)
    requires ReviewInv(s)
    ensures ReviewInv(Submit(s, topic, reporter).0)
  {
    var t, r := Submit(s, topic, reporter).0, Report(topic, reporter);
    if r in s.reports {
      assert t.suggestions == s.suggestions;
    } else if t.reports == s.reports + [r] {
      var n := if topic in s.suggestions then s.suggestions[topic].reporters else 0;
      NewReportCounts(s.suggestions, s.reports, r, n);
      forall u, w
        ensures Earned(t.suggestions, t.reports, u, w) <==> Earned(s.suggestions, s.reports, u, w)
      {
        ReportEarnsNothing(s.suggestions, s.reports, r, n + 1, u, w);
      }
    }
  }

  lemma ApprovalEarns(suggestions: map<Topic, Suggestion>, reports: seq<Report>, topic: Topic, u: User, w: Word)
    requires topic in suggestions && suggestions[topic].status == Waiting
    ensures Earned(suggestions[topic := suggestions[topic].(status := Approved)], reports, u, w) <==>
      Earned(suggestions, reports, u, w) || (topic == Topic(w, Addition) && FirstAccount(reports, topic) == Some(u))
    ensures topic == Topic(w, Addition) ==> !Earned(suggestions, reports, u, w)
  {
  }

  lemma ApprovalKeepsRewards(suggestions: map<Topic, Suggestion>, reports: seq<Report>, rewards: seq<Reward>,
                             topic: Topic, after: seq<Reward>)
    requires topic in suggestions && suggestions[topic].status == Waiting && RewardsOk(suggestions, reports, rewards)
    requires var first := FirstAccount(reports, topic);
      after == if topic.kind == Addition && first.Some? then rewards + [Reward(first.value, topic.word)] else rewards
    ensures RewardsOk(suggestions[topic := suggestions[topic].(status := Approved)], reports, after)
    ensures topic.kind == Addition ==> forall u :: Reward(u, topic.word) !in rewards
  {
    forall u, w {
      ApprovalEarns(suggestions, reports, topic, u, w);
    }
    forall i | 0 <= i < |rewards|
      ensures topic.kind == Addition ==> rewards[i].word != topic.word
    {
      assert rewards[i] == Reward(rewards[i].user, rewards[i].word) && rewards[i] in rewards;
    }
  }

  lemma ApproveKeepsReviewInv(s: State, topic: Topic, outcome: Option<Action>)
    requires ReviewInv(s)
    ensures ReviewInv(Approve(s, topic, outcome).0)
  {
    if topic in s.suggestions && s.suggestions[topic].status == Waiting {
      var first := FirstAccount(s.reports, topic);
      ApprovalKeepsRewards(s.suggestions, s.reports, s.rewards, topic,
                           if topic.kind == Addition && first.Some? then s.rewards + [Reward(first.value, topic.word)]
                           else s.rewards);
    }
  }

  lemma RejectKeepsReviewInv(s: State, topic: Topic)
    requires ReviewInv(s)
    ensures ReviewInv(Reject(s, topic).0)
  {
    var t := Reject(s, topic).0;
    assert forall u, w :: Earned(t.suggestions, t.reports, u, w) <==> Earned(s.suggestions, s.reports, u, w);
  }

  lemma StepKeepsReviewInv(s: State, step: Step)
    requires ReviewInv(s)
    ensures ReviewInv(Next(s, step))
  {
    match step
    case DoReport(topic, reporter) => ReportKeepsReviewInv(s, topic, reporter);
    case DoApprove(topic, outcome) => ApproveKeepsReviewInv(s, topic, outcome);
    case DoReject(topic) => RejectKeepsReviewInv(s, topic);
    case _ =>
  }

  /**
   * In every run the reporter count of a suggestion is the number of its distinct reports, a word has at most
   * one reward, and a reward exists exactly for the earliest signed-in reporter of an approved addition.
   */
  lemma {:induction false} ReviewsAreKept(s: State, steps: seq<Step>)
    requires ReviewInv(s)
    ensures ReviewInv(RunAll(s, steps))
    decreases |steps|
  {
    if steps == [] {
    } else {
      StepKeepsReviewInv(s, steps[0]);
      ReviewsAreKept(Next(s, steps[0]), steps[1..]);
    }
  }

  lemma StepKeepsReviewed(s: State, step: Step, topic: Topic)
    requires topic in s.suggestions && s.suggestions[topic].status != Waiting
    ensures var t := Next(s, step);
      topic in t.suggestions && t.suggestions[topic] == s.suggestions[topic] &&
      Count(t.reports, topic) == Count(s.reports, topic)
  {
    match step
    case DoReport(x, reporter) => CountAppend(s.reports, Report(x, reporter), topic);
    case DoApprove(x, outcome) => assert Approve(s, x, outcome).0.reports == s.reports;
    case _ =>
  }

  /** A reviewed suggestion is final: no run changes its status, its count, or the reports behind it. */
  lemma {:induction false} ReviewedIsFinal(s: State, steps: seq<Step>, topic: Topic)
    requires topic in s.suggestions && s.suggestions[topic].status != Waiting
    ensures var t := RunAll(s, steps);
      topic in t.suggestions && t.suggestions[topic] == s.suggestions[topic] &&
      Count(t.reports, topic) == Count(s.reports, topic)
    decreases |steps|
  {
    if steps == [] {
    } else {
      StepKeepsReviewed(s, steps[0], topic);
      ReviewedIsFinal(Next(s, steps[0]), steps[1..], topic);
    }
  }

  // ----- the dictionary stays well-formed -----

  /** The check of reports and edits: ValidateMove may only find the word missing from the dictionary. */
  lemma ProperExactly(raw: Word, dict: set<Word>)
    ensures var w := TrimSpace(raw);
      var v := ValidateMove([], w, {}, dict);
      |w| <= 30 && (v == Accepted || v == NotInDict) <==> Proper(w)
  {
    var w := TrimSpace(raw);
    var front, back := TrimSpaceCutsTheEnds(raw);
    assert TrimSpace(w) == w;
  }

  ghost predicate ProperInv(s: State) {
    && (forall topic :: topic in s.suggestions ==> Proper(topic.word))
    && (forall w :: w in s.overrides ==> Proper(w))
  }

  lemma StepKeepsProperInv(s: State, step: Step)
    requires ProperInv(s)
    ensures ProperInv(Next(s, step))
  {
  }

  lemma {:induction false} OnlyProperWords(s: State, steps: seq<Step>)
    requires ProperInv(s)
    ensures ProperInv(RunAll(s, steps))
    decreases |steps|
  {
    if steps == [] {
    } else {
      StepKeepsProperInv(s, steps[0]);
      OnlyProperWords(Next(s, steps[0]), steps[1..]);
    }
  }
}
