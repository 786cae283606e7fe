/**
 * The word tables and the services in front of them (repository/words.go, service/word_suggestions.go,
 * service/admin_words.go).
 */
module WordDesk {
  import opened Optional
  import opened Words
  import Overlay
  import opened Dictionary
  import opened R = WordReview
  import WordActions

  const BULK_MAX := 100

  class WordStore {
    var suggestions: map<Topic, Suggestion>
    var reports: seq<Report>
    var rewards: seq<Reward>
    var overrides: map<Word, Row>
    var lastSeq: int
    ghost var log: seq<LogEntry>

    constructor ()
      ensures Contents({}, NO_ROWS, []) == R.EMPTY
    {
      suggestions, reports, rewards, overrides, lastSeq, log := map[], [], [], map[], 0, [];
    }

    /** The tables, beside rows on their way and a dictionary service. */
    ghost function Contents(unapplied: set<Row>, served: Server, applied: seq<Row>): R.State
      reads this
    {
      R.State(suggestions, reports, rewards, overrides, lastSeq, unapplied, served, applied, log)
    }

    method UpsertOverride(word: Word, a: Action) returns (row: Row)
      modifies this`overrides, this`lastSeq, this`log
      ensures forall u, d, p :: Contents(u + {row}, d, p) == Commit(old(Contents(u, d, p)), word, a)
      ensures word in overrides && row == overrides[word]
    {
      var present, ai := true, false;
      var setPresent, setAI := true, true;
      match a {
        case Add => setAI := false;
        case Remove => present := false;
        case AIBlock => ai, setPresent := true, false;
        case AIUnblock => setPresent := false;
      }
      lastSeq := lastSeq + 1;
      row := Row(word, present, ai, lastSeq);
      if word in overrides {
        if !setPresent {
          row := row.(present := overrides[word].present);
        }
        if !setAI {
          row := row.(aiBlocked := overrides[word].aiBlocked);
        }
      }
      overrides := overrides[word := row];
      log := log + [LogEntry(word, a)];
    }

    method SubmitReport(topic: Topic, reporter: Reporter) returns (o: R.Outcome)
      modifies this`suggestions, this`reports
      ensures forall u, d, p :: (Contents(u, d, p), o) == Submit(old(Contents(u, d, p)), topic, reporter)
    {
      if topic in suggestions && suggestions[topic].status != Waiting {
        return NotPending;
      }
      if topic !in suggestions {
        suggestions := suggestions[topic := Suggestion(Waiting, 0)];
      }
      ghost var known := suggestions[topic];
      var r := Report(topic, reporter);
      if r !in reports {
        reports := reports + [r];
        suggestions := suggestions[topic := suggestions[topic].(reporters := suggestions[topic].reporters + 1)];
        assert suggestions == old(suggestions)[topic := known.(reporters := known.reporters + 1)];
      } else {
        assert suggestions == old(suggestions)[topic := known];
      }
      o := R.Done;
    }

    /** The first report of the topic that names an account, in order of creation. */
    method EarliestAccount(topic: Topic) returns (first: Option<User>)
      ensures first == FirstAccount(reports, topic)
    {
      first := None;
      var i := |reports|;
      while i > 0
        invariant 0 <= i <= |reports|
        invariant first == FirstAccount(reports[i..], topic)
      {
        i := i - 1;
        assert reports[i..][0] == reports[i] && reports[i..][1..] == reports[i + 1..];
        if reports[i].topic == topic && reports[i].reporter.Account? {
          first := Some(reports[i].reporter.user);
        }
      }
      assert reports[0..] == reports;
    }

    /** The row is the one committed when the approval is done. */
    method ApproveSuggestion(topic: Topic, outcome: Option<Action>) returns (o: R.Outcome, row: Option<Row>)
      modifies this
      ensures forall u, d, p :: (Contents(if row.Some? then u + {row.value} else u, d, p), o) ==
                Approve(old(Contents(u, d, p)), topic, outcome)
      ensures o == R.Done <==> row.Some?
      ensures row.Some? ==> topic.word in overrides && row.value == overrides[topic.word]
    {
      row := None;
      if topic !in suggestions {
        return NotFound, row;
      }
      if suggestions[topic].status != Waiting {
        return NotPending, row;
      }
      var action := Add;
      if topic.kind != Addition {
        if outcome == Some(Remove) {
          action := Remove;
        } else if outcome == Some(AIBlock) {
          action := AIBlock;
        } else {
          return BadOutcome, row;
        }
      }
      suggestions := suggestions[topic := suggestions[topic].(status := Approved)];
      assert forall u, d, p :: Contents(u, d, p) == Review(old(Contents(u, d, p)), topic, Approved);
      var written := UpsertOverride(topic.word, action);
      row := Some(written);
      if topic.kind == Addition {
        var first := EarliestAccount(topic);
        if first.Some? && Reward(first.value, topic.word) !in rewards {
          rewards := rewards + [Reward(first.value, topic.word)];
        }
      }
      o := R.Done;
    }

    method RejectSuggestion(topic: Topic) returns (o: R.Outcome)
      modifies this`suggestions
      ensures forall u, d, p :: (Contents(u, d, p), o) == Reject(old(Contents(u, d, p)), topic)
    {
      if topic !in suggestions {
        return NotFound;
      }
      if suggestions[topic].status != Waiting {
        return NotPending;
      }
      suggestions := suggestions[topic := suggestions[topic].(status := Rejected)];
      o := R.Done;
    }
  }

  // ----- players -----

  /** Why a report is turned away before it reaches the tables; Done when it is not. */
  function Refusal(word: Word, kind: Kind, known: bool, inDict: bool, rejected: bool, blocked: bool, reasonOk: bool,
                   allowed: bool): R.Outcome {
    if !Proper(word) || !known then BadWord
    else if kind == Addition && inDict then InDictionary
    else if kind == Addition && rejected then Reviewed
    else if kind == Removal && !reasonOk then BadWord
    else if kind == Removal && !inDict then NotInDictionary
    else if kind == Removal && blocked then Reviewed
    else if !allowed then RateLimited
    else R.Done
  }

  /** A word players can mean: letters and ZWNJs, two to thirty of them. */
  predicate IsWord(w: Word) {
    AllLetters(w) && 2 <= |w| <= 30
  }

  lemma ProperIsAWord(w: Word)
    ensures Proper(w) <==> IsWord(w)
  {
    forall r {
      AlphabetExactly(r);
    }
  }

  /**
   * Why a report is turned away: no word, unknown reporter, or removal without a reason; for an addition, that the
   * dictionary has the word or an admin rejected it; for a removal, that the dictionary has it not or that it is kept
   * from the AI already; and last the caps. All others go through.
   */
  lemma RefusalsAreAnswered(word: Word, kind: Kind, known: bool, inDict: bool, rejected: bool, blocked: bool,
                            reasonOk: bool, allowed: bool)
    ensures var o := Refusal(word, kind, known, inDict, rejected, blocked, reasonOk, allowed);
      var asked := IsWord(word) && known && (kind == Removal ==> reasonOk);
      var answered := if kind == Addition then inDict || rejected else !inDict || blocked;
      && (o == R.Done <==> asked && !answered && allowed)
      && (o == BadWord <==> !asked)
      && (o == InDictionary <==> asked && kind == Addition && inDict)
      && (o == NotInDictionary <==> asked && kind == Removal && !inDict)
      && (o == Reviewed <==> asked && answered && (if inDict then kind == Removal else kind == Addition))
      && (o == RateLimited <==> asked && !answered && !allowed)
  {
    ProperIsAWord(word);
  }

  class WordSuggestionService {
    const store: WordStore
    const engine: Overlay.Engine
    const rejectedWords: set<Word>

    constructor (store: WordStore, engine: Overlay.Engine, rejectedWords: set<Word>)
      ensures this.store == store && this.engine == engine && this.rejectedWords == rejectedWords
    {
      this.store, this.engine, this.rejectedWords := store, engine, rejectedWords;
    }

    /** `known` says a guest sent a proper install id, `reasonOk` the reason of a removal, `allowed` the daily caps. */
    method SubmitWord(raw: Word, kind: Kind, reporter: Reporter, known: bool, reasonOk: bool, allowed: bool)
      returns (o: R.Outcome)
      modifies store`suggestions, store`reports
      ensures var word := TrimSpace(raw);
        var refusal := Refusal(word, kind, known, word in engine.Live(), word in rejectedWords,
                               word in engine.View().aiBlocked, reasonOk, allowed);
        forall u, d, p ::
          var (t, submitted) := Submit(old(store.Contents(u, d, p)), Topic(word, kind), reporter);
          && (refusal != R.Done ==> store.Contents(u, d, p) == old(store.Contents(u, d, p)) && o == refusal)
          && (refusal == R.Done ==>
                store.Contents(u, d, p) == t && o == if submitted == NotPending then Reviewed else submitted)
    {
      var word := TrimSpace(raw);
      if !Proper(word) || !known {
        return BadWord;
      }
      var inDict := engine.IsValid(word);
      var blocked := engine.IsAIBlocked(word);
      match kind {
        case Addition =>
          if inDict {
            return InDictionary;
          }
          if word in rejectedWords {
            return Reviewed;
          }
        case Removal =>
          if !reasonOk {
            return BadWord;
          }
          if !inDict {
            return NotInDictionary;
          }
          if blocked {
            return Reviewed;
          }
      }
      if !allowed {
        return RateLimited;
      }
      o := store.SubmitReport(Topic(word, kind), reporter);
      if o == NotPending {
        o := Reviewed;
      }
    }
  }

  // ----- admins -----

  /** An approval nobody disturbs: the transaction, then the row. `noteOk` says the note passes its check. */
  function ApproveAlone(s: R.State, topic: Topic, outcome: Option<Action>, noteOk: bool): (R.State, R.Outcome) {
    if !noteOk then (s, BadNote)
    else
      var (t, o) := Approve(s, topic, outcome);
      (if o == R.Done && topic.word in t.overrides then Deliver(t, t.overrides[topic.word]) else t, o)
  }

  function RejectAlone(s: R.State, topic: Topic, noteOk: bool): (R.State, R.Outcome) {
    if !noteOk then (s, BadNote) else Reject(s, topic)
  }

  function SetAlone(s: R.State, word: Word, a: Action, reasonOk: bool): (R.State, R.Outcome) {
    if !reasonOk then (s, BadNote)
    else if !Proper(word) then (s, BadWord)
    else var t := Commit(s, word, a); (Deliver(t, t.overrides[word]), R.Done)
  }

  /** Two steps of a run with nothing in between, or none when the note or the review is refused. */
  lemma UndisturbedApproval(s: R.State, topic: Topic, outcome: Option<Action>, noteOk: bool)
    ensures var ((t, o), (n, a)) := (Approve(s, topic, outcome), ApproveAlone(s, topic, outcome, noteOk));
      && a == (if noteOk then o else BadNote)
      && (a == R.Done ==>
            && topic.word in t.overrides
            && n == R.Next(R.Next(s, DoApprove(topic, outcome)), Applies(t.overrides[topic.word])))
      && (a != R.Done ==> n == s)
      && (a == BadNote <==> !noteOk)
  {
  }

  lemma UndisturbedRejection(s: R.State, topic: Topic, noteOk: bool)
    ensures RejectAlone(s, topic, noteOk) ==
      if noteOk then (R.Next(s, DoReject(topic)), Reject(s, topic).1) else (s, BadNote)
    ensures RejectAlone(s, topic, noteOk).1 == BadNote <==> !noteOk
  {
  }

  lemma UndisturbedEdit(s: R.State, word: Word, a: Action, reasonOk: bool)
    ensures var (n, o) := SetAlone(s, word, a, reasonOk);
      && (o == R.Done <==> reasonOk && Proper(word))
      && (o == R.Done ==>
            n == R.Next(R.Next(s, DoSet(word, a)), Applies(Upsert(s.overrides, word, a, s.lastSeq + 1))))
      && (o == BadNote <==> !reasonOk)
      && (o == BadWord <==> reasonOk && !Proper(word))
      && (o != R.Done ==> n == s)
  {
  }

  function ReviewAlone(s: R.State, topic: Topic, approve: bool, noteOk: bool): (R.State, R.Outcome) {
    if approve then ApproveAlone(s, topic, None, noteOk) else RejectAlone(s, topic, noteOk)
  }

  class AdminWordService {
    const store: WordStore
    const dict: Service
    ghost var applied: seq<Row>

    constructor (store: WordStore, dict: Service)
      ensures this.store == store && this.dict == dict && applied == []
    {
      this.store, this.dict, applied := store, dict, [];
    }

    ghost function Contents(): R.State
      reads this, store, dict
    {
      store.Contents({}, dict.State(), applied)
    }

    /** Hands one committed row to the dictionary. */
    method ApplyRowNow(row: Row, ghost s: R.State)
      requires dict.Valid()
      requires s == store.Contents({row}, dict.State(), applied)
      modifies dict, dict.engine`overlay, this`applied
      ensures dict.Valid()
      ensures Contents() == Deliver(s, row)
      ensures row.word in dict.engine.Live() <==> row.present
      ensures row.word in dict.engine.View().aiBlocked <==> row.aiBlocked
    {
      ghost var before := dict.State();
      dict.Apply([row]);
      applied := applied + [row];
      assert [row][..0] == [] && ApplyBatch(before, []) == before;
      assert {row} - {row} == {};
      assert dict.rows[row.word] == row;
      assert Overlay.ValidIn(dict.engine.base, dict.engine.View(), row.word) <==> row.present;
    }

    method ApproveWord(topic: Topic, outcome: Option<Action>, noteOk: bool) returns (o: R.Outcome)
      requires dict.Valid()
      modifies store, dict, dict.engine`overlay, this`applied
      ensures dict.Valid()
      ensures (Contents(), o) == ApproveAlone(old(Contents()), topic, outcome, noteOk)
      ensures o == R.Done ==>
        && (topic.kind == Addition ==> topic.word in dict.engine.Live())
        && (topic.kind == Removal && outcome == Some(Remove) ==> topic.word !in dict.engine.Live())
        && (topic.kind == Removal && outcome == Some(AIBlock) ==> topic.word in dict.engine.View().aiBlocked)
    {
      if !noteOk {
        return BadNote;
      }
      var row;
      ghost var s := Approve(Contents(), topic, outcome).0;
      WordActions.ApprovalActsExactly(Contents(), topic, outcome);
      o, row := store.ApproveSuggestion(topic, outcome);
      if row.Some? {
        assert WordActions.Asks(topic, outcome, Add) <==> topic.kind == Addition;
        assert WordActions.Asks(topic, outcome, Remove) <==> topic.kind == Removal && outcome == Some(Remove);
        assert WordActions.Asks(topic, outcome, AIBlock) <==> topic.kind == Removal && outcome == Some(AIBlock);
        assert {} + {row.value} == {row.value};
        assert s == store.Contents({row.value}, dict.State(), applied);
        ApplyRowNow(row.value, s);
      }
    }

    method RejectWord(topic: Topic, noteOk: bool) returns (o: R.Outcome)
      modifies store`suggestions
      ensures (Contents(), o) == RejectAlone(old(Contents()), topic, noteOk)
    {
      if !noteOk {
        return BadNote;
      }
      o := store.RejectSuggestion(topic);
    }

    method SetWord(raw: Word, a: Action, reasonOk: bool) returns (o: R.Outcome)
      requires dict.Valid()
      modifies store, dict, dict.engine`overlay, this`applied
      ensures dict.Valid()
      ensures (Contents(), o) == SetAlone(old(Contents()), TrimSpace(raw), a, reasonOk)
      ensures o == R.Done ==> var word := TrimSpace(raw);
        && (a == Add ==> word in dict.engine.Live())
        && (a == Remove ==> word !in dict.engine.Live())
        && (a == AIBlock ==> word in dict.engine.View().aiBlocked)
        && (a == Remove || a == AIUnblock ==> word !in dict.engine.View().aiBlocked)
    {
      if !reasonOk {
        return BadNote;
      }
      var word := TrimSpace(raw);
      if !Proper(word) {
        return BadWord;
      }
      ghost var s := Commit(Contents(), word, a);
      WordActions.EditActs(Contents(), word, a);
      var row := store.UpsertOverride(word, a);
      assert {} + {row} == {row};
      assert s == store.Contents({row}, dict.State(), applied);
      ApplyRowNow(row, s);
      o := R.Done;
    }

    method ReviewOne(topic: Topic, approve: bool, noteOk: bool) returns (o: R.Outcome)
      requires dict.Valid()
      modifies store, dict, dict.engine`overlay, this`applied
      ensures dict.Valid()
      ensures (Contents(), o) == ReviewAlone(old(Contents()), topic, approve, noteOk)
    {
      if approve {
        o := ApproveWord(topic, None, noteOk);
      } else {
        o := RejectWord(topic, noteOk);
      }
    }

    /** One round of the bulk loop, for topic i. */
    method BulkRound(topics: seq<Topic>, i: nat, approve: bool, noteOk: bool, failed: seq<(Topic, R.Outcome)>,
                     ghost start: R.State)
      returns (o: R.Outcome, after: seq<(Topic, R.Outcome)>)
      requires dict.Valid() && i < |topics|
      requires (Contents(), failed) == BulkRun(start, topics[..i], approve, noteOk)
      modifies store, dict, dict.engine`overlay, this`applied
      ensures dict.Valid()
      ensures (Contents(), after) == BulkRun(start, topics[..i + 1], approve, noteOk)
      ensures |after| == |failed| + if o == R.Done then 0 else 1
    {
      OneMoreTopic(start, topics, i, approve, noteOk, Contents(), failed);
      o := ReviewOne(topics[i], approve, noteOk);
      after := if o == R.Done then failed else failed + [(topics[i], o)];
    }

    /** One by one, and a failure does not stop the rest; an approval here names no outcome. */
    method Bulk(topics: seq<Topic>, action: string, noteOk: bool)
      returns (o: R.Outcome, done: nat, failed: seq<(Topic, R.Outcome)>)
      requires dict.Valid()
      modifies store, dict, dict.engine`overlay, this`applied
      ensures dict.Valid()
      ensures o ==
        if 1 <= |topics| <= 100 && (action == "approve" || action == "reject") then R.Done else BadRequest
      ensures o == R.Done ==> (Contents(), failed) == BulkRun(old(Contents()), topics, action == "approve", noteOk)
      ensures o == R.Done ==> done + |failed| == |topics|
      ensures o != R.Done ==> Contents() == old(Contents())
    {
      done, failed := 0, [];
      if |topics| == 0 || |topics| > BULK_MAX || (action != "approve" && action != "reject") {
        return BadRequest, done, failed;
      }
      ghost var start := Contents();
      for i := 0 to |topics|
        invariant dict.Valid()
        invariant done + |failed| == i
        invariant (Contents(), failed) == BulkRun(start, topics[..i], action == "approve", noteOk)
      {
        var one;
        one, failed := BulkRound(topics, i, action == "approve", noteOk, failed, start);
        if one == R.Done {
          done := done + 1;
        }
      }
      assert topics[..|topics|] == topics;
      o := R.Done;
    }
  }

  /** The topics in order, each in the state the ones before it left; the failed ones with their reason. */
  ghost function BulkRun(s: R.State, topics: seq<Topic>, approve: bool, noteOk: bool)
    : (R.State, seq<(Topic, R.Outcome)>) {
    if topics == [] then (s, [])
    else
      var n := |topics| - 1;
      var (t, failed) := BulkRun(s, topics[..n], approve, noteOk);
      var (u, o) := ReviewAlone(t, topics[n], approve, noteOk);
      (u, if o == R.Done then failed else failed + [(topics[n], o)])
  }

  lemma OneMoreTopic(s: R.State, topics: seq<Topic>, i: nat, approve: bool, noteOk: bool, t: R.State,
                     failed: seq<(Topic, R.Outcome)>)
    requires i < |topics| && BulkRun(s, topics[..i], approve, noteOk) == (t, failed)
    ensures var (u, o) := ReviewAlone(t, topics[i], approve, noteOk);
      BulkRun(s, topics[..i + 1], approve, noteOk) == (u, if o == R.Done then failed else failed + [(topics[i], o)])
  {
    assert topics[..i + 1][..i] == topics[..i];
  }

  /** The status of a topic after a bulk action: if named it takes the decision, but no removal is approved. */
  function Decided(before: Status, named: bool, approve: bool, kind: Kind): Status {
    if before != Waiting || !named then before
    else if !approve then Rejected
    else if kind == Addition then Approved
    else Waiting
  }

  lemma ReviewAloneReviews(s: R.State, topic: Topic, approve: bool, noteOk: bool, x: Topic)
    requires x in s.suggestions
    ensures var t := ReviewAlone(s, topic, approve, noteOk).0;
      && x in t.suggestions
      && t.suggestions[x].status == Decided(s.suggestions[x].status, x == topic && noteOk, approve, x.kind)
      && (!noteOk ==> t == s)
  {
  }

  /**
   * Whatever fails on the way, a bulk action with a proper note leaves no topic behind that it could have taken:
   * afterwards every named suggestion is reviewed as it says, unless it is a removal that was to be approved, and no
   * other is. With a bad note nothing happens.
   */
  lemma {:induction false} BulkReviewsEverything(s: R.State, topics: seq<Topic>, approve: bool, noteOk: bool, x: Topic)
    requires x in s.suggestions
    ensures var t := BulkRun(s, topics, approve, noteOk).0;
      && x in t.suggestions
      && t.suggestions[x].status == Decided(s.suggestions[x].status, x in topics && noteOk, approve, x.kind)
      && (!noteOk ==> t == s)
  {
    if topics == [] {
    } else {
      var n := |topics| - 1;
      assert topics == topics[..n] + [topics[n]];
      BulkReviewsEverything(s, topics[..n], approve, noteOk, x);
      ReviewAloneReviews(BulkRun(s, topics[..n], approve, noteOk).0, topics[n], approve, noteOk, x);
    }
  }
}
