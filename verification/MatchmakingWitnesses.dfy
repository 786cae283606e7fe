/** Runs of the matchmaking commands that end badly (service/matchmaking.go). */
module MatchmakingWitnesses {
  import opened Optional
  import opened Matchmaking
  import opened MatchmakingRuns

  /** Every call of the run ends by its result or by a cancel. */
  ghost predicate NobodyGivesUp(steps: seq<Step>) {
    forall step :: step in steps ==> !step.Abandons? && !step.PushFails?
  }

  ghost predicate Reaches(steps: seq<Step>, s: State) {
    Valid(IDLE, steps) && Run(IDLE, steps) == s
  }

  lemma {:induction false} RunAppend(s: State, steps: seq<Step>, step: Step)
    requires Valid(s, steps) && Enabled(Run(s, steps), step)
    ensures Valid(s, steps + [step]) && Run(s, steps + [step]) == Next(Run(s, steps), step)
    decreases |steps|
  {
    var all := steps + [step];
    if steps == [] {
      assert all == [step] && all[1..] == [];
    } else {
      RunAppend(Next(s, steps[0]), steps[1..], step);
      assert all[0] == steps[0] && all[1..] == steps[1..] + [step];
    }
  }

  /** One more step of a run, to the state named. */
  lemma Do(before: seq<Step>, s: State, step: Step, t: State) returns (steps: seq<Step>)
    requires Reaches(before, s) && Enabled(s, step) && t == Next(s, step)
    ensures Reaches(steps, t)
    ensures NobodyGivesUp(before) && !step.Abandons? && !step.PushFails? ==> NobodyGivesUp(steps)
  {
    RunAppend(IDLE, before, step);
    steps := before + [step];
  }

  lemma Start() returns (steps: seq<Step>)
    ensures Reaches(steps, IDLE) && NobodyGivesUp(steps)
  {
    steps := [];
  }

  const A := Entry(1, "", 0)
  const B := Entry(2, "", 0)
  const C := Entry(1, "", 1)
  const D := Entry(1, "", 2)

  /** A call that waits, whose entry is queued. */
  function Waits(e: Entry): Call {
    Call(e, true, Waiting, false)
  }

  const TELL_1 := Tell(1, Matched(0, false))
  const TELL_2 := Tell(2, Matched(0, false))
  const ROUND := [Lrem(A), Lrem(B), Open(Pair(A, B)), TELL_1, TELL_2]

  // ----- user 1 joins, and perhaps cancels -----

  const JOINED := State([], map[1 := 1], map[1 := Call(A, false, Waiting, false)], map[], [], [], {A}, {})
  const QUEUED := State([Parsed(A)], map[1 := 1], map[1 := Waits(A)], map[], [], [], {A}, {})

  lemma UpToQueued() returns (steps: seq<Step>)
    ensures Reaches(steps, QUEUED) && NobodyGivesUp(steps)
  {
    steps := Start();
    steps := Do(steps, IDLE, Joins(1, A), JOINED);
    steps := Do(steps, JOINED, Pushes(1), QUEUED);
  }

  /** A cancel between a call's registration and its push: the entry is pushed for a call that is over. */
  lemma CancelBeforeThePushStrandsTheEntry() returns (steps: seq<Step>)
    ensures Reaches(steps, State([Parsed(A)], map[], map[], map[], [], [], {A}, {})) && NobodyGivesUp(steps)
  {
    var closed := State([], map[], map[1 := Call(A, false, Waiting, true)], map[7 := Scan(1)], [], [], {A}, {});
    var scanned := closed.(cancels := map[]);
    var pushed := State([Parsed(A)], map[], map[1 := Call(A, true, Waiting, true)], map[], [], [], {A}, {});
    steps := Start();
    steps := Do(steps, IDLE, Joins(1, A), JOINED);
    steps := Do(steps, JOINED, Cancels(7, 1), closed);
    steps := Do(steps, closed, CancelReads(7), scanned);
    steps := Do(steps, scanned, Pushes(1), pushed);
    steps := Do(steps, pushed, Returns(1), pushed.(calls := map[]));
  }

  /** A user who joins again before a cancelled call is over loses the new waiter to its cleanup. */
  lemma LateCleanupDropsTheNewWaiter() returns (steps: seq<Step>)
    ensures Reaches(steps, State([Parsed(C)], map[], map[3 := Waits(C)], map[], [], [], {A, C}, {}))
    ensures NobodyGivesUp(steps)
  {
    var closed := State([Parsed(A)], map[], map[1 := Call(A, true, Waiting, true)], map[7 := Scan(1)], [], [], {A}, {});
    var found := closed.(cancels := map[7 := Remove(A)]);
    var removed := closed.(queue := [], cancels := map[]);
    steps := UpToQueued();
    steps := Do(steps, QUEUED, Cancels(7, 1), closed);
    assert FirstEntry(closed.queue, 1) == Some(A) && [Parsed(A)][1..] == [];
    steps := Do(steps, closed, CancelReads(7), found);
    assert found.cancels - {7} == map[];
    steps := Do(steps, found, CancelRemoves(7), removed);
    steps := DropsFromRemoved(steps, removed);
  }

  lemma DropsFromRemoved(before: seq<Step>, removed: State) returns (steps: seq<Step>)
    requires removed == State([], map[], map[1 := Call(A, true, Waiting, true)], map[], [], [], {A}, {})
    requires Reaches(before, removed) && NobodyGivesUp(before)
    ensures Reaches(steps, State([Parsed(C)], map[], map[3 := Waits(C)], map[], [], [], {A, C}, {}))
    ensures NobodyGivesUp(steps)
  {
    var cancelled := Call(A, true, Waiting, true);
    var again := State([], map[1 := 3], map[1 := cancelled, 3 := Call(C, false, Waiting, false)], map[], [], [],
                       {A, C}, {});
    var queued := again.(queue := [Parsed(C)], calls := map[1 := cancelled, 3 := Waits(C)]);
    steps := Do(before, removed, Joins(3, C), again);
    steps := Do(steps, again, Pushes(3), queued);
    assert queued.calls - {1} == map[3 := Waits(C)] && queued.waiters - {1} == map[];
    steps := Do(steps, queued, Returns(1), queued.(waiters := map[], calls := map[3 := Waits(C)]));
  }

  // ----- two users and a pass -----

  lemma TwoYoung(p: Entry, q: Entry, now: int)
    requires !IsStale(p, now) && !IsStale(q, now)
    ensures RoomsFor([Parsed(p), Parsed(q)], now) == [Pair(p, q)] && Stale([Parsed(p), Parsed(q)], now) == []
  {
    var two := [Parsed(p), Parsed(q)];
    assert two[..1] == [Parsed(p)] && [Parsed(p)][..0] == [];
    assert Young([], now) == [] && Stale([], now) == [];
    assert Young([Parsed(p)], now) == [p] && Stale([Parsed(p)], now) == [];
    assert Young(two, now) == [p, q] && Stale(two, now) == [];
    OnePair(p, q);
  }

  lemma OnePair(p: Entry, q: Entry)
    ensures Pairs([p, q]) == [Pair(p, q)]
  {
    assert [p, q][2..] == [];
    assert Pairs([]) == [];
  }

  lemma OnePairPlan(n: nat, p: Entry, q: Entry)
    ensures Plan(n, [Pair(p, q)], {}) == Round(n, Pair(p, q), {})
  {
    assert [Pair(p, q)][1..] == [];
    assert Plan(n + 1, [], {}) == [];
  }

  lemma ReadTwo(s: State, p: Entry, q: Entry, now: int)
    requires s.queue == [Parsed(p), Parsed(q)] && !IsStale(p, now) && !IsStale(q, now)
    ensures ReadQueue(s, now, {}) == s.(plan := Round(|s.rooms|, Pair(p, q), {}))
  {
    TwoYoung(p, q, now);
    OnePairPlan(|s.rooms|, p, q);
  }

  /** Both users are queued, and the pass has read them. */
  const READ := State([Parsed(A), Parsed(B)], map[1 := 1, 2 := 2], map[1 := Waits(A), 2 := Waits(B)], map[], ROUND,
                      [], {A, B}, {})

  lemma UpToRead() returns (steps: seq<Step>)
    ensures Reaches(steps, READ) && NobodyGivesUp(steps)
  {
    var second := State([Parsed(A)], map[1 := 1, 2 := 2], map[1 := Waits(A), 2 := Call(B, false, Waiting, false)],
                        map[], [], [], {A, B}, {});
    steps := UpToQueued();
    steps := Do(steps, QUEUED, Joins(2, B), second);
    steps := Do(steps, second, Pushes(2), READ.(plan := []));
    steps := ReadThem(steps, READ.(plan := []), A, B, 10, READ);
  }

  /** User 1 cancelled while the pass holds them, and the cancelled call has returned. */
  const CANCELLED := State([Parsed(B)], map[2 := 2], map[2 := Waits(B)], map[], ROUND, [], {A, B}, {})

  const CLOSED := State([Parsed(A), Parsed(B)], map[2 := 2], map[1 := Call(A, true, Waiting, true), 2 := Waits(B)],
                        map[7 := Scan(1)], ROUND, [], {A, B}, {})
  const REMOVED := State([Parsed(B)], map[2 := 2], map[1 := Call(A, true, Waiting, true), 2 := Waits(B)],
                         map[], ROUND, [], {A, B}, {})

  lemma UpToRemoved() returns (steps: seq<Step>)
    ensures Reaches(steps, REMOVED) && NobodyGivesUp(steps)
  {
    var found := CLOSED.(cancels := map[7 := Remove(A)]);
    steps := UpToRead();
    steps := Do(steps, READ, Cancels(7, 1), CLOSED);
    assert FirstEntry(CLOSED.queue, 1) == Some(A) && [Parsed(A), Parsed(B)][1..] == [Parsed(B)];
    steps := Do(steps, CLOSED, CancelReads(7), found);
    assert found.cancels - {7} == map[];
    steps := Do(steps, found, CancelRemoves(7), REMOVED);
  }

  lemma UpToCancelled() returns (steps: seq<Step>)
    ensures Reaches(steps, CANCELLED) && NobodyGivesUp(steps)
  {
    steps := UpToRemoved();
    assert REMOVED.calls - {1} == map[2 := Waits(B)] && REMOVED.waiters - {1} == map[2 := 2];
    steps := Do(steps, REMOVED, Returns(1), CANCELLED);
  }

  lemma RunCommand(before: seq<Step>, s: State, op: Op, rest: seq<Op>, t: State) returns (steps: seq<Step>)
    requires Reaches(before, s) && NobodyGivesUp(before) && s.plan == [op] + rest && t == Exec(s.(plan := rest), op)
    ensures Reaches(steps, t) && NobodyGivesUp(steps)
  {
    assert s.plan[0] == op && s.plan[1..] == rest;
    steps := Do(before, s, PassSteps, t);
  }

  /** The commands of the round, once user 1's entry is gone from the queue. */
  lemma RunTheRound(before: seq<Step>, s: State, queue: seq<Raw>) returns (steps: seq<Step>)
    requires Reaches(before, s) && NobodyGivesUp(before) && s.plan == ROUND && s.rooms == []
    requires RemoveFirst(s.queue, Parsed(A)) == s.queue && RemoveFirst(s.queue, Parsed(B)) == queue
    ensures NobodyGivesUp(steps)
    ensures Reaches(steps,
                    Notify(Notify(s.(plan := [], rooms := [Pair(A, B)], queue := queue), 1, Matched(0, false)), 2,
                           Matched(0, false)))
  {
    var later := [Open(Pair(A, B)), TELL_1, TELL_2];
    assert s.plan == [Lrem(A)] + ([Lrem(B)] + later);
    steps := RunCommand(before, s, Lrem(A), [Lrem(B)] + later, s.(plan := [Lrem(B)] + later));
    steps := RunCommand(steps, s.(plan := [Lrem(B)] + later), Lrem(B), later, s.(plan := later, queue := queue));
    steps := OpenAndTell(steps, s.(plan := later, queue := queue));
  }

  lemma OpenAndTell(before: seq<Step>, s: State) returns (steps: seq<Step>)
    requires Reaches(before, s) && NobodyGivesUp(before) && s.plan == [Open(Pair(A, B)), TELL_1, TELL_2]
    requires s.rooms == []
    ensures NobodyGivesUp(steps)
    ensures Reaches(steps,
                    Notify(Notify(s.(plan := [], rooms := [Pair(A, B)]), 1, Matched(0, false)), 2, Matched(0, false)))
  {
    var roomOpen := s.(rooms := [Pair(A, B)], plan := [TELL_1, TELL_2]);
    var told := Notify(s.(rooms := [Pair(A, B)], plan := [TELL_2]), 1, Matched(0, false));
    assert s.plan == [Open(Pair(A, B))] + [TELL_1, TELL_2] && [TELL_1, TELL_2] == [TELL_1] + [TELL_2];
    assert [TELL_2] == [TELL_2] + [];
    steps := RunCommand(before, s, Open(Pair(A, B)), [TELL_1, TELL_2], roomOpen);
    steps := RunCommand(steps, roomOpen, TELL_1, [TELL_2], told);
    steps := RunCommand(steps, told, TELL_2, [], Notify(told.(plan := []), 2, Matched(0, false)));
  }

  /**
   * A cancel inside a pass: the room is opened, its second player is sent there, and the first is never told, for
   * no call of theirs is left.
   */
  lemma CancelDuringAPassLeavesAPlayerAlone() returns (steps: seq<Step>)
    ensures NobodyGivesUp(steps)
    ensures Reaches(steps,
                    State([], map[2 := 2], map[2 := Call(B, true, Matched(0, false), false)], map[], [], [Pair(A, B)],
                          {A, B}, {}))
  {
    steps := UpToCancelled();
    assert [Parsed(B)][1..] == [] && RemoveFirst([], Parsed(A)) == [];
    assert RemoveFirst([Parsed(B)], Parsed(A)) == [Parsed(B)];
    steps := RunTheRound(steps, CANCELLED, []);
  }

  /** User 1 has joined again inside the pass. */
  const AGAIN := State([Parsed(B), Parsed(C)], map[1 := 3, 2 := 2], map[2 := Waits(B), 3 := Waits(C)], map[], ROUND, [],
                       {A, B, C}, {})

  lemma UpToAgain() returns (steps: seq<Step>)
    ensures Reaches(steps, AGAIN) && NobodyGivesUp(steps)
  {
    var joined := CANCELLED.(waiters := map[1 := 3, 2 := 2],
                             calls := map[2 := Waits(B), 3 := Call(C, false, Waiting, false)],
                             used := {A, B, C});
    steps := UpToCancelled();
    steps := Do(steps, CANCELLED, Joins(3, C), joined);
    steps := Do(steps, joined, Pushes(3), AGAIN);
  }

  const MISLED := State([Parsed(C)], map[1 := 3, 2 := 2],
                        map[2 := Call(B, true, Matched(0, false), false), 3 := Call(C, true, Matched(0, false), false)],
                        map[], [], [Pair(A, B)], {A, B, C}, {})

  lemma QueueOfTwo(p: Entry, q: Entry, e: Entry)
    requires e != p
    ensures RemoveFirst([Parsed(p), Parsed(q)], Parsed(p)) == [Parsed(q)]
    ensures e != q ==> RemoveFirst([Parsed(p), Parsed(q)], Parsed(e)) == [Parsed(p), Parsed(q)]
  {
    var two := [Parsed(p), Parsed(q)];
    assert two[1..] == [Parsed(q)] && [Parsed(q)][1..] == [];
    assert RemoveFirst([], Parsed(e)) == [];
    assert e != q ==> RemoveFirst(two[1..], Parsed(e)) == [Parsed(q)] + [];
    assert e != q ==> RemoveFirst(two, Parsed(e)) == [Parsed(p)] + [Parsed(q)];
  }

  lemma UpToMisled() returns (steps: seq<Step>)
    ensures Reaches(steps, MISLED) && NobodyGivesUp(steps)
  {
    QueueOfTwo(B, C, A);
    steps := UpToAgain();
    steps := RunTheRound(steps, AGAIN, [Parsed(C)]);
  }

  /** Once more: the misled call has returned, and its entry and the next call's are queued side by side. */
  const TWICE := State([Parsed(C), Parsed(D)], map[2 := 2, 1 := 4],
                       map[2 := Call(B, true, Matched(0, false), false), 4 := Waits(D)],
                       map[], [], [Pair(A, B)], {A, B, C, D}, {})

  lemma UpToTwice() returns (steps: seq<Step>)
    ensures Reaches(steps, TWICE) && NobodyGivesUp(steps)
  {
    var left := MISLED.(waiters := map[2 := 2], calls := map[2 := Call(B, true, Matched(0, false), false)]);
    var joined := TWICE.(queue := [Parsed(C)], calls := left.calls[4 := Call(D, false, Waiting, false)]);
    steps := UpToMisled();
    steps := Do(steps, MISLED, Returns(3), left);
    steps := Do(steps, left, Joins(4, D), joined);
    steps := Do(steps, joined, Pushes(4), TWICE);
  }

  /**
   * Joining again inside the pass: the new call is sent to the old entry's room and leaves its own entry behind, and
   * the next pass pairs the user with themselves, although every call ended by a result or a cancel.
   */
  lemma JoinDuringAPassPairsAUserWithThemselves() returns (steps: seq<Step>, t: State)
    ensures Reaches(steps, t) && NobodyGivesUp(steps) && Promised(t) == [Pair(A, B), Pair(C, D)]
  {
    steps := UpToTwice();
    t := TWICE.(plan := Round(1, Pair(C, D), {}));
    steps := ReadThem(steps, TWICE, C, D, 20, t);
  }

  /** A pass reads the two entries of the queue, and promises them one room. */
  lemma ReadThem(before: seq<Step>, s: State, p: Entry, q: Entry, now: int, t: State) returns (steps: seq<Step>)
    requires Reaches(before, s) && s.plan == [] && s.queue == [Parsed(p), Parsed(q)]
    requires !IsStale(p, now) && !IsStale(q, now) && t == s.(plan := Round(|s.rooms|, Pair(p, q), {}))
    ensures Reaches(steps, t) && (NobodyGivesUp(before) ==> NobodyGivesUp(steps))
    ensures Promised(t) == s.rooms + [Pair(p, q)]
  {
    ReadTwo(s, p, q, now);
    steps := Do(before, s, PassReads(now, {}), t);
    RoundOpens(|s.rooms|, Pair(p, q), {});
  }

  /** A call that ends on its own leaves its entry behind; joining again, the user is paired with themselves. */
  lemma AbandonedEntryPairsAUserWithThemselves() returns (steps: seq<Step>, t: State)
    ensures Reaches(steps, t) && Promised(t) == [Pair(A, C)]
  {
    var left := QUEUED.(waiters := map[], calls := map[]);
    var joined := left.(waiters := map[1 := 3], calls := map[3 := Call(C, false, Waiting, false)], used := {A, C});
    var queued := joined.(queue := [Parsed(A), Parsed(C)], calls := map[3 := Waits(C)]);
    t := queued.(plan := Round(0, Pair(A, C), {}));
    steps := UpToQueued();
    steps := Do(steps, QUEUED, Abandons(1), left);
    steps := Do(steps, left, Joins(3, C), joined);
    steps := Do(steps, joined, Pushes(3), queued);
    steps := ReadThem(steps, queued, A, C, 10, t);
  }
}
