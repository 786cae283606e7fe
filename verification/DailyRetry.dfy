/** Daily Challenge attempts and the paid retry (service/daily.go, service/game.go, repository/daily.go). */
module DailyRetry {
  import opened Optional
  import CoinStore
  import Economy

  const RETRY_COINS := 25

  type Id = Economy.Id

  /** One player on one challenge day. */
  datatype Slot = Slot(user: Id, day: int)

  datatype Match = Match(user: Id, startedAt: int)

  /**
   * `attempts` and `retries` are the tables, `matches` the finished daily matches; `charged` lists the slots
   * of successful retry charges, oldest first, and no operation reads it.
   */
  datatype State = State(coins: Economy.State, attempts: set<(Slot, int)>, retries: set<Slot>, matches: set<Match>,
                         charged: seq<Slot>)

  datatype Outcome = Paid | NotAttempted | AlreadyRetried | CannotPay

  /** Records the retry first and takes it back when the coins are missing; the rollback itself may fail. */
  function Retry(s: State, slot: Slot, rollbackFails: bool): (State, Outcome) {
    if (slot, 2) in s.attempts then (s, AlreadyRetried)
    else if (slot, 1) !in s.attempts then (s, NotAttempted)
    else if slot in s.retries then (s, AlreadyRetried)
    else
      var recorded := s.(retries := s.retries + {slot});
      var (coins, o) := Economy.Spend(s.coins, slot.user, RETRY_COINS);
      if o == Economy.Done then (recorded.(coins := coins, charged := s.charged + [slot]), Paid)
      else if rollbackFails then (recorded, CannotPay)
      else (recorded.(retries := recorded.retries - {slot}), CannotPay)
  }

  function AttemptCount(s: State, slot: Slot): nat {
    |set a | a in s.attempts && a.0 == slot :: a.1|
  }

  datatype Upload = Stored(attempt: nat) | Existing | NotAllowed | BadChain | Failed

  /** The attempt number an upload fills, 0 when none is left. */
  function AttemptNumber(s: State, slot: Slot): nat {
    if AttemptCount(s, slot) == 0 then 1
    else if AttemptCount(s, slot) == 1 && slot in s.retries then 2
    else 0
  }

  /** The write of an upload that fails, if any: the match row, its player row, or the attempt row. */
  datatype Fault = NoFault | MatchFails | PlayerFails | AttemptFails

  /**
   * `chainOk` is the verdict of the chain checker. A match counts as stored once its player row is there; a match
   * row without one is found by no upload.
   */
  function Submit(s: State, user: Id, day: int, startedAt: int, chainOk: bool, fault: Fault): (State, Upload) {
    var slot, m := Slot(user, day), Match(user, startedAt);
    if m in s.matches then (s, Existing)
    else if AttemptNumber(s, slot) == 0 then (s, NotAllowed)
    else if !chainOk then (s, BadChain)
    else if fault == MatchFails || fault == PlayerFails then (s, Failed)
    else
      var kept := s.(matches := s.matches + {m});
      if fault == AttemptFails then (kept, Failed)
      else (kept.(attempts := s.attempts + {(slot, AttemptNumber(s, slot))}), Stored(AttemptNumber(s, slot)))
  }

  datatype Step =
    | Buy(slot: Slot, rollbackFails: bool)
    | Finish(user: Id, day: int, startedAt: int, chainOk: bool, fault: Fault)
    | Coins(step: Economy.Step)

  function Next(s: State, step: Step): State {
    match step
    case Buy(slot, rollbackFails) => Retry(s, slot, rollbackFails).0
    case Finish(user, day, startedAt, chainOk, fault) => Submit(s, user, day, startedAt, chainOk, fault).0
    case Coins(c) => s.(coins := Economy.Next(s.coins, c).0)
  }

  function Run(s: State, steps: seq<Step>): State
    decreases |steps|
  {
    if steps == [] then s else Run(Next(s, steps[0]), steps[1..])
  }

  /** The last retry, upload or coin operation of a run acts on what the ones before it left. */
  lemma {:induction false} LastStepActs(s: State, steps: seq<Step>, step: Step)
    ensures var m := Run(s, steps);
      Run(s, steps + [step]) ==
        if step.Buy? then Retry(m, step.slot, step.rollbackFails).0
        else if step.Finish? then Submit(m, step.user, step.day, step.startedAt, step.chainOk, step.fault).0
        else m.(coins := Economy.Next(m.coins, step.step).0)
    decreases |steps|
  {
    if steps == [] {
      assert Run(Next(s, step), []) == Next(s, step);
    } else {
      LastStepActs(Next(s, steps[0]), steps[1..], step);
      assert (steps + [step])[1..] == steps[1..] + [step];
    }
  }

  /** A slot's attempts are none, the first, or the first and the retried second; a paid retry is one charge. */
  ghost predicate SlotOk(s: State, slot: Slot) {
    && (forall n :: (slot, n) in s.attempts ==> n == 1 || n == 2)
    && ((slot, 2) in s.attempts ==> slot in s.retries)
    && (slot in s.retries ==> (slot, 1) in s.attempts)
    && multiset(s.charged)[slot] == if slot in s.retries then 1 else 0
  }

  ghost predicate Inv(s: State) {
    forall slot :: SlotOk(s, slot)
  }

  /** What the numbering rule counts, told by the rows. */
  lemma CountTellsTheRows(s: State, slot: Slot)
    requires SlotOk(s, slot)
    ensures AttemptCount(s, slot) ==
      (if (slot, 1) in s.attempts then 1 else 0) + (if (slot, 2) in s.attempts then 1 else 0)
  {
    var numbers := set a | a in s.attempts && a.0 == slot :: a.1;
    var expected := (if (slot, 1) in s.attempts then {1} else {}) + (if (slot, 2) in s.attempts then {2} else {});
    forall n
      ensures n in numbers <==> n in expected
    {
      assert n in numbers <==> (slot, n) in s.attempts;
    }
    assert numbers == expected;
  }

  lemma SubmitKeepsInv(s: State, user: Id, day: int, startedAt: int, chainOk: bool, fault: Fault)
    requires Inv(s)
    ensures Inv(Submit(s, user, day, startedAt, chainOk, fault).0)
  {
    var t := Submit(s, user, day, startedAt, chainOk, fault).0;
    forall slot
      ensures SlotOk(t, slot)
    {
      assert SlotOk(s, slot);
      CountTellsTheRows(s, slot);
    }
  }

  lemma RetryKeepsInv(s: State, slot: Slot)
    requires Inv(s)
    ensures Inv(Retry(s, slot, false).0)
  {
    var t := Retry(s, slot, false).0;
    forall x
      ensures SlotOk(t, x)
    {
      assert SlotOk(s, x) && SlotOk(s, slot);
    }
  }

  /** All or nothing: a retry either charges 25 coins and is recorded, or it leaves every table as it was. */
  ghost predicate AllOrNothing(s: State, slot: Slot, t: State, o: Outcome) {
    if o == Paid then
      && slot in t.retries && slot !in s.retries && t.retries == s.retries + {slot}
      && Economy.Balance(t.coins, slot.user) == Economy.Balance(s.coins, slot.user) - RETRY_COINS
      && t.attempts == s.attempts
    else t == s
  }

  /**
   * It holds exactly unless the rollback fails where one is needed: a first attempt, no retry yet, and
   * fewer than 25 coins. Then the retry stays recorded although nothing was paid.
   */
  lemma RetryIsAllOrNothingExactly(s: State, slot: Slot, rollbackFails: bool)
    ensures var (t, o) := Retry(s, slot, rollbackFails);
      AllOrNothing(s, slot, t, o) <==>
        !(rollbackFails && (slot, 1) in s.attempts && (slot, 2) !in s.attempts && slot !in s.retries
          && !(slot.user in s.coins.users && Economy.Balance(s.coins, slot.user) >= RETRY_COINS))
  {
    var (t, o) := Retry(s, slot, rollbackFails);
    assert o == CannotPay && !rollbackFails ==> t.retries == s.retries;
  }

  /** No rollback fails in the run. */
  predicate Reliable(steps: seq<Step>) {
    forall i :: 0 <= i < |steps| && steps[i].Buy? ==> !steps[i].rollbackFails
  }

  lemma {:induction false} RunsKeepInv(s: State, steps: seq<Step>)
    requires Inv(s) && Reliable(steps)
    ensures Inv(Run(s, steps))
    decreases |steps|
  {
    if steps == [] {
    } else {
      match steps[0] {
        case Buy(slot, rollbackFails) => RetryKeepsInv(s, slot);
        case Finish(user, day, startedAt, chainOk, fault) => SubmitKeepsInv(s, user, day, startedAt, chainOk, fault);
        case Coins(c) =>
          forall slot
            ensures SlotOk(Next(s, steps[0]), slot)
          {
            assert SlotOk(s, slot);
          }
      }
      assert Reliable(steps[1..]);
      RunsKeepInv(Next(s, steps[0]), steps[1..]);
    }
  }

  function Empty(coins: Economy.State): State {
    State(coins, {}, {}, {}, [])
  }

  /**
   * In every reliable run each player's attempts on a day are numbered 1..n with n at most 2, and a second
   * attempt means the retry was charged for that day exactly once.
   */
  lemma AttemptsAreNumberedAndPaid(coins: Economy.State, steps: seq<Step>, slot: Slot)
    requires Reliable(steps)
    ensures var s := Run(Empty(coins), steps);
      && (forall n :: (slot, n) in s.attempts <==> 1 <= n <= AttemptCount(s, slot))
      && AttemptCount(s, slot) <= 2
      && ((slot, 2) in s.attempts ==> multiset(s.charged)[slot] == 1)
      && multiset(s.charged)[slot] <= 1
  {
    assert Inv(Empty(coins));
    RunsKeepInv(Empty(coins), steps);
    var s := Run(Empty(coins), steps);
    assert SlotOk(s, slot);
    CountTellsTheRows(s, slot);
  }

  lemma CountOf(s: State, slot: Slot, numbers: set<int>)
    requires forall n :: (slot, n) in s.attempts <==> n in numbers
    ensures AttemptCount(s, slot) == |numbers|
  {
    assert (set a | a in s.attempts && a.0 == slot :: a.1) == numbers by {
      forall n
        ensures n in (set a | a in s.attempts && a.0 == slot :: a.1) <==> n in numbers
      {
        assert n in numbers <==> (slot, n) in s.attempts;
      }
    }
  }

  lemma FirstAttempt(s: State, slot: Slot)
    requires s.attempts == {} && Match(slot.user, 1) !in s.matches
    ensures Submit(s, slot.user, slot.day, 1, true, NoFault) ==
      (s.(matches := s.matches + {Match(slot.user, 1)}, attempts := {(slot, 1)}), Stored(1))
  {
    CountOf(s, slot, {});
  }

  lemma SecondAttempt(s: State, slot: Slot)
    requires s.attempts == {(slot, 1)} && slot in s.retries && Match(slot.user, 2) !in s.matches
    ensures Submit(s, slot.user, slot.day, 2, true, NoFault).1 == Stored(2)
    ensures Submit(s, slot.user, slot.day, 2, true, NoFault).0.charged == s.charged
  {
    CountOf(s, slot, {1});
  }

  /** With a failed rollback a player without coins gets the second attempt for nothing. */
  lemma FailedRollbackGivesAFreeAttempt(user: Id, day: int)
    ensures var slot := Slot(user, day);
      var s0 := Empty(Economy.State(map[user := Economy.User(0, None)], [], [], map[]));
      var (s1, first) := Submit(s0, user, day, 1, true, NoFault);
      var (s2, bought) := Retry(s1, slot, true);
      var (s3, second) := Submit(s2, user, day, 2, true, NoFault);
      first == Stored(1) && bought == CannotPay && second == Stored(2) && s3.charged == []
  {
    var slot := Slot(user, day);
    var s0 := Empty(Economy.State(map[user := Economy.User(0, None)], [], [], map[]));
    FirstAttempt(s0, slot);
    var s1 := s0.(matches := s0.matches + {Match(user, 1)}, attempts := {(slot, 1)});
    assert Retry(s1, slot, true) == (s1.(retries := s1.retries + {slot}), CannotPay);
    SecondAttempt(s1.(retries := s1.retries + {slot}), slot);
  }

  // ----- uploading again -----

  /** How often a run stores an attempt for one upload. */
  function Stores(s: State, steps: seq<Step>, m: Match): nat
    decreases |steps|
  {
    if steps == [] then 0
    else
      var step := steps[0];
      var stored := step.Finish? && Match(step.user, step.startedAt) == m &&
        Submit(s, step.user, step.day, step.startedAt, step.chainOk, step.fault).1.Stored?;
      (if stored then 1 else 0) + Stores(Next(s, step), steps[1..], m)
  }

  lemma {:induction false} MatchesStay(s: State, steps: seq<Step>, m: Match)
    requires m in s.matches
    ensures m in Run(s, steps).matches
    decreases |steps|
  {
    if steps == [] {
    } else {
      MatchesStay(Next(s, steps[0]), steps[1..], m);
    }
  }

  /** In every run an upload stores at most one attempt, however often it is sent, and none once its match is there. */
  lemma {:induction false} UploadStoresAtMostOnce(s: State, steps: seq<Step>, m: Match)
    ensures Stores(s, steps, m) <= 1
    ensures m in s.matches ==> Stores(s, steps, m) == 0
    decreases |steps|
  {
    if steps == [] {
    } else {
      UploadStoresAtMostOnce(Next(s, steps[0]), steps[1..], m);
    }
  }

  /**
   * An upload whose attempt row failed after its match was stored is lost: whatever happens later, sending it again
   * is answered as existing, and no run ever stores its attempt.
   */
  lemma FailedInsertLosesTheAttempt(s: State, user: Id, day: int, startedAt: int, chainOk: bool, steps: seq<Step>,
                                    againDay: int, againOk: bool, againFault: Fault)
    requires Submit(s, user, day, startedAt, chainOk, AttemptFails).1 == Failed
    ensures var t := Submit(s, user, day, startedAt, chainOk, AttemptFails).0;
      var later := Run(t, steps);
      && t.attempts == s.attempts
      && Submit(later, user, againDay, startedAt, againOk, againFault) == (later, Existing)
      && Stores(t, steps, Match(user, startedAt)) == 0
  {
    var t := Submit(s, user, day, startedAt, chainOk, AttemptFails).0;
    MatchesStay(t, steps, Match(user, startedAt));
    UploadStoresAtMostOnce(t, steps, Match(user, startedAt));
  }

  predicate Mentions(step: Step, m: Match) {
    step.Finish? && Match(step.user, step.startedAt) == m
  }

  lemma {:induction false} OthersLeaveTheMatch(s: State, steps: seq<Step>, m: Match)
    requires forall step :: step in steps ==> !Mentions(step, m)
    ensures m in Run(s, steps).matches <==> m in s.matches
    decreases |steps|
  {
    if steps == [] {
    } else {
      assert steps[0] in steps;
      assert forall step :: step in steps[1..] ==> step in steps;
      OthersLeaveTheMatch(Next(s, steps[0]), steps[1..], m);
    }
  }

  /**
   * When sending an upload again stores it: exactly if the first time it was neither stored nor found existing nor
   * failed at its attempt row, its chain is good, and an attempt is left by then.
   */
  lemma RepeatStoresExactly(s: State, user: Id, day: int, startedAt: int, chainOk: bool, fault: Fault, steps: seq<Step>)
    requires forall step :: step in steps ==> !Mentions(step, Match(user, startedAt))
    ensures var (t, first) := Submit(s, user, day, startedAt, chainOk, fault);
      var later := Run(t, steps);
      Submit(later, user, day, startedAt, chainOk, NoFault).1.Stored? <==>
        (!first.Stored? && first != Existing && !(first == Failed && fault == AttemptFails)
          && chainOk && AttemptNumber(later, Slot(user, day)) != 0)
  {
    var t := Submit(s, user, day, startedAt, chainOk, fault).0;
    OthersLeaveTheMatch(t, steps, Match(user, startedAt));
  }

  // ----- the services -----

  // ----- the answers -----

  /** The attempt row is there. */
  predicate Played(s: State, user: Id, day: int, n: int) {
    (Slot(user, day), n) in s.attempts
  }

  /**
   * Who may buy a second attempt: a player with a first, without a second, who has not bought one that day and has
   * 25 coins. They pay 25, the day is marked, and nothing else changes. The others are told why, and keep what they
   * had, but for a mark whose rollback failed.
   */
  lemma RetryAnswersExactly(s: State, user: Id, day: int, rollbackFails: bool)
    ensures var slot := Slot(user, day);
      var (t, o) := Retry(s, slot, rollbackFails);
      var rich := user in s.coins.users && s.coins.users[user].coins >= 25;
      var first, second, marked := Played(s, user, day, 1), Played(s, user, day, 2), slot in s.retries;
      && (o == Paid <==> first && !second && !marked && rich)
      && (o == AlreadyRetried <==> second || (first && marked))
      && (o == NotAttempted <==> !first && !second)
      && (o == CannotPay <==> first && !second && !marked && !rich)
      && (o == Paid ==>
            && Economy.Balance(t.coins, user) == Economy.Balance(s.coins, user) - 25
            && (forall v :: v != user ==> Economy.Balance(t.coins, v) == Economy.Balance(s.coins, v))
            && t.retries == s.retries + {slot} && t.charged == s.charged + [slot]
            && t.attempts == s.attempts && t.matches == s.matches)
      && (o != Paid ==> t == if o == CannotPay && rollbackFails then s.(retries := s.retries + {slot}) else s)
  {
    var slot := Slot(user, day);
    assert slot !in s.retries ==> s.retries + {slot} - {slot} == s.retries;
  }

  /**
   * What an upload is answered, in order: existing, none left, a bad chain, a failed write, stored. It is the first
   * attempt of the day, or the second of a marked day.
   */
  lemma UploadAnswersExactly(s: State, user: Id, day: int, startedAt: int, chainOk: bool, fault: Fault)
    requires SlotOk(s, Slot(user, day))
    ensures var slot, m := Slot(user, day), Match(user, startedAt);
      var (t, o) := Submit(s, user, day, startedAt, chainOk, fault);
      var first, second, marked := Played(s, user, day, 1), Played(s, user, day, 2), slot in s.retries;
      var left := !first || (!second && marked);
      && (o == Existing <==> m in s.matches)
      && (o == NotAllowed <==> m !in s.matches && !left)
      && (o == BadChain <==> m !in s.matches && left && !chainOk)
      && (o == Failed <==> m !in s.matches && left && chainOk && fault != NoFault)
      && (o == Stored(1) <==> m !in s.matches && !first && chainOk && fault == NoFault)
      && (o == Stored(2) <==> m !in s.matches && first && !second && marked && chainOk && fault == NoFault)
      && t.coins == s.coins && t.retries == s.retries && t.charged == s.charged
      && t.attempts == (if o == Stored(1) then s.attempts + {(slot, 1)}
                        else if o == Stored(2) then s.attempts + {(slot, 2)} else s.attempts)
      && t.matches == (if o.Stored? || (o == Failed && fault == AttemptFails) then s.matches + {m} else s.matches)
  {
    CountTellsTheRows(s, Slot(user, day));
  }

  class DailyService {
    const store: CoinStore.Store
    var attempts: set<(Slot, int)>
    var retries: set<Slot>
    var matches: set<Match>
    ghost var charged: seq<Slot>

    constructor (store: CoinStore.Store)
      ensures this.store == store && Contents() == Empty(store.Contents())
    {
      this.store := store;
      attempts, retries, matches, charged := {}, {}, {}, [];
    }

    ghost function Contents(): State
      reads this, store
    {
      State(store.Contents(), attempts, retries, matches, charged)
    }

    method BuyRetry(slot: Slot, rollbackFails: bool) returns (o: Outcome)
      modifies this, store`users
      ensures (Contents(), o) == Retry(old(Contents()), slot, rollbackFails)
    {
      if (slot, 2) in attempts {
        return AlreadyRetried;
      }
      if (slot, 1) !in attempts {
        return NotAttempted;
      }
      if slot in retries {
        return AlreadyRetried;
      }
      retries := retries + {slot};
      var paid := store.SpendCoins(slot.user, RETRY_COINS);
      if paid != Economy.Done {
        if !rollbackFails {
          retries := retries - {slot};
        }
        return CannotPay;
      }
      charged := charged + [slot];
      o := Paid;
    }

    /** The daily path of CreateSoloGame. */
    method SubmitDaily(user: Id, day: int, startedAt: int, chainOk: bool, fault: Fault) returns (u: Upload)
      modifies this`attempts, this`matches
      ensures (Contents(), u) == Submit(old(Contents()), user, day, startedAt, chainOk, fault)
    {
      if Match(user, startedAt) in matches {
        return Existing;
      }
      var slot := Slot(user, day);
      var number := 0;
      var count := |set a | a in attempts && a.0 == slot :: a.1|;
      if count == 0 {
        number := 1;
      } else if count == 1 && slot in retries {
        number := 2;
      }
      if number == 0 {
        return NotAllowed;
      }
      if !chainOk {
        return BadChain;
      }
      if fault == MatchFails || fault == PlayerFails {
        return Failed;
      }
      matches := matches + {Match(user, startedAt)};
      if fault == AttemptFails {
        return Failed;
      }
      attempts := attempts + {(slot, number)};
      u := Stored(number);
    }
  }
}
