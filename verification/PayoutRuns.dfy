/** The payout insert by insert, with claims in between and a board that grows from run to run (service/daily.go). */
module PayoutRuns {
  import opened Optional
  import Economy
  import opened Payout

  type Id = Economy.Id

  /** What the unique index of the inbox knows a payout row by, beside the date. */
  datatype Key = Key(user: Id, kind: string)

  function KeyOf(d: Due): Key {
    Key(d.user, d.kind)
  }

  /**
   * `plan` are the dues the run at work has still to insert, of the board it read. No operation reads the rest:
   * `clean` says no insert of this run failed, `paid` what each row was created with, `paidBy` the board it was of.
   */
  datatype State = State(store: Economy.State, plan: seq<Due>, board: seq<Row>, clean: bool, told: seq<Due>,
                         paid: map<Key, int>, paidBy: map<Key, seq<Row>>)

  datatype Step =
    | Reads(board: seq<Row>)
    | Inserts(fails: bool, mute: bool)
    | Dies
    | Coins(step: Economy.Step)

  predicate IsPayoutKind(kind: string) {
    kind == "daily_done" || kind == "daily_rank"
  }

  /** Rewards of the payout's kinds for this date are created by nobody else. */
  predicate IsForeign(step: Economy.Step, date: string) {
    step.DoCreate? ==> !(IsPayoutKind(step.kind) && step.ref == date)
  }

  /** Reads come with one row a player, as the query groups by user. */
  ghost predicate Enabled(step: Step, date: string) {
    match step
    case Reads(board) => IsBoard(board)
    case Coins(step) => IsForeign(step, date)
    case _ => true
  }

  function Insert(s: State, date: string, d: Due, mute: bool): State {
    var (store, o) := Economy.CreateReward(s.store, d.user, d.kind, date, d.coins);
    if o != Economy.Done then s
    else s.(store := store, told := if mute then s.told else s.told + [d],
            paid := s.paid[KeyOf(d) := d.coins], paidBy := s.paidBy[KeyOf(d) := s.board])
  }

  function Next(s: State, date: string, step: Step): State {
    match step
    case Reads(board) => if s.plan == [] then s.(plan := Dues(board, board), board := board, clean := true) else s
    case Inserts(fails, mute) =>
      if s.plan == [] then s
      else if fails then s.(plan := s.plan[1..], clean := false)
      else Insert(s, date, s.plan[0], mute).(plan := s.plan[1..])
    case Dies => s.(plan := [], clean := false)
    case Coins(step) => s.(store := Economy.Next(s.store, step).0)
  }

  ghost predicate Valid(s: State, date: string, steps: seq<Step>) {
    forall step :: step in steps ==> Enabled(step, date)
  }

  function Run(s: State, date: string, steps: seq<Step>): State
    decreases |steps|
  {
    if steps == [] then s else Run(Next(s, date, steps[0]), date, steps[1..])
  }

  /** Nothing was paid for the date yet. */
  function Start(store: Economy.State): State {
    State(store, [], [], false, [], map[], map[])
  }

  // ----- what every run keeps -----

  /** The payout rows of the date. */
  ghost predicate IsRow(r: Economy.Reward, date: string, k: Key) {
    r.user == k.user && r.kind == k.kind && r.ref == date
  }

  ghost predicate HasRow(rewards: seq<Economy.Reward>, date: string, k: Key) {
    exists r :: r in rewards && IsRow(r, date, k)
  }

  /** A row is there exactly for what was paid, with the coins it was created with. */
  ghost predicate RowsArePaid(rewards: seq<Economy.Reward>, date: string, paid: map<Key, int>) {
    && (forall k :: k in paid ==> IsPayoutKind(k.kind) && HasRow(rewards, date, k))
    && (forall r, k: Key :: r in rewards && IsPayoutKind(k.kind) && IsRow(r, date, k) ==>
          k in paid && r.coins == paid[k])
  }

  /** What was paid was owed on the board it was paid of. */
  ghost predicate PaidWasOwed(paid: map<Key, int>, paidBy: map<Key, seq<Row>>) {
    && paid.Keys == paidBy.Keys
    && forall k :: k in paid ==>
         IsBoard(paidBy[k]) && Due(k.user, k.kind, paid[k]) in Dues(paidBy[k], paidBy[k])
  }

  /** A row is announced at most once, as what it pays. */
  ghost predicate ToldOnce(told: seq<Due>, paid: map<Key, int>) {
    && (forall d :: d in told ==> KeyOf(d) in paid && paid[KeyOf(d)] == d.coins)
    && (forall i, j :: 0 <= i < j < |told| ==> told[i] != told[j])
  }

  /** What the run at work owes is still to be inserted, or is paid unless an insert failed. */
  ghost predicate OnTheWay(s: State) {
    && IsBoard(s.board)
    && (forall d :: d in s.plan ==> d in Dues(s.board, s.board))
    && (s.clean ==> forall d :: d in Dues(s.board, s.board) && d.user in s.store.users ==>
          d in s.plan || KeyOf(d) in s.paid)
  }

  ghost predicate Inv(s: State, date: string) {
    && RowsArePaid(s.store.rewards, date, s.paid)
    && PaidWasOwed(s.paid, s.paidBy) && ToldOnce(s.told, s.paid) && OnTheWay(s)
  }

  lemma DuesAreOfPayoutKinds(board: seq<Row>, d: Due)
    requires d in Dues(board, board)
    ensures IsPayoutKind(d.kind)
  {
    DuesAreOfTheRows(board, board, d);
    var r :| r in board && d in DuesOf(board, r);
  }

  /** A new row. */
  lemma NewRowIsPaid(s: State, date: string, d: Due, mute: bool)
    requires RowsArePaid(s.store.rewards, date, s.paid) && IsPayoutKind(d.kind)
    ensures RowsArePaid(Insert(s, date, d, mute).store.rewards, date, Insert(s, date, d, mute).paid)
    ensures d.user in s.store.users ==> KeyOf(d) in Insert(s, date, d, mute).paid
    ensures Insert(s, date, d, mute) != s ==> KeyOf(d) !in s.paid && d.user in s.store.users
  {
    var t := Insert(s, date, d, mute);
    var row := Economy.Reward(d.user, d.kind, date, d.coins, false);
    if d.user in s.store.users {
      if Economy.HasReward(s.store.rewards, d.user, d.kind, date) {
        var r :| r in s.store.rewards && r.user == d.user && r.kind == d.kind && r.ref == date;
        assert IsRow(r, date, KeyOf(d));
      } else {
        assert t.store.rewards == s.store.rewards + [row];
        assert row in t.store.rewards && IsRow(row, date, KeyOf(d));
        assert KeyOf(d) in s.paid ==> HasRow(s.store.rewards, date, KeyOf(d));
        forall k | k in s.paid
          ensures HasRow(t.store.rewards, date, k)
        {
          var r :| r in s.store.rewards && IsRow(r, date, k);
          assert r in t.store.rewards;
        }
      }
    }
  }

  /** The key is new: it is owed on the board, and announced for the first time. */
  lemma NewKeyIsOwed(s: State, d: Due, told: seq<Due>)
    requires PaidWasOwed(s.paid, s.paidBy) && ToldOnce(s.told, s.paid) && IsBoard(s.board)
    requires d in Dues(s.board, s.board) && KeyOf(d) !in s.paid && (told == s.told || told == s.told + [d])
    ensures PaidWasOwed(s.paid[KeyOf(d) := d.coins], s.paidBy[KeyOf(d) := s.board])
    ensures ToldOnce(told, s.paid[KeyOf(d) := d.coins])
  {
    assert Due(KeyOf(d).user, KeyOf(d).kind, d.coins) == d;
    assert d !in s.told;
  }

  lemma HeadGoesOnItsWay(s: State, date: string, mute: bool)
    requires OnTheWay(s) && s.plan != [] && RowsArePaid(s.store.rewards, date, s.paid)
    ensures OnTheWay(Next(s, date, Inserts(false, mute)))
  {
    var d := s.plan[0];
    DuesAreOfPayoutKinds(s.board, d);
    NewRowIsPaid(s, date, d, mute);
    assert forall x :: x in s.plan ==> x == d || x in s.plan[1..];
  }

  lemma InsertKeepsInv(s: State, date: string, mute: bool)
    requires Inv(s, date) && s.plan != []
    ensures Inv(Next(s, date, Inserts(false, mute)), date)
  {
    var d := s.plan[0];
    var t := Insert(s, date, d, mute);
    DuesAreOfPayoutKinds(s.board, d);
    NewRowIsPaid(s, date, d, mute);
    HeadGoesOnItsWay(s, date, mute);
    if t != s {
      NewKeyIsOwed(s, d, t.told);
    }
  }

  /** Claims, purchases, other rewards: they leave the payout's rows and what they pay alone. */
  lemma ForeignStepKeepsRows(store: Economy.State, step: Economy.Step, date: string, paid: map<Key, int>)
    requires RowsArePaid(store.rewards, date, paid) && IsForeign(step, date)
    ensures RowsArePaid(Economy.Next(store, step).0.rewards, date, paid)
    ensures Economy.Next(store, step).0.users.Keys == store.users.Keys
  {
    var t := Economy.Next(store, step).0;
    if step.DoClaim? && t != store {
      ClaimKeepsRows(store.rewards, step.id, date, paid);
    } else if step.DoCreate? && t != store {
      CreateKeepsRows(store.rewards, t.rewards[|store.rewards|], date, paid);
    }
  }

  lemma ClaimKeepsRows(rewards: seq<Economy.Reward>, id: nat, date: string, paid: map<Key, int>)
    requires RowsArePaid(rewards, date, paid) && id < |rewards|
    ensures RowsArePaid(rewards[id := rewards[id].(claimed := true)], date, paid)
  {
    var after := rewards[id := rewards[id].(claimed := true)];
    forall k | k in paid
      ensures HasRow(after, date, k)
    {
      var r :| r in rewards && IsRow(r, date, k);
      var i :| 0 <= i < |rewards| && rewards[i] == r;
      assert after[i] in after && IsRow(after[i], date, k);
    }
    forall r, k: Key | r in after && IsPayoutKind(k.kind) && IsRow(r, date, k)
      ensures k in paid && r.coins == paid[k]
    {
      var i :| 0 <= i < |after| && after[i] == r;
      assert rewards[i] in rewards && IsRow(rewards[i], date, k);
    }
  }

  lemma CreateKeepsRows(rewards: seq<Economy.Reward>, row: Economy.Reward, date: string, paid: map<Key, int>)
    requires RowsArePaid(rewards, date, paid) && !(IsPayoutKind(row.kind) && row.ref == date)
    ensures RowsArePaid(rewards + [row], date, paid)
  {
    forall k | k in paid
      ensures HasRow(rewards + [row], date, k)
    {
      var r :| r in rewards && IsRow(r, date, k);
      assert r in rewards + [row];
    }
  }

  lemma StepKeepsInv(s: State, date: string, step: Step)
    requires Inv(s, date) && Enabled(step, date)
    ensures Inv(Next(s, date, step), date)
  {
    match step
    case Inserts(fails, mute) =>
      if s.plan != [] && !fails {
        InsertKeepsInv(s, date, mute);
      }
    case Coins(step) => ForeignStepKeepsRows(s.store, step, date, s.paid);
    case _ =>
  }

  /** What one insert pays, it pays for good. */
  lemma InsertKeepsPaid(s: State, date: string, d: Due, mute: bool, k: Key)
    requires RowsArePaid(s.store.rewards, date, s.paid) && s.paid.Keys == s.paidBy.Keys
    requires IsPayoutKind(d.kind) && k in s.paid
    ensures var t := Insert(s, date, d, mute);
      k in t.paid && k in t.paidBy && t.paid[k] == s.paid[k] && t.paidBy[k] == s.paidBy[k]
  {
    NewRowIsPaid(s, date, d, mute);
  }

  /** What was paid stays paid. */
  ghost predicate StaysPaid(s: State, t: State) {
    && s.paid.Keys == s.paidBy.Keys && t.paid.Keys == t.paidBy.Keys
    && forall k :: k in s.paid ==> k in t.paid && t.paid[k] == s.paid[k] && t.paidBy[k] == s.paidBy[k]
  }

  lemma StepKeepsPaid(s: State, date: string, step: Step)
    requires Inv(s, date) && Enabled(step, date)
    ensures StaysPaid(s, Next(s, date, step))
  {
    StepKeepsInv(s, date, step);
    if step.Inserts? && s.plan != [] && !step.fails {
      DuesAreOfPayoutKinds(s.board, s.plan[0]);
      forall k | k in s.paid
        ensures k in Insert(s, date, s.plan[0], step.mute).paid
        ensures Insert(s, date, s.plan[0], step.mute).paid[k] == s.paid[k]
        ensures k in Insert(s, date, s.plan[0], step.mute).paidBy
        ensures Insert(s, date, s.plan[0], step.mute).paidBy[k] == s.paidBy[k]
      {
        InsertKeepsPaid(s, date, s.plan[0], step.mute, k);
      }
    }
  }

  /**
   * In every interleaving of payout runs on any boards, with failing inserts, lost announcements and crashes, and of
   * claims, purchases and other rewards: each player has at most one amount of each kind for the date, decided by the
   * board whose insert went through first and never changed; it was owed on that board, and announced at most once.
   */
  lemma {:induction false} EveryRunPaysOnce(s: State, date: string, steps: seq<Step>)
    requires Inv(s, date) && Valid(s, date, steps)
    ensures Inv(Run(s, date, steps), date)
    ensures StaysPaid(s, Run(s, date, steps))
    decreases |steps|
  {
    if steps == [] {
    } else {
      assert steps[0] in steps && forall step :: step in steps[1..] ==> step in steps;
      StepKeepsInv(s, date, steps[0]);
      StepKeepsPaid(s, date, steps[0]);
      EveryRunPaysOnce(Next(s, date, steps[0]), date, steps[1..]);
    }
  }

  /** Nobody has a payout row for the date. */
  ghost predicate Unpaid(store: Economy.State, date: string) {
    forall r :: r in store.rewards ==> !(IsPayoutKind(r.kind) && r.ref == date)
  }

  lemma StartHasInv(store: Economy.State, date: string)
    requires Unpaid(store, date)
    ensures Inv(Start(store), date)
  {
    assert Dues([], []) == [];
  }

  /** The inbox pays d. */
  ghost predicate Pays(rewards: seq<Economy.Reward>, date: string, d: Due) {
    exists r :: r in rewards && IsRow(r, date, KeyOf(d)) && r.coins == d.coins
  }

  lemma PaysWhatWasPaid(s: State, date: string, d: Due)
    requires Inv(s, date) && IsPayoutKind(d.kind)
    ensures Pays(s.store.rewards, date, d) <==> KeyOf(d) in s.paid && s.paid[KeyOf(d)] == d.coins
  {
    if KeyOf(d) in s.paid {
      var r :| r in s.store.rewards && IsRow(r, date, KeyOf(d));
    }
  }

  /**
   * When a run has ended whose inserts all went through, every finisher of its board has a row of each kind the board
   * owes, and it pays what that board owes exactly if the board that paid it owed the same.
   */
  lemma CleanRunPaysExactly(store: Economy.State, date: string, steps: seq<Step>, d: Due)
    requires Unpaid(store, date) && Valid(Start(store), date, steps)
    ensures var t := Run(Start(store), date, steps);
      t.plan == [] && t.clean && d in Dues(t.board, t.board) && d.user in t.store.users ==>
        && HasRow(t.store.rewards, date, KeyOf(d))
        && KeyOf(d) in t.paidBy
        && (Pays(t.store.rewards, date, d) <==> d in Dues(t.paidBy[KeyOf(d)], t.paidBy[KeyOf(d)]))
  {
    StartHasInv(store, date);
    EveryRunPaysOnce(Start(store), date, steps);
    var t := Run(Start(store), date, steps);
    if t.plan == [] && t.clean && d in Dues(t.board, t.board) && d.user in t.store.users {
      var k := KeyOf(d);
      var board := t.paidBy[k];
      DuesAreOfPayoutKinds(t.board, d);
      PaysWhatWasPaid(t, date, d);
      DuesAreDistinct(board, board);
      if d in Dues(board, board) {
        SameDue(Dues(board, board), d, Due(k.user, k.kind, t.paid[k]));
      }
    }
  }

  /** The completion reward never depends on the board. */
  lemma CompletionIsAlwaysPaid(store: Economy.State, date: string, steps: seq<Step>, row: Row)
    requires Unpaid(store, date) && Valid(Start(store), date, steps)
    ensures var t := Run(Start(store), date, steps);
      t.plan == [] && t.clean && row in t.board && row.user in t.store.users ==>
        Pays(t.store.rewards, date, Due(row.user, "daily_done", COMPLETION_COINS))
  {
    var t := Run(Start(store), date, steps);
    if t.plan == [] && t.clean && row in t.board && row.user in t.store.users {
      var d := Due(row.user, "daily_done", COMPLETION_COINS);
      DuesAreOfTheRows(t.board, t.board, d);
      assert d in DuesOf(t.board, row);
      CleanRunPaysExactly(store, date, steps, d);
      StartHasInv(store, date);
      EveryRunPaysOnce(Start(store), date, steps);
      var board := t.paidBy[KeyOf(d)];
      CompletionIsTen(board, Due(d.user, d.kind, t.paid[KeyOf(d)]));
    }
  }

  lemma CompletionIsTen(board: seq<Row>, d: Due)
    requires d in Dues(board, board) && d.kind == "daily_done"
    ensures d.coins == COMPLETION_COINS
  {
    DuesAreOfTheRows(board, board, d);
    var r :| r in board && d in DuesOf(board, r);
  }

  // ----- a board that grows -----

  const EARLY := [Row(1, 5)]
  const LATE := [Row(1, 5), Row(2, 9)]
  const PLAYERS := Economy.State(map[1 := Economy.User(0, None), 2 := Economy.User(0, None)], [], [], map[])

  lemma EarlyDues()
    ensures Dues(EARLY, EARLY) == [Due(1, "daily_done", 10), Due(1, "daily_rank", 100)]
  {
    assert EARLY[..0] == [];
    assert Better(EARLY, 5) == 0;
    assert DuesOf(EARLY, EARLY[0]) == [Due(1, "daily_done", 10), Due(1, "daily_rank", 100)];
    assert Dues(EARLY, []) == [];
  }

  lemma LateDues()
    ensures Dues(LATE, LATE) ==
      [Due(1, "daily_done", 10), Due(1, "daily_rank", 60), Due(2, "daily_done", 10), Due(2, "daily_rank", 100)]
  {
    assert LATE[..1] == EARLY && EARLY[..0] == [];
    assert Better(LATE, 5) == 1 && Better(LATE, 9) == 0;
    assert Dues(LATE, []) == [];
    assert Dues(LATE, EARLY) == [Due(1, "daily_done", 10), Due(1, "daily_rank", 60)];
    assert DuesOf(LATE, LATE[1]) == [Due(2, "daily_done", 10), Due(2, "daily_rank", 100)];
  }

  ghost predicate Reaches(steps: seq<Step>, s: State) {
    Valid(Start(PLAYERS), "day", steps) && Run(Start(PLAYERS), "day", steps) == s
  }

  lemma {:induction false} RunAppend(s: State, date: string, steps: seq<Step>, step: Step)
    ensures Run(s, date, steps + [step]) == Next(Run(s, date, steps), date, step)
    decreases |steps|
  {
    var all := steps + [step];
    if steps == [] {
      assert all == [step] && all[1..] == [];
      assert Run(Next(s, date, step), date, []) == Next(s, date, step);
    } else {
      RunAppend(Next(s, date, steps[0]), date, steps[1..], step);
      assert all[0] == steps[0] && all[1..] == steps[1..] + [step];
    }
  }

  /** What an insert of d leaves: a row of its coins and its announcement, if it is the first and does not fail. */
  ghost predicate Inserted(s: State, date: string, d: Due, fails: bool, mute: bool, t: State) {
    && s.plan == [d] + t.plan && t.board == s.board && t.clean == (s.clean && !fails)
    && if !fails && d.user in s.store.users && !Economy.HasReward(s.store.rewards, d.user, d.kind, date)
       then && t.told == (if mute then s.told else s.told + [d])
            && t.store.rewards == s.store.rewards + [Economy.Reward(d.user, d.kind, date, d.coins, false)]
       else t.told == s.told && t.store == s.store
  }

  /** The effect of each step. A payout starts only when none is at work. */
  ghost predicate TakesEffect(s: State, date: string, step: Step, t: State) {
    if step.Reads? then
      if s.plan == [] then t == s.(plan := Dues(step.board, step.board), board := step.board, clean := true)
      else t == s
    else if step.Inserts? then
      if s.plan == [] then t == s else Inserted(s, date, s.plan[0], step.fails, step.mute, t)
    else if step.Dies? then t == s.(plan := [], clean := false)
    else t == s.(store := Economy.Next(s.store, step.step).0)
  }

  /** The last step of a run acts on what the steps before it left. */
  lemma LastStepActs(s: State, date: string, steps: seq<Step>, step: Step)
    ensures TakesEffect(Run(s, date, steps), date, step, Run(s, date, steps + [step]))
  {
    RunAppend(s, date, steps, step);
  }

  lemma Do(before: seq<Step>, s: State, step: Step) returns (steps: seq<Step>)
    requires Reaches(before, s) && Enabled(step, "day")
    ensures Reaches(steps, Next(s, "day", step))
  {
    RunAppend(Start(PLAYERS), "day", before, step);
    steps := before + [step];
  }

  function RowFor(d: Due): Economy.Reward {
    Economy.Reward(d.user, d.kind, "day", d.coins, false)
  }

  /** An insert that creates its row, or finds one. */
  lemma DoInsert(before: seq<Step>, s: State, d: Due, rest: seq<Due>) returns (steps: seq<Step>, t: State)
    requires Reaches(before, s) && s.plan == [d] + rest && d.user in s.store.users
    ensures Reaches(steps, t) && t.plan == rest && t.board == s.board && t.clean == s.clean
    ensures t.store == if Economy.HasReward(s.store.rewards, d.user, d.kind, "day") then s.store
      else s.store.(rewards := s.store.rewards + [RowFor(d)])
  {
    t := Next(s, "day", Inserts(false, false));
    steps := Do(before, s, Inserts(false, false));
    assert s.plan[0] == d && s.plan[1..] == rest;
  }

  const DONE_1 := Due(1, "daily_done", 10)
  const FIRST_1 := Due(1, "daily_rank", 100)
  const SECOND_1 := Due(1, "daily_rank", 60)
  const DONE_2 := Due(2, "daily_done", 10)
  const FIRST_2 := Due(2, "daily_rank", 100)

  /** The early run, which dies after its inserts. */
  lemma EarlyRun() returns (steps: seq<Step>, s: State)
    ensures Reaches(steps, s) && s.plan == [] && s.store == PLAYERS.(rewards := [RowFor(DONE_1), RowFor(FIRST_1)])
  {
    EarlyDues();
    steps := Do([], Start(PLAYERS), Reads(EARLY));
    s := Next(Start(PLAYERS), "day", Reads(EARLY));
    assert s.plan == [DONE_1] + [FIRST_1];
    steps, s := DoInsert(steps, s, DONE_1, [FIRST_1]);
    assert s.store.rewards == [RowFor(DONE_1)] && s.plan == [FIRST_1] + [];
    steps, s := DoInsert(steps, s, FIRST_1, []);
    assert s.store.rewards == [RowFor(DONE_1), RowFor(FIRST_1)];
    steps := Do(steps, s, Dies);
    s := Next(s, "day", Dies);
  }

  /**
   * A run on the early board dies after paying its winner; a better game is uploaded, and the next run is clean: two
   * first prizes are paid, and the second place's none.
   */
  lemma GrowingBoardPaysTwoFirstPrizes() returns (steps: seq<Step>, t: State)
    ensures Reaches(steps, t) && t.plan == [] && t.clean && t.board == LATE
    ensures Pays(t.store.rewards, "day", FIRST_1) && Pays(t.store.rewards, "day", FIRST_2)
    ensures !Pays(t.store.rewards, "day", SECOND_1)
  {
    steps, t := EarlyRun();
    steps, t := LateRun(steps, t);
    var rows := t.store.rewards;
    assert rows[1] == RowFor(FIRST_1) && rows[3] == RowFor(FIRST_2);
    assert rows[1] in rows && rows[3] in rows;
  }

  lemma LateRun(before: seq<Step>, s: State) returns (steps: seq<Step>, t: State)
    requires Reaches(before, s) && s.plan == [] && s.store == PLAYERS.(rewards := [RowFor(DONE_1), RowFor(FIRST_1)])
    ensures Reaches(steps, t) && t.plan == [] && t.clean && t.board == LATE
    ensures t.store.rewards == [RowFor(DONE_1), RowFor(FIRST_1), RowFor(DONE_2), RowFor(FIRST_2)]
  {
    LateDues();
    steps := Do(before, s, Reads(LATE));
    t := Next(s, "day", Reads(LATE));
    assert s.store.rewards[0] in s.store.rewards && s.store.rewards[1] in s.store.rewards;
    assert t.plan == [DONE_1] + [SECOND_1, DONE_2, FIRST_2];
    steps, t := DoInsert(steps, t, DONE_1, [SECOND_1, DONE_2, FIRST_2]);
    assert t.plan == [SECOND_1] + [DONE_2, FIRST_2];
    steps, t := DoInsert(steps, t, SECOND_1, [DONE_2, FIRST_2]);
    assert t.store == s.store && t.plan == [DONE_2] + [FIRST_2];
    steps, t := NewPlayerIsPaid(steps, t);
  }

  lemma NewPlayerIsPaid(before: seq<Step>, s: State) returns (steps: seq<Step>, t: State)
    requires Reaches(before, s) && s.plan == [DONE_2] + [FIRST_2]
    requires s.store == PLAYERS.(rewards := [RowFor(DONE_1), RowFor(FIRST_1)])
    ensures Reaches(steps, t) && t.plan == [] && t.clean == s.clean && t.board == s.board
    ensures t.store.rewards == [RowFor(DONE_1), RowFor(FIRST_1), RowFor(DONE_2), RowFor(FIRST_2)]
  {
    steps, t := DoInsert(before, s, DONE_2, [FIRST_2]);
    assert t.store.rewards == [RowFor(DONE_1), RowFor(FIRST_1), RowFor(DONE_2)] && t.plan == [FIRST_2] + [];
    steps, t := DoInsert(steps, t, FIRST_2, []);
  }
}
