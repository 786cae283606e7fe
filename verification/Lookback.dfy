/** The lookback of the daily pass against the skew of the clocks and the time a request takes (config/config.go). */
module Lookback {
  import opened Calendar
  import opened Partitions
  import opened Rollups
  import opened RollupRuns
  import opened RollupHistory

  // ----- a pass nobody disturbs -----

  /** The step is one of the job's own. */
  predicate OfTheJob(step: Step) {
    step.JobSteps? || step.Drops?
  }

  ghost predicate AllOfTheJob(steps: seq<Step>) {
    forall step :: step in steps ==> OfTheJob(step)
  }

  lemma RunCons<R>(f: seq<Event> -> R, w: World<R>, step: Step, rest: seq<Step>)
    ensures Run(f, w, [step] + rest) == Run(f, Next(f, w, step), rest)
    ensures TimelyRun(f, w, [step] + rest) <==>
      Punctual(w, step) && InTime(w, step) && TimelyRun(f, Next(f, w, step), rest)
  {
    assert ([step] + rest)[0] == step && ([step] + rest)[1..] == rest;
  }

  lemma {:induction false} RunAppend<R>(f: seq<Event> -> R, w: World<R>, a: seq<Step>, b: seq<Step>)
    ensures Run(f, w, a + b) == Run(f, Run(f, w, a), b)
    ensures TimelyRun(f, w, a + b) <==> TimelyRun(f, w, a) && TimelyRun(f, Run(f, w, a), b)
    decreases |a|
  {
    if a == [] {
      assert a + b == b;
    } else {
      assert (a + b)[0] == a[0] && (a + b)[1..] == a[1..] + b;
      RunAppend(f, Next(f, w, a[0]), a[1..], b);
    }
  }

  lemma {:induction false} RollupDaysFront<R>(f: seq<Event> -> R, db: Db<R>, from: int, n: nat)
    ensures RollupDays(f, RollupDay(f, db, from), from + 1, n) == RollupDays(f, db, from, n + 1)
  {
    if n == 0 {
      assert RollupDays(f, db, from, 0) == db;
    } else {
      RollupDaysFront(f, db, from, n - 1);
    }
  }

  lemma {:induction false} SelectBoth(evs: seq<Event>, p: Event -> bool, q: Event -> bool)
    ensures Select(Select(evs, p), q) == Select(evs, (e: Event) => p(e) && q(e))
  {
    if evs == [] {
    } else {
      var n := |evs| - 1;
      SelectBoth(evs[..n], p, q);
      if p(evs[n]) {
        SelectAppend(Select(evs[..n], p), evs[n], q);
      }
    }
  }

  /** Dropping one expired partition, then the rest, drops them all. */
  lemma DropOneFirst<R>(db: Db<R>, cutoff: int, m: int)
    requires m in Expired(db.partitions, cutoff)
    ensures DropOld(DropMonth(db, m), cutoff) == DropOld(db, cutoff)
    ensures Expired(DropMonth(db, m).partitions, cutoff) == Expired(db.partitions, cutoff) - {m}
  {
    var all, rest := Expired(db.partitions, cutoff), Expired(db.partitions - {m}, cutoff);
    assert rest == all - {m};
    var p, q := (e: Event) => MonthOf(e.ts) != m, (e: Event) => MonthOf(e.ts) !in rest;
    SelectBoth(db.events, p, q);
    SelectSame(db.events, (e: Event) => p(e) && q(e), (e: Event) => MonthOf(e.ts) !in all);
    assert db.partitions - {m} - rest == db.partitions - all;
  }

  lemma NothingToDrop<R>(db: Db<R>, cutoff: int)
    requires Expired(db.partitions, cutoff) == {}
    ensures DropOld(db, cutoff).events == db.events && DropOld(db, cutoff) == db
  {
    SelectAll(db.events, (e: Event) => MonthOf(e.ts) !in Expired(db.partitions, cutoff));
  }

  lemma {:induction false} SelectAll(evs: seq<Event>, p: Event -> bool)
    requires forall e :: p(e)
    ensures Select(evs, p) == evs
  {
    if evs == [] {
    } else {
      SelectAll(evs[..|evs| - 1], p);
    }
  }

  lemma FlagsTheDay<R>(f: seq<Event> -> R, w: World<R>) returns (steps: seq<Step>)
    requires w.job.Dropping? && !HasExpired(w)
    ensures AllOfTheJob(steps) && TimelyRun(f, w, steps)
    ensures Run(f, w, steps) == w.(flags := w.flags + {Today(w)}, job := Idle)
  {
    var v := w.(job := Flagging);
    assert Run(f, Next(f, v, JobSteps), []) == Next(f, v, JobSteps);
    RunCons(f, v, JobSteps, []);
    RunCons(f, w, JobSteps, [JobSteps] + []);
    steps := [JobSteps] + ([JobSteps] + []);
  }

  /** The drops, one by one, and the flag. */
  lemma {:induction false} UndisturbedDrops<R>(f: seq<Event> -> R, w: World<R>) returns (steps: seq<Step>)
    requires w.job.Dropping?
    ensures AllOfTheJob(steps) && TimelyRun(f, w, steps)
    ensures Run(f, w, steps) ==
      w.(db := DropOld(w.db, AddMonths(w.tick, -RETENTION_MONTHS)), flags := w.flags + {Today(w)}, job := Idle)
    decreases ToDrop(w)
  {
    var cutoff := AddMonths(w.tick, -RETENTION_MONTHS);
    if HasExpired(w) {
      var m :| m in ToDrop(w);
      var v := w.(db := DropMonth(w.db, m));
      DropOneFirst(w.db, cutoff, m);
      var rest := UndisturbedDrops(f, v);
      RunCons(f, w, Drops(m), rest);
      steps := [Drops(m)] + rest;
    } else {
      NothingToDrop(w.db, cutoff);
      steps := FlagsTheDay(f, w);
    }
  }

  lemma OneDayOfThePass<R>(f: seq<Event> -> R, db: Db<R>, d: int, i: nat)
    requires i >= 1
    ensures RollupDays(f, db, d, i) ==
      if i > 1 then RollupDays(f, RollupDay(f, db, d), d + 1, i - 1) else RollupDay(f, db, d)
  {
    RollupDaysFront(f, db, d, i - 1);
    assert RollupDays(f, RollupDay(f, db, d), d + 1, 0) == RollupDay(f, db, d);
  }

  lemma RebuildFirst<R>(f: seq<Event> -> R, w: World<R>, i: nat, start: seq<Event>, rest: seq<Step>)
    returns (steps: seq<Step>)
    requires w.job == Rebuilding(i, start) && Today(w) <= w.reached + 1
    requires AllOfTheJob(rest) && TimelyRun(f, RebuildNext(f, w, i, start), rest)
    ensures AllOfTheJob(steps) && TimelyRun(f, w, steps)
    ensures Run(f, w, steps) == Run(f, RebuildNext(f, w, i, start), rest)
  {
    assert Next(f, w, JobSteps) == RebuildNext(f, w, i, start);
    RunCons(f, w, JobSteps, rest);
    steps := [JobSteps] + rest;
  }

  /** Where the rebuilds of a pass end: its days are rebuilt, and the drops come next. */
  ghost predicate Rebuilt<R>(f: seq<Event> -> R, w: World<R>, i: nat, start: seq<Event>, v: World<R>) {
    v == w.(db := RollupDays(f, w.db, Today(w) - i, i), job := Dropping, lastPass := Today(w), counted := start,
            reached := if w.reached < Today(w) then Today(w) else w.reached, seen := v.seen)
  }

  lemma OneRebuildMore<R>(f: seq<Event> -> R, w: World<R>, i: nat, start: seq<Event>, v: World<R>)
    requires w.job == Rebuilding(i, start) && i >= 1
    requires var t := RebuildNext(f, w, i, start); if i > 1 then Rebuilt(f, t, i - 1, start, v) else v == t
    ensures Rebuilt(f, w, i, start, v)
  {
    OneDayOfThePass(f, w.db, Today(w) - i, i);
  }

  /** The rebuilt days, oldest first, with nothing in between. */
  lemma {:induction false} UndisturbedRebuilds<R>(f: seq<Event> -> R, w: World<R>, i: nat, start: seq<Event>)
    returns (steps: seq<Step>, v: World<R>)
    requires w.job == Rebuilding(i, start) && i >= 1 && Today(w) <= w.reached + 1
    ensures AllOfTheJob(steps) && TimelyRun(f, w, steps) && Run(f, w, steps) == v
    ensures Rebuilt(f, w, i, start, v)
    decreases i
  {
    var t := RebuildNext(f, w, i, start);
    if i > 1 {
      steps, v := UndisturbedRebuilds(f, t, i - 1, start);
    } else {
      steps, v := [], t;
    }
    OneRebuildMore(f, w, i, start, v);
    steps := RebuildFirst(f, w, i, start, steps);
  }

  /** A pass with nothing in between does what the service's method does. */
  lemma UndisturbedPass<R>(f: seq<Event> -> R, w: World<R>, start: seq<Event>)
    returns (steps: seq<Step>, v: World<R>)
    requires w.job == Rebuilding(LOOKBACK_DAYS, start) && Today(w) <= w.reached + 1
    ensures AllOfTheJob(steps) && TimelyRun(f, w, steps) && Run(f, w, steps) == v
    ensures v.db == DailyPass(f, w.db, w.tick, LOOKBACK_DAYS)
    ensures v.flags == w.flags + {Today(w)} && v.job == Idle && v.lastPass == Today(w) && v.counted == start
    ensures v.reached == if w.reached < Today(w) then Today(w) else w.reached
    ensures v.requests == w.requests && v.history == w.history
    ensures v.now == w.now && v.tick == w.tick && v.made == w.made
  {
    var first, mid := UndisturbedRebuilds(f, w, LOOKBACK_DAYS, start);
    var rest := UndisturbedDrops(f, mid);
    RunAppend(f, w, first, rest);
    steps := first + rest;
    v := Run(f, mid, rest);
  }

  // ----- any lookback -----

  ghost predicate ExactBefore<R>(f: seq<Event> -> R, db: Db<R>, history: seq<Event>, day: int) {
    forall d :: d < day ==> Exact(f, db, history, d)
  }

  /** At time t every finished day is exact, and the raw events are there. */
  ghost predicate CaughtUp<R>(f: seq<Event> -> R, db: Db<R>, history: seq<Event>, t: int) {
    RawKept(db.events, history, Horizon(t)) && ExactBefore(f, db, history, IranDay(t))
  }

  /** A request stores its batch, and the next pass runs `later` with the given lookback. */
  function StoreThenPass<R>(f: seq<Event> -> R, db: Db<R>, r: Request, later: int, lookback: nat): Db<R> {
    DailyPass(f, InsertBatch(db, r.install, BatchOf(r)), later, lookback)
  }

  lemma RebuiltExactly<R>(f: seq<Event> -> R, db: Db<R>, history: seq<Event>, later: int, lookback: nat, d: int)
    requires RawKept(db.events, history, Horizon(later)) && lookback <= 160 && d < IranDay(later)
    ensures var r := RollupDays(f, db, IranDay(later) - lookback, lookback);
      Exact(f, r, history, d) <==> IranDay(later) - lookback <= d || Exact(f, db, history, d)
  {
    var from := IranDay(later) - lookback;
    RollupDaysEffect(f, db, from, lookback, d);
    if from <= d {
      DayStartBounds(later, lookback);
      assert DayStart(d) >= Horizon(later);
      AgreeLater(db.events, history, Horizon(later), Horizon(later));
      assert OnDay(db.events, d) == OnDay(history, d);
    }
  }

  /** After a pass a finished day is exact exactly if the pass rebuilt it or it was exact before. */
  lemma PassRebuilds<R>(f: seq<Event> -> R, db: Db<R>, history: seq<Event>, later: int, lookback: nat, d: int)
    requires RawKept(db.events, history, Horizon(later)) && lookback <= 160 && d < IranDay(later)
    ensures Exact(f, DailyPass(f, db, later, lookback), history, d) <==>
      IranDay(later) - lookback <= d || Exact(f, db, history, d)
  {
    RebuiltExactly(f, db, history, later, lookback, d);
    DropKeepsRecent(RollupDays(f, db, IranDay(later) - lookback, lookback), later);
  }

  lemma StoreKeepsRaw<R>(db: Db<R>, history: seq<Event>, r: Request, t: int, later: int)
    requires RawKept(db.events, history, Horizon(t)) && t <= later
    ensures RawKept(InsertBatch(db, r.install, BatchOf(r)).events, Logged(db, history, BatchOf(r)), Horizon(later))
  {
    AgreeLater(db.events, history, Horizon(t), Horizon(later));
    InsertKeepsAgreement(db.events, history, Horizon(later), BatchOf(r));
  }

  /** Days before those the clock lets in stay exact. */
  lemma StoreKeepsEarlierDays<R>(f: seq<Event> -> R, db: Db<R>, history: seq<Event>, r: Request, d: int)
    requires Exact(f, db, history, d) && d < IranDay(Oldest(r.clock))
    ensures Exact(f, InsertBatch(db, r.install, BatchOf(r)), Logged(db, history, BatchOf(r)), d)
  {
    IranDayIsItsInterval(Oldest(r.clock), IranDay(Oldest(r.clock)));
    forall e | e in BatchOf(r)
      ensures e.ts >= DayStart(d + 1)
    {
      AcceptedReachesBack(r.inputs, r.install, r.clock, e);
    }
    InsertLeavesEarlierDays(history, BatchOf(r), d);
  }

  /** Enough lookback: no batch can leave a finished day behind. */
  lemma LookbackSuffices<R>(f: seq<Event> -> R, db: Db<R>, history: seq<Event>, t: int, r: Request, later: int,
                            lookback: nat)
    requires CaughtUp(f, db, history, t) && r.clock <= t <= later && lookback <= 160
    requires IranDay(later) - IranDay(r.clock) + Reach(r.clock) <= lookback
    ensures ExactBefore(f, StoreThenPass(f, db, r, later, lookback), Logged(db, history, BatchOf(r)), IranDay(later))
  {
    var stored, logged := InsertBatch(db, r.install, BatchOf(r)), Logged(db, history, BatchOf(r));
    StoreKeepsRaw(db, history, r, t, later);
    ReachExactly(r.clock);
    DaysAreMonotone(r.clock, t);
    forall d | d < IranDay(later)
      ensures Exact(f, StoreThenPass(f, db, r, later, lookback), logged, d)
    {
      PassRebuilds(f, stored, logged, later, lookback, d);
      if d < IranDay(later) - lookback {
        StoreKeepsEarlierDays(f, db, history, r, d);
      }
    }
  }

  ghost predicate NoBatchIsLost<R>(f: seq<Event> -> R, db: Db<R>, history: seq<Event>, clock: int, later: int,
                                   lookback: nat) {
    forall install: int, inputs: seq<Input> ::
      var r := Request(clock, install, inputs);
      ExactBefore(f, StoreThenPass(f, db, r, later, lookback), Logged(db, history, BatchOf(r)), IranDay(later))
  }

  /** Too little: an event as old as the clock lets in is stored for a day the next pass no longer rebuilds. */
  lemma ShortLookbackLosesEvents<R>(f: seq<Event> -> R, db: Db<R>, history: seq<Event>, t: int, clock: int, later: int,
                                    lookback: nat) returns (r: Request)
    requires CaughtUp(f, db, history, t) && MAX_PAST_SKEW < clock <= t <= later && lookback <= 160
    requires IranDay(later) - IranDay(clock) + Reach(clock) > lookback
    requires MonthOf(Oldest(clock)) in db.partitions && CountsEvents(f)
    ensures r.clock == clock
    ensures !Exact(f, StoreThenPass(f, db, r, later, lookback), Logged(db, history, BatchOf(r)),
                   IranDay(Oldest(clock)))
  {
    var w: World<R> := Launch(t).(db := db, history := history);
    var d := IranDay(Oldest(clock));
    r := Request(clock, 0, [OldestEvent(w.history, clock)]);
    OldestEventIsStored(f, w, clock);
    ReachExactly(clock);
    DaysAreMonotone(clock, t);
    DaysAreMonotone(t, later);
    assert Exact(f, db, history, d);
    StoreKeepsRaw(db, history, r, t, later);
    PassRebuilds(f, InsertBatch(db, r.install, BatchOf(r)), Logged(db, history, BatchOf(r)), later, lookback, d);
  }

  /**
   * The lookback, exactly: no batch is lost if and only if the lookback covers the seven days in reach (six in the
   * last part of a millisecond of a day) plus the days from the request's clock to the next pass. So eight days serve
   * a pass every day for batches stored before it; they survive neither a skipped day nor a request that takes longer.
   */
  lemma LookbackIsExact<R>(f: seq<Event> -> R, db: Db<R>, history: seq<Event>, t: int, clock: int, later: int,
                           lookback: nat)
    requires CaughtUp(f, db, history, t) && MAX_PAST_SKEW < clock <= t <= later && lookback <= 160
    requires MonthOf(Oldest(clock)) in db.partitions && CountsEvents(f)
    ensures NoBatchIsLost(f, db, history, clock, later, lookback) <==>
      IranDay(later) - IranDay(clock) + Reach(clock) <= lookback
  {
    if IranDay(later) - IranDay(clock) + Reach(clock) <= lookback {
      forall install: int, inputs: seq<Input>
        ensures var r := Request(clock, install, inputs);
          ExactBefore(f, StoreThenPass(f, db, r, later, lookback), Logged(db, history, BatchOf(r)), IranDay(later))
      {
        LookbackSuffices(f, db, history, t, Request(clock, install, inputs), later, lookback);
      }
    } else {
      var r := ShortLookbackLosesEvents(f, db, history, t, clock, later, lookback);
      assert r == Request(clock, r.install, r.inputs);
      ReachExactly(clock);
      DaysAreMonotone(clock, later);
      assert !ExactBefore(f, StoreThenPass(f, db, r, later, lookback), Logged(db, history, BatchOf(r)), IranDay(later));
    }
  }

  // ----- a slow request -----

  /** One job step more in front of a run. */
  lemma JobStepFirst<R>(f: seq<Event> -> R, w: World<R>, rest: seq<Step>) returns (steps: seq<Step>)
    requires TimelyRun(f, JobNext(f, w), rest) && !w.job.Rebuilding?
    ensures TimelyRun(f, w, steps) && Run(f, w, steps) == Run(f, JobNext(f, w), rest)
  {
    RunCons(f, w, JobSteps, rest);
    steps := [JobSteps] + rest;
  }

  lemma MakesMonths<R>(f: seq<Event> -> R, w: World<R>) returns (v: World<R>)
    requires w.job == Making(0, true)
    ensures v == JobNext(f, JobNext(f, JobNext(f, w)))
    ensures JobNext(f, w).job.Making? && JobNext(f, JobNext(f, w)).job.Making?
    ensures v == w.(db := EnsurePartitions(w.db, w.tick), job := Refreshing(0), made := w.tick)
  {
    v := JobNext(f, JobNext(f, JobNext(f, w)));
    assert v.db.partitions == EnsurePartitions(w.db, w.tick).partitions;
  }

  lemma RefreshesAndChecks<R>(f: seq<Event> -> R, w: World<R>) returns (steps: seq<Step>, v: World<R>)
    requires w.job == Refreshing(0) && Today(w) !in w.flags
    ensures TimelyRun(f, w, steps) && Run(f, w, steps) == v
    ensures v.job == Rebuilding(LOOKBACK_DAYS, w.history) && v.tick == w.tick && v.now == w.now
    ensures v.reached == w.reached && v.requests == w.requests && v.history == w.history && v.flags == w.flags
    ensures v.db.partitions == w.db.partitions
  {
    var t1 := JobNext(f, w);
    var t2 := JobNext(f, t1);
    v := JobNext(f, t2);
    assert Run(f, v, []) == v;
    steps := JobStepFirst(f, t2, []);
    steps := JobStepFirst(f, t1, steps);
    steps := JobStepFirst(f, w, steps);
  }

  /** The job up to the point where the pass begins. */
  lemma BeforeThePass<R>(f: seq<Event> -> R, w: World<R>) returns (steps: seq<Step>, v: World<R>)
    requires w.job.Idle? && IranDay(w.now) !in w.flags
    ensures TimelyRun(f, w, steps) && Run(f, w, steps) == v
    ensures v.job == Rebuilding(LOOKBACK_DAYS, w.history) && v.tick == w.now && v.now == w.now
    ensures v.reached == w.reached && v.requests == w.requests && v.history == w.history && v.flags == w.flags
    ensures {MonthOf(w.now) - 1, MonthOf(w.now), MonthOf(w.now) + 1} <= v.db.partitions
  {
    var t0 := Next(f, w, Ticks(true));
    var t3 := MakesMonths(f, t0);
    steps, v := RefreshesAndChecks(f, t3);
    steps := JobStepFirst(f, JobNext(f, JobNext(f, t0)), steps);
    steps := JobStepFirst(f, JobNext(f, t0), steps);
    steps := JobStepFirst(f, t0, steps);
    RunCons(f, w, Ticks(true), steps);
    steps := [Ticks(true)] + steps;
  }

  /** The whole job of one tick, with nothing in between. */
  lemma WholeJob<R>(f: seq<Event> -> R, w: World<R>) returns (steps: seq<Step>, v: World<R>)
    requires w.job.Idle? && IranDay(w.now) !in w.flags && IranDay(w.now) == w.reached + 1
    ensures TimelyRun(f, w, steps) && Run(f, w, steps) == v
    ensures v.job.Idle? && v.now == w.now && v.reached == IranDay(w.now) && IranDay(w.now) in v.flags
    ensures v.requests == w.requests && v.history == w.history
    ensures MonthOf(w.now) - 1 in v.db.partitions && MonthOf(w.now) in v.db.partitions
  {
    var first, mid := BeforeThePass(f, w);
    var rest;
    rest, v := UndisturbedPass(f, mid, w.history);
    RunAppend(f, w, first, rest);
    steps := first + rest;
    PassKeepsRecentMonths(f, mid.db, w.now);
  }

  lemma PassKeepsRecentMonths<R>(f: seq<Event> -> R, db: Db<R>, now: int)
    requires MonthOf(now) - 1 in db.partitions && MonthOf(now) in db.partitions
    ensures var r := DailyPass(f, db, now, LOOKBACK_DAYS);
      MonthOf(now) - 1 in r.partitions && MonthOf(now) in r.partitions
  {
    RollupDaysEffect(f, db, IranDay(now) - LOOKBACK_DAYS, LOOKBACK_DAYS, 0);
    SixMonthsBack(now);
    MonthLength(MonthOf(now) - 1);
  }

  lemma MonthOfTheOldest(clock: int, now: int)
    requires clock <= now < clock + 2 * DAY
    ensures MonthOf(Oldest(clock)) == MonthOf(now) - 1 || MonthOf(Oldest(clock)) == MonthOf(now)
  {
    OldestBounds(clock);
    var m, k := MonthOf(now), MonthOf(Oldest(clock));
    MonthLength(m - 1);
    MonthsAreMonotone(Oldest(clock), now);
    if k < m - 1 {
      MonthsAreApart(k + 1, m - 1);
    }
  }

  /** No later run, punctual or not, counts all events of day d. */
  ghost predicate NeverExact<R>(f: seq<Event> -> R, w: World<R>, d: int) {
    forall more :: !ExactIn(f, Run(f, w, more), d)
  }

  /**
   * A request that reads its clock on one Iran day and commits on the next, after that day's pass: every pass is
   * punctual, and the event it stores is counted by no pass of any later run.
   */
  lemma SlowRequestIsLost<R>(f: seq<Event> -> R, w: World<R>, id: int, mid: int)
    returns (steps: seq<Step>, v: World<R>)
    requires Inv(f, w) && Settled(f, w) && CountsEvents(f) && w.job.Idle? && id !in w.requests
    requires w.reached == IranDay(w.now) && w.now > MAX_PAST_SKEW && Reach(w.now) == 7
    requires w.now <= mid && IranDay(mid) == IranDay(w.now) + 1 && IranDay(mid) !in w.flags
    ensures TimelyRun(f, w, steps) && Run(f, w, steps) == v
    ensures id in v.requests && v.requests[id].clock == w.now
    ensures NeverExact(f, Next(f, v, Stores(id)), IranDay(w.now) - 7)
  {
    var r := Request(w.now, 0, [OldestEvent(w.history, w.now)]);
    steps, v := ReadsThenPass(f, w, id, r, mid);
    StillSettled(f, w, steps, v);
    SlowStoreIsLost(f, v, id, w.now);
  }

  lemma StillSettled<R>(f: seq<Event> -> R, w: World<R>, steps: seq<Step>, v: World<R>)
    requires Inv(f, w) && Settled(f, w) && TimelyRun(f, w, steps) && Run(f, w, steps) == v
    ensures Inv(f, v) && Settled(f, v)
  {
    TimelyRunsStaySettled(f, w, steps);
  }

  /** A request reads its clock, and the next day's job runs before the request goes on. */
  lemma ReadsThenPass<R>(f: seq<Event> -> R, w: World<R>, id: int, r: Request, mid: int)
    returns (steps: seq<Step>, v: World<R>)
    requires w.job.Idle? && id !in w.requests && r == Request(w.now, 0, [OldestEvent(w.history, w.now)])
    requires w.reached == IranDay(w.now) && w.now > MAX_PAST_SKEW && Reach(w.now) == 7
    requires w.now <= mid && IranDay(mid) == IranDay(w.now) + 1 && IranDay(mid) !in w.flags
    ensures TimelyRun(f, w, steps) && Run(f, w, steps) == v
    ensures IsLate(v, id, w.now)
  {
    var w1 := w.(requests := w.requests[id := r]);
    var rest;
    rest, v := WholeJob(f, w1.(now := mid));
    RunCons(f, w1, Advance(mid), rest);
    RunCons(f, w, Reads(id, r.install, r.inputs), [Advance(mid)] + rest);
    steps := [Reads(id, r.install, r.inputs)] + ([Advance(mid)] + rest);
  }

  /** The next day's pass is over, and a request still holds the oldest event its clock lets in. */
  ghost predicate IsLate<R>(w: World<R>, id: int, clock: int) {
    && w.job.Idle?
    && w.reached == IranDay(w.now) == IranDay(clock) + 1 && w.reached in w.flags && clock <= w.now
    && clock > MAX_PAST_SKEW && IranDay(Oldest(clock)) == IranDay(clock) - 7
    && MonthOf(w.now) - 1 in w.db.partitions && MonthOf(w.now) in w.db.partitions
    && id in w.requests && w.requests[id] == Request(clock, 0, [OldestEvent(w.history, clock)])
  }

  lemma SlowStoreIsLost<R>(f: seq<Event> -> R, w: World<R>, id: int, clock: int)
    requires Inv(f, w) && Settled(f, w) && CountsEvents(f) && IsLate(w, id, clock)
    ensures NeverExact(f, Next(f, w, Stores(id)), IranDay(clock) - 7)
  {
    var d, v := IranDay(clock) - 7, Next(f, w, Stores(id));
    StoredUncounted(f, w, id, clock, d);
    StepKeepsInv(f, w, Stores(id));
    forall more
      ensures !ExactIn(f, Run(f, v, more), d)
    {
      LateEventIsNeverCounted(f, v, more, w.reached, d);
    }
  }

  lemma StoredUncounted<R>(f: seq<Event> -> R, w: World<R>, id: int, clock: int, d: int)
    requires Inv(f, w) && Settled(f, w) && CountsEvents(f) && d == IranDay(Oldest(clock)) < Floor(w)
    requires clock > MAX_PAST_SKEW && clock <= w.now < clock + 2 * DAY
    requires MonthOf(w.now) - 1 in w.db.partitions && MonthOf(w.now) in w.db.partitions
    requires id in w.requests && w.requests[id] == Request(clock, 0, [OldestEvent(w.history, clock)])
    ensures StoredSince(Next(f, w, Stores(id)), d)
  {
    MonthOfTheOldest(clock, w.now);
    OldestEventIsStored(f, w, clock);
    assert ExactIn(f, w, d);
    StepKeepsInv(f, w, Stores(id));
    DayIsExactExactly(f, Next(f, w, Stores(id)), d);
  }
}
