/** When the daily rows equal history, and which batches are stored too late (service/analytics.go). */
module RollupHistory {
  import opened Calendar
  import opened Partitions
  import opened Rollups
  import opened RollupRuns

  // ----- any run -----

  ghost predicate ExactIn<R>(f: seq<Event> -> R, w: World<R>, d: int) {
    Exact(f, w.db, w.history, d)
  }

  /** An event of day d was stored after the day was last rebuilt. */
  ghost predicate StoredSince<R>(w: World<R>, d: int) {
    OnDay(SeenOf(w.seen, d), d) != OnDay(w.history, d)
  }

  /** In every run a day's rows equal a recomputation over history exactly if no event of that day came in since. */
  lemma DayIsExactExactly<R>(f: seq<Event> -> R, w: World<R>, d: int)
    requires Inv(f, w) && CountsEvents(f)
    ensures ExactIn(f, w, d) <==> !StoredSince(w, d)
  {
    assert CountsSeen(f, w, d);
    OnDayExtends(SeenOf(w.seen, d), w.history, d);
    var before, all := OnDay(SeenOf(w.seen, d), d), OnDay(w.history, d);
    assert all == before + all[|before|..];
  }

  // ----- runs in time -----

  /** The first day a later pass may still count: the last pass that began has passed every day before. */
  function Floor<R>(w: World<R>): int {
    w.reached - 7
  }

  /** No day goes without a pass that begins. */
  predicate Punctual<R>(w: World<R>, step: Step) {
    step.JobSteps? && w.job.Rebuilding? ==> Today(w) <= w.reached + 1
  }

  /** A batch is stored while every event its clock lets in can still be counted. */
  predicate InTime<R>(w: World<R>, step: Step) {
    step.Stores? && step.id in w.requests ==> Floor(w) <= IranDay(Oldest(w.requests[step.id].clock))
  }

  ghost predicate TimelyRun<R>(f: seq<Event> -> R, w: World<R>, steps: seq<Step>)
    decreases |steps|
  {
    steps != [] ==> Punctual(w, steps[0]) && InTime(w, steps[0]) && TimelyRun(f, Next(f, w, steps[0]), steps[1..])
  }

  /** Every day no later pass will rebuild has the rows of all its events. */
  ghost predicate Settled<R>(f: seq<Event> -> R, w: World<R>) {
    forall d :: d < Floor(w) ==> ExactIn(f, w, d)
  }

  /** A batch clamped at r changes no day before the oldest its clock lets in. */
  lemma StoreLeavesEarlierDays<R>(f: seq<Event> -> R, w: World<R>, r: Request, d: int)
    requires d < IranDay(Oldest(r.clock))
    ensures ExactIn(f, Store(w, r), d) <==> ExactIn(f, w, d)
  {
    if Fits(w.db.partitions, BatchOf(r)) {
      IranDayIsItsInterval(Oldest(r.clock), IranDay(Oldest(r.clock)));
      forall e | e in BatchOf(r)
        ensures e.ts >= DayStart(d + 1)
      {
        AcceptedReachesBack(r.inputs, r.install, r.clock, e);
      }
      InsertLeavesEarlierDays(w.history, BatchOf(r), d);
    }
  }

  lemma StoreKeepsSettled<R>(f: seq<Event> -> R, w: World<R>, r: Request)
    requires Settled(f, w) && Floor(w) <= IranDay(Oldest(r.clock))
    ensures Settled(f, Store(w, r))
  {
    forall d | d < Floor(w)
      ensures ExactIn(f, Store(w, r), d)
    {
      StoreLeavesEarlierDays(f, w, r, d);
      assert ExactIn(f, w, d);
    }
  }

  lemma RebuildKeepsSettled<R>(f: seq<Event> -> R, w: World<R>, x: int)
    requires Inv(f, w) && Settled(f, w) && x >= Today(w) - LOOKBACK_DAYS
    ensures Settled(f, Rebuild(f, w, x)) && ExactIn(f, Rebuild(f, w, x), x)
  {
    RebuildIsExact(f, w, x);
    forall d | d < Floor(w)
      ensures ExactIn(f, Rebuild(f, w, x), d)
    {
      assert ExactIn(f, w, d);
    }
  }

  /** The first day of a punctual pass is the one that no later pass will reach. */
  lemma RebuildNextKeepsSettled<R>(f: seq<Event> -> R, w: World<R>)
    requires Inv(f, w) && Settled(f, w) && w.job.Rebuilding? && Today(w) <= w.reached + 1
    ensures Settled(f, RebuildNext(f, w, w.job.i, w.job.start))
  {
    var v, t := Rebuild(f, w, Today(w) - w.job.i), RebuildNext(f, w, w.job.i, w.job.start);
    RebuildKeepsSettled(f, w, Today(w) - w.job.i);
    forall d | d < Floor(t)
      ensures ExactIn(f, t, d)
    {
      assert d < Floor(w) ==> ExactIn(f, v, d);
    }
  }

  lemma SameRowsKeepSettled<R>(f: seq<Event> -> R, w: World<R>, v: World<R>)
    requires Settled(f, w) && v.db.rollups == w.db.rollups && v.history == w.history && v.reached == w.reached
    ensures Settled(f, v)
  {
    assert forall d :: ExactIn(f, v, d) <==> ExactIn(f, w, d);
  }

  lemma JobStepKeepsSettled<R>(f: seq<Event> -> R, w: World<R>)
    requires Inv(f, w) && Settled(f, w) && Punctual(w, JobSteps)
    ensures Settled(f, JobNext(f, w))
  {
    if w.job.Rebuilding? {
      RebuildNextKeepsSettled(f, w);
    } else if w.job.Refreshing? {
      RebuildKeepsSettled(f, w, Today(w) - 1 + w.job.i);
      SameRowsKeepSettled(f, Rebuild(f, w, Today(w) - 1 + w.job.i), JobNext(f, w));
    } else {
      SameRowsKeepSettled(f, w, JobNext(f, w));
    }
  }

  lemma StepKeepsSettled<R>(f: seq<Event> -> R, w: World<R>, step: Step)
    requires Inv(f, w) && Settled(f, w) && Punctual(w, step) && InTime(w, step)
    ensures Settled(f, Next(f, w, step))
  {
    if step.JobSteps? {
      JobStepKeepsSettled(f, w);
    } else if step.Stores? && step.id in w.requests {
      StoreKeepsSettled(f, w, w.requests[step.id]);
      SameRowsKeepSettled(f, Store(w, w.requests[step.id]), Next(f, w, step));
    } else {
      SameRowsKeepSettled(f, w, Next(f, w, step));
    }
  }

  lemma {:induction false} TimelyRunsStaySettled<R>(f: seq<Event> -> R, w: World<R>, steps: seq<Step>)
    requires Inv(f, w) && Settled(f, w) && TimelyRun(f, w, steps)
    ensures Inv(f, Run(f, w, steps)) && Settled(f, Run(f, w, steps))
    decreases |steps|
  {
    if steps == [] {
    } else {
      StepKeepsInv(f, w, steps[0]);
      StepKeepsSettled(f, w, steps[0]);
      TimelyRunsStaySettled(f, Next(f, w, steps[0]), steps[1..]);
    }
  }

  /** The rows of day d count all events stored before the last full pass began, and maybe some stored since. */
  ghost predicate CountsThePassed<R>(f: seq<Event> -> R, w: World<R>, d: int) {
    exists h :: w.counted <= h <= w.history && RowsOf(f, w.db, d) == Recompute(f, h, d)
  }

  /** After a pass, whatever was stored while it was at work. */
  lemma PassCatchesUp<R>(f: seq<Event> -> R, w: World<R>, d: int)
    requires Inv(f, w) && Settled(f, w) && d < w.lastPass
    ensures CountsThePassed(f, w, d)
    ensures w.counted == w.history ==> ExactIn(f, w, d)
  {
    assert CountsSeen(f, w, w.lastPass - 1) && CountsSeen(f, w, d);
    if d < w.lastPass - LOOKBACK_DAYS {
      assert w.counted <= w.history by {
        assert w.counted <= SeenOf(w.seen, w.lastPass - 1);
      }
      assert ExactIn(f, w, d);
    } else {
      var h := SeenOf(w.seen, d);
      assert w.counted <= h <= w.history;
      assert w.counted == w.history ==> h == w.history;
    }
  }

  /**
   * Rollups equal history. In every run from the launch in which each day's pass begins and each batch is stored in
   * time: the days no later pass will reach have the rows of all events ever stored; the rows of every finished day
   * count all that was stored before the last full pass began; and they equal a recomputation over all of history if
   * nothing was stored since.
   */
  lemma RollupsEqualHistory<R>(f: seq<Event> -> R, start: int, steps: seq<Step>, d: int)
    requires TimelyRun(f, Launch(start), steps)
    ensures var w := Run(f, Launch(start), steps);
      && (d < Floor(w) ==> RowsOf(f, w.db, d) == Recompute(f, w.history, d))
      && (d < w.lastPass ==> CountsThePassed(f, w, d))
      && (d < w.lastPass && w.counted == w.history ==> RowsOf(f, w.db, d) == Recompute(f, w.history, d))
  {
    var w0: World<R> := Launch(start);
    LaunchHasInv(f, start);
    assert Settled(f, w0) by {
      assert forall x :: ExactIn(f, w0, x);
    }
    TimelyRunsStaySettled(f, w0, steps);
    var w := Run(f, w0, steps);
    assert d < Floor(w) ==> ExactIn(f, w, d);
    if d < w.lastPass {
      PassCatchesUp(f, w, d);
    }
  }

  // ----- a guard that is enough -----

  /** Every batch is stored on the Iran day its clock was read. */
  predicate OnItsDay<R>(w: World<R>, step: Step) {
    step.Stores? && step.id in w.requests ==> IranDay(w.requests[step.id].clock) == IranDay(w.now)
  }

  ghost predicate PromptRun<R>(f: seq<Event> -> R, w: World<R>, steps: seq<Step>)
    decreases |steps|
  {
    steps != [] ==> Punctual(w, steps[0]) && OnItsDay(w, steps[0]) && PromptRun(f, Next(f, w, steps[0]), steps[1..])
  }

  lemma {:induction false} PromptRunsAreTimely<R>(f: seq<Event> -> R, w: World<R>, steps: seq<Step>)
    requires Inv(f, w) && PromptRun(f, w, steps)
    ensures TimelyRun(f, w, steps)
    decreases |steps|
  {
    if steps == [] {
    } else {
      if steps[0].Stores? && steps[0].id in w.requests {
        ReachExactly(w.requests[steps[0].id].clock);
        DaysAreMonotone(w.tick, w.now);
      }
      StepKeepsInv(f, w, steps[0]);
      PromptRunsAreTimely(f, Next(f, w, steps[0]), steps[1..]);
    }
  }

  // ----- stored too late -----

  /** Whatever follows in time, no day that is passed misses an event. */
  ghost predicate StaysSettled<R>(f: seq<Event> -> R, w: World<R>) {
    forall steps :: TimelyRun(f, w, steps) ==> Settled(f, Run(f, w, steps))
  }

  /** A request with this clock can be stored now, whatever it holds. */
  ghost predicate SafeToStore<R>(f: seq<Event> -> R, w: World<R>, clock: int) {
    forall install: int, inputs: seq<Input> :: StaysSettled(f, Store(w, Request(clock, install, inputs)))
  }

  /** An event no one has stored, as old as the clock lets in. */
  function OldestEvent(history: seq<Event>, clock: int): Input {
    Input(Event(MaxId(history) + 1, 0, "", "app_open", "", 0, 0), Oldest(clock) / 1_000_000, true)
  }

  function MaxId(evs: seq<Event>): int {
    if evs == [] then 0
    else
      var m, i := MaxId(evs[..|evs| - 1]), evs[|evs| - 1].id;
      if i > m then i else m
  }

  lemma {:induction false} MaxIdBounds(evs: seq<Event>, e: Event)
    requires e in evs
    ensures e.id <= MaxId(evs)
  {
    var n := |evs| - 1;
    assert evs == evs[..n] + [evs[n]];
    if e in evs[..n] {
      MaxIdBounds(evs[..n], e);
    }
  }

  lemma NewEventIsAppended(evs: seq<Event>, e: Event, d: int)
    requires e.id > MaxId(evs) && DayStart(d) <= e.ts < DayStart(d + 1)
    ensures InsertAll(evs, [e]) == evs + [e] && OnDay(evs + [e], d) == OnDay(evs, d) + [e]
  {
    assert [e][..0] == [] && InsertAll(evs, []) == evs;
    forall x | x in evs
      ensures x.id != e.id
    {
      MaxIdBounds(evs, x);
    }
    SelectAppend(evs, e, (x: Event) => DayStart(d) <= x.ts < DayStart(d + 1));
  }

  /** It is accepted, stored for the oldest day in reach, and changes no row by itself. */
  lemma OldestEventIsStored<R>(f: seq<Event> -> R, w: World<R>, clock: int)
    requires clock > MAX_PAST_SKEW && MonthOf(Oldest(clock)) in w.db.partitions && CountsEvents(f)
    ensures var d := IranDay(Oldest(clock));
      var v := Store(w, Request(clock, 0, [OldestEvent(w.history, clock)]));
      ExactIn(f, w, d) ==> !ExactIn(f, v, d)
  {
    var i := OldestEvent(w.history, clock);
    var e, d := i.event.(ts := Oldest(clock)), IranDay(Oldest(clock));
    WindowEnds(0, clock);
    OneInput(i, 0, clock);
    IranDayIsItsInterval(e.ts, d);
    NewEventIsAppended(w.history, e, d);
    assert f(OnDay(w.history, d) + [e]) != f(OnDay(w.history, d));
  }

  /**
   * Which batches are in time, exactly. From a state in order, a batch clamped at `clock` and stored now is safe
   * whatever it holds if and only if the oldest day that clock lets in is at most seven days before the day of the
   * last pass that began.
   */
  lemma StoringIsSafeExactly<R>(f: seq<Event> -> R, w: World<R>, clock: int)
    requires Inv(f, w) && Settled(f, w) && CountsEvents(f)
    requires clock > MAX_PAST_SKEW && MonthOf(Oldest(clock)) in w.db.partitions
    ensures SafeToStore(f, w, clock) <==> IranDay(Oldest(clock)) >= w.reached - 7
  {
    if IranDay(Oldest(clock)) >= w.reached - 7 {
      forall install: int, inputs: seq<Input>
        ensures StaysSettled(f, Store(w, Request(clock, install, inputs)))
      {
        var r := Request(clock, install, inputs);
        StoreKeepsInv(f, w, r);
        StoreKeepsSettled(f, w, r);
        forall steps | TimelyRun(f, Store(w, r), steps)
          ensures Settled(f, Run(f, Store(w, r), steps))
        {
          TimelyRunsStaySettled(f, Store(w, r), steps);
        }
      }
    } else {
      var d := IranDay(Oldest(clock));
      var v := Store(w, Request(clock, 0, [OldestEvent(w.history, clock)]));
      OldestEventIsStored(f, w, clock);
      assert ExactIn(f, w, d);
      assert TimelyRun(f, v, []) && Run(f, v, []) == v && d < Floor(v);
      assert !Settled(f, v);
      assert !StaysSettled(f, v);
    }
  }

  /** The pass of day p is done and flagged, and every pass still to come is of a later day. */
  ghost predicate Flagged<R>(w: World<R>, p: int) {
    && p in w.flags && IranDay(w.now) >= p
    && (!w.job.Idle? ==> Today(w) >= p) && (w.job.Rebuilding? ==> Today(w) > p)
  }

  lemma JobLeavesPassedDay<R>(f: seq<Event> -> R, w: World<R>, p: int, d: int)
    requires Ordered(w) && Flagged(w, p) && d < p - 7
    ensures var v := JobNext(f, w);
      Flagged(v, p) && RowsOf(f, v.db, d) == RowsOf(f, w.db, d) && SeenOf(v.seen, d) == SeenOf(w.seen, d)
  {
    match w.job
    case Rebuilding(i, start) => assert Today(w) - i > d;
    case Refreshing(i) => assert Today(w) - 1 + i > d;
    case _ =>
  }

  lemma StepLeavesPassedDay<R>(f: seq<Event> -> R, w: World<R>, step: Step, p: int, d: int)
    requires Ordered(w) && Flagged(w, p) && d < p - 7
    ensures var v := Next(f, w, step);
      Flagged(v, p) && RowsOf(f, v.db, d) == RowsOf(f, w.db, d) && SeenOf(v.seen, d) == SeenOf(w.seen, d)
  {
    if step.JobSteps? {
      JobLeavesPassedDay(f, w, p, d);
    } else if step.Advance? && step.to >= w.now {
      DaysAreMonotone(w.now, step.to);
    }
  }

  lemma HistoryGrows<R>(f: seq<Event> -> R, w: World<R>, step: Step)
    ensures w.history <= Next(f, w, step).history
  {
    if step.Stores? && step.id in w.requests {
      InsertExtends(w.history, BatchOf(w.requests[step.id]));
    }
  }

  /** An event stored for a day that is passed is counted by no pass of any later run, punctual or not. */
  lemma {:induction false} LateEventIsNeverCounted<R>(f: seq<Event> -> R, w: World<R>, steps: seq<Step>, p: int, d: int)
    requires Inv(f, w) && CountsEvents(f) && Flagged(w, p) && d < p - 7 && StoredSince(w, d)
    ensures !ExactIn(f, Run(f, w, steps), d)
    ensures RowsOf(f, Run(f, w, steps).db, d) == RowsOf(f, w.db, d)
    decreases |steps|
  {
    if steps == [] {
      DayIsExactExactly(f, w, d);
    } else {
      var v := Next(f, w, steps[0]);
      StepKeepsInv(f, w, steps[0]);
      StepLeavesPassedDay(f, w, steps[0], p, d);
      HistoryGrows(f, w, steps[0]);
      assert CountsSeen(f, w, d);
      OnDayExtends(SeenOf(w.seen, d), w.history, d);
      OnDayExtends(w.history, v.history, d);
      LateEventIsNeverCounted(f, v, steps[1..], p, d);
    }
  }
}
