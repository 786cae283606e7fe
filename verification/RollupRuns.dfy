/**
 * The rollups over whole runs: ingest requests between their clock and their insert, and the maintenance job
 * statement by statement (service/analytics.go, scheduler/scheduler.go).
 */
module RollupRuns {
  import opened Calendar
  import opened Partitions
  import opened Rollups

  /** An ingest request that has read its clock and still has to store what it accepts. */
  datatype Request = Request(clock: int, install: int, inputs: seq<Input>)

  function BatchOf(r: Request): seq<Event> {
    Accepted(r.inputs, r.install, r.clock)
  }

  /** Where the one maintenance job is; `i` counts as its loops do. `start` is the history when the pass began. */
  datatype Job =
    | Idle
    | Making(i: nat, rollup: bool)
    | Refreshing(i: nat)
    | Checking
    | Rebuilding(i: nat, start: seq<Event>)
    | Dropping
    | Flagging

  /**
   * `tick` is the clock the job was started with. No operation reads the rest: `history` keeps every event ever
   * stored, `seen` what it was when a day was last rebuilt, `reached` is the last day whose pass began to rebuild,
   * `lastPass` the last day whose pass rebuilt all its days, `counted` what history was when that pass began, and
   * `made` the last clock whose partitions were all made.
   */
  datatype World<R> = World(now: int, db: Db<R>, requests: map<int, Request>, job: Job, tick: int, flags: set<int>,
                            history: seq<Event>, seen: map<int, seq<Event>>, reached: int, lastPass: int,
                            counted: seq<Event>, made: int)

  datatype Step =
    | Advance(to: int)
    | Reads(id: int, install: int, inputs: seq<Input>)   // the request reads the clock
    | Stores(id: int)                                    // its transaction commits, or finds no partition
    | Fails(id: int)
    | Ticks(rollup: bool)                                // the scheduler starts the job, unless it is at work
    | JobSteps
    | Drops(month: int)
    | JobFails

  function Store<R>(w: World<R>, r: Request): World<R> {
    w.(db := InsertBatch(w.db, r.install, BatchOf(r)), history := Logged(w.db, w.history, BatchOf(r)))
  }

  /** One day's transaction. */
  function Rebuild<R>(f: seq<Event> -> R, w: World<R>, d: int): World<R> {
    w.(db := RollupDay(f, w.db, d), seen := w.seen[d := w.history])
  }

  /** The day the job's pass is for. */
  function Today<R>(w: World<R>): int {
    IranDay(w.tick)
  }

  function MakeMonth<R>(w: World<R>, i: nat, rollup: bool): World<R> {
    w.(db := w.db.(partitions := w.db.partitions + {MonthOf(w.tick) - 1 + i}),
       job := if i < 2 then Making(i + 1, rollup) else if rollup then Refreshing(0) else Idle,
       made := if i < 2 then w.made else w.tick)
  }

  function RebuildNext<R>(f: seq<Event> -> R, w: World<R>, i: nat, start: seq<Event>): World<R> {
    var v := Rebuild(f, w, Today(w) - i).(reached := if w.reached < Today(w) then Today(w) else w.reached);
    if i > 1 then v.(job := Rebuilding(i - 1, start)) else v.(job := Dropping, lastPass := Today(w), counted := start)
  }

  function JobNext<R>(f: seq<Event> -> R, w: World<R>): World<R> {
    match w.job
    case Idle => w
    case Making(i, rollup) => MakeMonth(w, i, rollup)
    case Refreshing(i) => Rebuild(f, w, Today(w) - 1 + i).(job := if i == 0 then Refreshing(1) else Checking)
    case Checking => w.(job := if Today(w) in w.flags then Idle else Rebuilding(LOOKBACK_DAYS, w.history))
    case Rebuilding(i, start) => RebuildNext(f, w, i, start)
    case Dropping => if HasExpired(w) then w else w.(job := Flagging)
    case Flagging => w.(flags := w.flags + {Today(w)}, job := Idle)
  }

  /** The partitions a pass drops; none is made while it does, so the list does not change but for its own drops. */
  function ToDrop<R>(w: World<R>): set<int> {
    Expired(w.db.partitions, AddMonths(w.tick, -RETENTION_MONTHS))
  }

  predicate HasExpired<R>(w: World<R>) {
    ToDrop(w) != {}
  }

  function Next<R>(f: seq<Event> -> R, w: World<R>, step: Step): World<R> {
    match step
    case Advance(to) => if to >= w.now then w.(now := to) else w
    case Reads(id, install, inputs) =>
      if id in w.requests then w else w.(requests := w.requests[id := Request(w.now, install, inputs)])
    case Stores(id) =>
      if id in w.requests then Store(w, w.requests[id]).(requests := w.requests - {id}) else w
    case Fails(id) => w.(requests := w.requests - {id})
    case Ticks(rollup) => if w.job.Idle? then w.(job := Making(0, rollup), tick := w.now) else w
    case JobSteps => JobNext(f, w)
    case Drops(m) => if w.job.Dropping? && m in ToDrop(w) then w.(db := DropMonth(w.db, m)) else w
    case JobFails => w.(job := Idle)
  }

  function Run<R>(f: seq<Event> -> R, w: World<R>, steps: seq<Step>): World<R>
    decreases |steps|
  {
    if steps == [] then w else Run(f, Next(f, w, steps[0]), steps[1..])
  }

  /** A request that fails leaves nothing but its place, and a job that fails nothing but its work so far. */
  lemma {:induction false} FailuresOnlyForget<R>(f: seq<Event> -> R, w: World<R>, steps: seq<Step>, id: int)
    ensures var m := Run(f, w, steps);
      && Run(f, w, steps + [Fails(id)]) == m.(requests := m.requests - {id})
      && Run(f, w, steps + [JobFails]) == m.(job := Idle)
    decreases |steps|
  {
    var fails, jobFails := steps + [Fails(id)], steps + [JobFails];
    if steps == [] {
      assert Run(f, Next(f, w, Fails(id)), []) == Next(f, w, Fails(id));
      assert Run(f, Next(f, w, JobFails), []) == Next(f, w, JobFails);
    } else {
      assert fails[1..] == steps[1..] + [Fails(id)] && jobFails[1..] == steps[1..] + [JobFails];
      FailuresOnlyForget(f, Next(f, w, steps[0]), steps[1..], id);
    }
  }

  /** An empty database on its first day. */
  function Launch<R>(now: int): World<R> {
    World(now, Db([], {}, map[], map[]), map[], Idle, now, {}, [], map[], IranDay(now), IranDay(now), [], now)
  }

  // ----- what every run keeps -----

  ghost predicate JobInBounds(job: Job) {
    && (job.Making? ==> job.i <= 2)
    && (job.Refreshing? ==> job.i <= 1)
    && (job.Rebuilding? ==> 1 <= job.i <= LOOKBACK_DAYS)
  }

  /** Clocks, days and counters are in order. */
  ghost predicate Ordered<R>(w: World<R>) {
    && JobInBounds(w.job)
    && w.tick <= w.now && w.lastPass <= w.reached <= Today(w)
    && (w.job.Rebuilding? && w.job.i < LOOKBACK_DAYS ==> w.reached == Today(w))
    && (!w.job.Idle? && !w.job.Making? ==> w.made == w.tick)
  }

  function SeenOf(seen: map<int, seq<Event>>, d: int): seq<Event> {
    if d in seen then seen[d] else []
  }

  /** The rows of day d count the history as it was when the day was last rebuilt. */
  ghost predicate CountsSeen<R>(f: seq<Event> -> R, w: World<R>, d: int) {
    SeenOf(w.seen, d) <= w.history && RowsOf(f, w.db, d) == Recompute(f, SeenOf(w.seen, d), d)
  }

  ghost predicate AllCountSeen<R>(f: seq<Event> -> R, w: World<R>) {
    forall d :: CountsSeen(f, w, d)
  }

  /** The days from a to b were rebuilt since history was `start`. */
  ghost predicate SeenSince(seen: map<int, seq<Event>>, start: seq<Event>, a: int, b: int) {
    forall d :: a <= d < b ==> start <= SeenOf(seen, d)
  }

  /** The last full pass, and the one at work, rebuilt their days after they began. */
  ghost predicate PassesCount<R>(w: World<R>) {
    && SeenSince(w.seen, w.counted, w.lastPass - LOOKBACK_DAYS, w.lastPass)
    && (w.job.Rebuilding? ==>
          && w.job.start <= w.history
          && SeenSince(w.seen, w.job.start, Today(w) - LOOKBACK_DAYS, Today(w) - w.job.i))
  }

  ghost predicate Covered<R>(db: Db<R>, e: Event) {
    e.install in db.installs && db.installs[e.install].first <= IranDay(e.ts) <= db.installs[e.install].last
  }

  /** Every install's span holds the days of its events. */
  ghost predicate AllCovered<R>(db: Db<R>, history: seq<Event>) {
    forall e :: e in history ==> Covered(db, e)
  }

  ghost predicate Inv<R>(f: seq<Event> -> R, w: World<R>) {
    && Ordered(w)
    && RawKept(w.db.events, w.history, Horizon(w.tick))
    && AllCountSeen(f, w) && PassesCount(w) && AllCovered(w.db, w.history)
  }

  /** A day the job rebuilds has all its raw events. */
  lemma RebuildIsExact<R>(f: seq<Event> -> R, w: World<R>, d: int)
    requires RawKept(w.db.events, w.history, Horizon(w.tick)) && d >= Today(w) - LOOKBACK_DAYS
    ensures Exact(f, Rebuild(f, w, d).db, w.history, d)
  {
    DayStartBounds(w.tick, LOOKBACK_DAYS);
    AgreeLater(w.db.events, w.history, Horizon(w.tick), Horizon(w.tick));
  }

  lemma RebuildCountsSeen<R>(f: seq<Event> -> R, w: World<R>, d: int)
    requires RawKept(w.db.events, w.history, Horizon(w.tick)) && d >= Today(w) - LOOKBACK_DAYS
    requires AllCountSeen(f, w)
    ensures AllCountSeen(f, Rebuild(f, w, d))
  {
    RebuildIsExact(f, w, d);
    forall x
      ensures CountsSeen(f, Rebuild(f, w, d), x)
    {
      assert CountsSeen(f, w, x);
    }
  }

  /** What each day's rows counted is some past of history. */
  ghost predicate SeenIsPast(seen: map<int, seq<Event>>, history: seq<Event>) {
    forall d :: d in seen ==> seen[d] <= history
  }

  /** Rebuilding a day again only lets it count more. */
  lemma RebuiltDayIsSeen(seen: map<int, seq<Event>>, history: seq<Event>, d: int, start: seq<Event>, a: int, b: int)
    requires SeenSince(seen, start, a, b) && SeenIsPast(seen, history)
    ensures SeenSince(seen[d := history], start, a, b)
    ensures d == b && start <= history ==> SeenSince(seen[d := history], start, a, b + 1)
  {
    var after := seen[d := history];
    forall x | a <= x < b
      ensures start <= SeenOf(after, x)
    {
      assert start <= SeenOf(seen, x);
    }
  }

  lemma RebuildKeepsPasses<R>(f: seq<Event> -> R, w: World<R>, d: int)
    requires PassesCount(w) && AllCountSeen(f, w)
    ensures PassesCount(Rebuild(f, w, d))
  {
    SeenByAll(f, w);
    RebuiltDayIsSeen(w.seen, w.history, d, w.counted, w.lastPass - LOOKBACK_DAYS, w.lastPass);
    if w.job.Rebuilding? {
      RebuiltDayIsSeen(w.seen, w.history, d, w.job.start, Today(w) - LOOKBACK_DAYS, Today(w) - w.job.i);
    }
  }

  lemma SeenByAll<R>(f: seq<Event> -> R, w: World<R>)
    requires AllCountSeen(f, w)
    ensures SeenIsPast(w.seen, w.history)
  {
    forall d | d in w.seen
      ensures w.seen[d] <= w.history
    {
      assert CountsSeen(f, w, d);
    }
  }

  lemma RebuildKeepsInv<R>(f: seq<Event> -> R, w: World<R>, d: int)
    requires Inv(f, w) && d >= Today(w) - LOOKBACK_DAYS
    ensures Inv(f, Rebuild(f, w, d))
  {
    RebuildCountsSeen(f, w, d);
    RebuildKeepsPasses(f, w, d);
  }

  lemma RebuildNextKeepsPasses<R>(f: seq<Event> -> R, w: World<R>)
    requires Ordered(w) && AllCountSeen(f, w) && PassesCount(w) && w.job.Rebuilding?
    ensures PassesCount(RebuildNext(f, w, w.job.i, w.job.start))
  {
    var d, t := Today(w) - w.job.i, RebuildNext(f, w, w.job.i, w.job.start);
    SeenByAll(f, w);
    assert t.seen == w.seen[d := w.history] && t.history == w.history;
    if w.job.i > 1 {
      assert t.job == Rebuilding(w.job.i - 1, w.job.start) && t.lastPass == w.lastPass && t.counted == w.counted;
      RebuiltDayIsSeen(w.seen, w.history, d, w.counted, w.lastPass - LOOKBACK_DAYS, w.lastPass);
    } else {
      assert t.job == Dropping && t.lastPass == Today(w) && t.counted == w.job.start;
    }
    RebuiltDayIsSeen(w.seen, w.history, d, w.job.start, Today(w) - LOOKBACK_DAYS, d);
  }

  /** One more day of the pass. */
  lemma RebuildNextKeepsInv<R>(f: seq<Event> -> R, w: World<R>)
    requires Inv(f, w) && w.job.Rebuilding?
    ensures Inv(f, RebuildNext(f, w, w.job.i, w.job.start))
  {
    var v, t := Rebuild(f, w, Today(w) - w.job.i), RebuildNext(f, w, w.job.i, w.job.start);
    RebuildKeepsInv(f, w, Today(w) - w.job.i);
    RebuildNextKeepsPasses(f, w);
    assert forall x :: CountsSeen(f, t, x) <==> CountsSeen(f, v, x);
  }

  /** Steps that touch no day and no event. */
  lemma SameRowsKeepInv<R>(f: seq<Event> -> R, w: World<R>, v: World<R>)
    requires Inv(f, w) && Ordered(v) && w.tick <= v.tick
    requires v.db.events == w.db.events && v.db.rollups == w.db.rollups && v.db.installs == w.db.installs
    requires v.history == w.history && v.seen == w.seen && v.lastPass == w.lastPass && v.counted == w.counted
    requires v.job.Rebuilding? ==> v.job.i == LOOKBACK_DAYS && v.job.start == w.history
    ensures Inv(f, v)
  {
    AgreeLater(w.db.events, w.history, Horizon(w.tick), Horizon(v.tick));
    forall d
      ensures CountsSeen(f, v, d)
    {
      assert CountsSeen(f, w, d);
    }
    assert forall e :: Covered(v.db, e) <==> Covered(w.db, e);
  }

  lemma RefreshKeepsInv<R>(f: seq<Event> -> R, w: World<R>)
    requires Inv(f, w) && w.job.Refreshing?
    ensures Inv(f, JobNext(f, w))
  {
    var d := Today(w) - 1 + w.job.i;
    RebuildKeepsInv(f, w, d);
    SameRowsKeepInv(f, Rebuild(f, w, d), JobNext(f, w));
  }

  lemma MakeMonthKeepsInv<R>(f: seq<Event> -> R, w: World<R>)
    requires Inv(f, w) && w.job.Making?
    ensures Inv(f, MakeMonth(w, w.job.i, w.job.rollup))
  {
    SameRowsKeepInv(f, w, MakeMonth(w, w.job.i, w.job.rollup));
  }

  /** Flags, checks and the end of the drops. */
  lemma PhaseKeepsInv<R>(f: seq<Event> -> R, w: World<R>)
    requires Inv(f, w) && (w.job.Checking? || w.job.Dropping? || w.job.Flagging?)
    ensures Inv(f, JobNext(f, w))
  {
    SameRowsKeepInv(f, w, JobNext(f, w));
  }

  lemma JobStepKeepsInv<R>(f: seq<Event> -> R, w: World<R>)
    requires Inv(f, w)
    ensures Inv(f, JobNext(f, w))
  {
    match w.job
    case Idle =>
    case Making(_, _) => MakeMonthKeepsInv(f, w);
    case Refreshing(_) => RefreshKeepsInv(f, w);
    case Rebuilding(_, _) => RebuildNextKeepsInv(f, w);
    case _ => PhaseKeepsInv(f, w);
  }

  lemma DropKeepsInv<R>(f: seq<Event> -> R, w: World<R>, m: int)
    requires Inv(f, w) && m in ToDrop(w)
    ensures Inv(f, w.(db := DropMonth(w.db, m)))
  {
    var v := w.(db := DropMonth(w.db, m));
    DropMonthKeepsRecent(w.db, m, w.tick);
    forall d
      ensures CountsSeen(f, v, d)
    {
      assert CountsSeen(f, w, d);
    }
    assert forall e :: Covered(v.db, e) <==> Covered(w.db, e);
  }

  /** A stored batch widens its install's span over its days. */
  lemma StoreCovers<R>(db: Db<R>, history: seq<Event>, r: Request)
    requires AllCovered(db, history)
    ensures AllCovered(InsertBatch(db, r.install, BatchOf(r)), Logged(db, history, BatchOf(r)))
  {
    var batch := BatchOf(r);
    forall e | e in Logged(db, history, batch)
      ensures Covered(InsertBatch(db, r.install, batch), e)
    {
      if Fits(db.partitions, batch) {
        InsertedAreFromBatch(history, batch, e);
        if e in batch {
          AcceptedInWindow(r.inputs, r.install, r.clock, e);
          SpanCoversBatch(batch, e);
          DaysAreMonotone(MinTs(batch), e.ts);
          DaysAreMonotone(e.ts, MaxTs(batch));
        }
      }
      assert e in history ==> Covered(db, e);
    }
  }

  lemma StoreKeepsInv<R>(f: seq<Event> -> R, w: World<R>, r: Request)
    requires Inv(f, w)
    ensures Inv(f, Store(w, r))
  {
    var v := Store(w, r);
    if Fits(w.db.partitions, BatchOf(r)) {
      InsertExtends(w.history, BatchOf(r));
      InsertKeepsAgreement(w.db.events, w.history, Horizon(w.tick), BatchOf(r));
    }
    StoreCovers(w.db, w.history, r);
    forall d
      ensures CountsSeen(f, v, d)
    {
      assert CountsSeen(f, w, d);
    }
  }

  lemma StepKeepsInv<R>(f: seq<Event> -> R, w: World<R>, step: Step)
    requires Inv(f, w)
    ensures Inv(f, Next(f, w, step))
  {
    match step
    case Stores(id) =>
      if id in w.requests {
        StoreKeepsInv(f, w, w.requests[id]);
        SameRequestsAside(f, Store(w, w.requests[id]), w.requests - {id});
      }
    case JobSteps => JobStepKeepsInv(f, w);
    case Drops(m) =>
      if w.job.Dropping? && m in ToDrop(w) {
        DropKeepsInv(f, w, m);
      }
    case JobFails => JobFailsKeepsInv(f, w);
    case Ticks(rollup) =>
      if w.job.Idle? {
        DaysAreMonotone(w.tick, w.now);
        SameRowsKeepInv(f, w, Next(f, w, step));
      }
    case Advance(to) =>
      var v := Next(f, w, step);
      assert forall d :: CountsSeen(f, v, d) <==> CountsSeen(f, w, d);
    case _ => SameRequestsAside(f, w, Next(f, w, step).requests);
  }

  lemma SameRequestsAside<R>(f: seq<Event> -> R, w: World<R>, requests: map<int, Request>)
    requires Inv(f, w)
    ensures Inv(f, w.(requests := requests))
  {
    var v := w.(requests := requests);
    assert forall d :: CountsSeen(f, v, d) <==> CountsSeen(f, w, d);
  }

  lemma JobFailsKeepsInv<R>(f: seq<Event> -> R, w: World<R>)
    requires Inv(f, w)
    ensures Inv(f, w.(job := Idle))
  {
    SameRowsKeepInv(f, w, w.(job := Idle));
  }

  /**
   * In every interleaving of requests, ticks, every statement of the job, and failures, the rows of every day count
   * exactly the history as it was when that day was last rebuilt, though most raw events are gone.
   */
  lemma {:induction false} EveryRunCountsWhatItSaw<R>(f: seq<Event> -> R, w: World<R>, steps: seq<Step>)
    requires Inv(f, w)
    ensures Inv(f, Run(f, w, steps))
    decreases |steps|
  {
    if steps == [] {
    } else {
      StepKeepsInv(f, w, steps[0]);
      EveryRunCountsWhatItSaw(f, Next(f, w, steps[0]), steps[1..]);
    }
  }

  lemma LaunchHasInv<R>(f: seq<Event> -> R, now: int)
    ensures Inv(f, Launch(now))
  {
    var w: World<R> := Launch(now);
    assert forall d :: CountsSeen(f, w, d);
  }
}
