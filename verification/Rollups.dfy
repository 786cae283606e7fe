/** Event ingest, monthly partitions and daily rollups (service/analytics.go, repository/analytics.go). */
module Rollups {
  import opened Calendar
  import opened Partitions

  const MAX_PAST_SKEW := 7 * DAY
  const MAX_FUTURE_SKEW := 5 * MINUTE
  const LOOKBACK_DAYS := 8
  const RETENTION_MONTHS := 6

  /** A stored event; (id, ts) is the unique index, and a guest's user is empty. */
  datatype Event = Event(id: int, install: int, user: string, name: string, screen: string, durationMs: nat, ts: int)

  /** An event as sent: the client's clock in Unix milliseconds, and whether the envelope checks pass. */
  datatype Input = Input(event: Event, clientMs: int, wellFormed: bool)

  /** The client's clock is believed. */
  predicate InWindow(clientMs: int, now: int) {
    clientMs > 0 && now - MAX_PAST_SKEW <= clientMs * 1_000_000 <= now + MAX_FUTURE_SKEW
  }

  /** A wrong device clock is replaced by the server's. */
  function Clamp(clientMs: int, now: int): int {
    var ts := clientMs * 1_000_000;
    if clientMs <= 0 || ts > now + MAX_FUTURE_SKEW || ts < now - MAX_PAST_SKEW then now else ts
  }

  /** The earliest and the latest whole millisecond of the window. */
  function Oldest(now: int): int {
    -((MAX_PAST_SKEW - now) / 1_000_000) * 1_000_000
  }

  function Newest(now: int): int {
    (now + MAX_FUTURE_SKEW) / 1_000_000 * 1_000_000
  }

  lemma OldestIsAccepted(now: int)
    requires now > MAX_PAST_SKEW
    ensures Oldest(now) <= now && now - MAX_PAST_SKEW <= Oldest(now) < now - MAX_PAST_SKEW + 1_000_000
    ensures Oldest(now) % 1_000_000 == 0 && InWindow(Oldest(now) / 1_000_000, now)
    ensures Clamp(Oldest(now) / 1_000_000, now) == Oldest(now)
  {
  }

  lemma NewestIsAccepted(now: int)
    requires now > MAX_PAST_SKEW
    ensures Newest(now) % 1_000_000 == 0 && InWindow(Newest(now) / 1_000_000, now)
    ensures Clamp(Newest(now) / 1_000_000, now) == Newest(now)
  {
  }

  /** No accepted clock lies outside those two, and both are accepted. */
  lemma WindowEnds(clientMs: int, now: int)
    requires now > MAX_PAST_SKEW
    ensures Oldest(now) <= Clamp(clientMs, now) <= Newest(now) || Clamp(clientMs, now) == now
    ensures Oldest(now) <= now && now - MAX_PAST_SKEW <= Oldest(now) < now - MAX_PAST_SKEW + 1_000_000
    ensures Oldest(now) % 1_000_000 == 0 && InWindow(Oldest(now) / 1_000_000, now)
    ensures Clamp(Oldest(now) / 1_000_000, now) == Oldest(now)
    ensures Newest(now) % 1_000_000 == 0 && InWindow(Newest(now) / 1_000_000, now)
    ensures Clamp(Newest(now) / 1_000_000, now) == Newest(now)
  {
    OldestIsAccepted(now);
    NewestIsAccepted(now);
  }

  /** How many Iran days back an event may be filed. */
  function Reach(now: int): int {
    IranDay(now) - IranDay(Oldest(now))
  }

  /** Between whole milliseconds there is no third. */
  lemma NextMillisecond(t: int, a: int, b: int)
    requires t == a * 1_000_000 && t > b * 1_000_000 - 1_000_000
    ensures t >= b * 1_000_000
  {
  }

  /** The window opens at its limit, rounded up to a whole millisecond. */
  lemma OldestBounds(now: int)
    ensures now - MAX_PAST_SKEW <= Oldest(now) < now - MAX_PAST_SKEW + 1_000_000
  {
  }

  /** Seven, but six in the part of a millisecond that ends an Iran day. */
  lemma ReachExactly(now: int)
    ensures Reach(now) == if now <= DayStart(IranDay(now) + 1) - 1_000_000 then 7 else 6
  {
    var today := IranDay(now);
    OldestBounds(now);
    IranDayIsItsInterval(now, today);
    if now <= DayStart(today + 1) - 1_000_000 {
      IranDayIsItsInterval(Oldest(now), today - 7);
    } else {
      NextMillisecond(Oldest(now), -((MAX_PAST_SKEW - now) / 1_000_000), (today - 6) * 86_400_000 - 12_600_000);
      IranDayIsItsInterval(Oldest(now), today - 6);
    }
  }

  lemma ClampReachesBack(clientMs: int, now: int)
    ensures Clamp(clientMs, now) >= Oldest(now)
  {
    OldestBounds(now);
  }

  lemma ClampStaysInTheWindow(clientMs: int, now: int)
    ensures now - MAX_PAST_SKEW <= Clamp(clientMs, now) <= now + MAX_FUTURE_SKEW
    ensures IranDay(now) - 7 <= IranDay(Clamp(clientMs, now))
  {
    DayShift(now, -7);
    DaysAreMonotone(now - MAX_PAST_SKEW, Clamp(clientMs, now));
  }

  // ----- the events of one day -----

  function Select(evs: seq<Event>, p: Event -> bool): seq<Event> {
    if evs == [] then []
    else
      var rest := Select(evs[..|evs| - 1], p);
      if p(evs[|evs| - 1]) then rest + [evs[|evs| - 1]] else rest
  }

  function OnDay(evs: seq<Event>, d: int): seq<Event> {
    Select(evs, (e: Event) => DayStart(d) <= e.ts < DayStart(d + 1))
  }

  /** What a day's rows should be, recomputed from a list of events with an aggregate f. */
  function Recompute<R>(f: seq<Event> -> R, evs: seq<Event>, d: int): R {
    f(OnDay(evs, d))
  }

  // ----- the tables -----

  datatype Span = Span(first: int, last: int)

  /**
   * The tables. Everything below about rollups holds for any rows of type R that an aggregate f
   * computes from a day's events; the repository's own aggregate is Summaries.Summarise.
   */
  datatype Db<R> = Db(events: seq<Event>, partitions: set<int>, installs: map<int, Span>, rollups: map<int, R>)

  predicate Conflicts(evs: seq<Event>, e: Event) {
    exists x :: x in evs && x.id == e.id && x.ts == e.ts
  }

  function InsertOne(evs: seq<Event>, e: Event): seq<Event> {
    if Conflicts(evs, e) then evs else evs + [e]
  }

  /** INSERT … ON CONFLICT (client_event_id, ts) DO NOTHING, row by row. */
  function InsertAll(evs: seq<Event>, batch: seq<Event>): seq<Event> {
    if batch == [] then evs else InsertOne(InsertAll(evs, batch[..|batch| - 1]), batch[|batch| - 1])
  }

  /** Every row has a partition to go to. */
  predicate Fits(partitions: set<int>, batch: seq<Event>) {
    forall e :: e in batch ==> MonthOf(e.ts) in partitions
  }

  function MinTs(batch: seq<Event>): int
    requires batch != []
  {
    if |batch| == 1 then batch[0].ts
    else
      var m, t := MinTs(batch[..|batch| - 1]), batch[|batch| - 1].ts;
      if t < m then t else m
  }

  function MaxTs(batch: seq<Event>): int
    requires batch != []
  {
    if |batch| == 1 then batch[0].ts
    else
      var m, t := MaxTs(batch[..|batch| - 1]), batch[|batch| - 1].ts;
      if t > m then t else m
  }

  function Widen(installs: map<int, Span>, install: int, s: Span): map<int, Span> {
    if install in installs
    then installs[install := Span(if s.first < installs[install].first then s.first else installs[install].first,
                                  if s.last > installs[install].last then s.last else installs[install].last)]
    else installs[install := s]
  }

  /** The whole insert transaction; a row without a partition fails it and nothing changes. */
  function InsertBatch<R>(db: Db<R>, install: int, batch: seq<Event>): Db<R> {
    if batch == [] || !Fits(db.partitions, batch) then db
    else db.(events := InsertAll(db.events, batch),
             installs := Widen(db.installs, install, Span(IranDay(MinTs(batch)), IranDay(MaxTs(batch)))))
  }

  function EnsurePartitions<R>(db: Db<R>, now: int): Db<R> {
    db.(partitions := db.partitions + {MonthOf(now) - 1, MonthOf(now), MonthOf(now) + 1})
  }

  function DropOld<R>(db: Db<R>, cutoff: int): Db<R> {
    var expired := Expired(db.partitions, cutoff);
    db.(partitions := db.partitions - expired, events := Select(db.events, (e: Event) => MonthOf(e.ts) !in expired))
  }

  /** Drops one partition. */
  function DropMonth<R>(db: Db<R>, m: int): Db<R> {
    db.(partitions := db.partitions - {m}, events := Select(db.events, (e: Event) => MonthOf(e.ts) != m))
  }

  /** Rebuilds one day's rows from the raw events. */
  function RollupDay<R>(f: seq<Event> -> R, db: Db<R>, d: int): Db<R> {
    db.(rollups := db.rollups[d := Recompute(f, db.events, d)])
  }

  /** Rebuilds days from, from + 1, …, from + n - 1. */
  function RollupDays<R>(f: seq<Event> -> R, db: Db<R>, from: int, n: nat): Db<R> {
    if n == 0 then db else RollupDay(f, RollupDays(f, db, from, n - 1), from + n - 1)
  }

  function RowsOf<R>(f: seq<Event> -> R, db: Db<R>, d: int): R {
    if d in db.rollups then db.rollups[d] else f([])
  }

  /** The daily pass with a given lookback: days today - lookback .. today - 1, then retention. */
  function DailyPass<R>(f: seq<Event> -> R, db: Db<R>, now: int, lookback: nat): Db<R> {
    DropOld(RollupDays(f, db, IranDay(now) - lookback, lookback), AddMonths(now, -RETENTION_MONTHS))
  }

  /** The events an ingest request stores: malformed ones dropped, clocks clamped. */
  function Accepted(inputs: seq<Input>, install: int, now: int): seq<Event> {
    if inputs == [] then []
    else
      var rest, i := Accepted(inputs[..|inputs| - 1], install, now), inputs[|inputs| - 1];
      if i.wellFormed then rest + [i.event.(install := install, ts := Clamp(i.clientMs, now))] else rest
  }

  lemma {:induction false} AcceptedInWindow(inputs: seq<Input>, install: int, now: int, e: Event)
    requires e in Accepted(inputs, install, now)
    ensures e.install == install
    ensures now - MAX_PAST_SKEW <= e.ts <= now + MAX_FUTURE_SKEW && IranDay(now) - 7 <= IranDay(e.ts)
  {
    var i := inputs[|inputs| - 1];
    ClampStaysInTheWindow(i.clientMs, now);
    if e in Accepted(inputs[..|inputs| - 1], install, now) {
      AcceptedInWindow(inputs[..|inputs| - 1], install, now, e);
    }
  }

  /** No accepted event lies before the window's first whole millisecond. */
  lemma {:induction false} AcceptedReachesBack(inputs: seq<Input>, install: int, now: int, e: Event)
    requires e in Accepted(inputs, install, now)
    ensures e.ts >= Oldest(now)
  {
    var n := |inputs| - 1;
    ClampReachesBack(inputs[n].clientMs, now);
    if e in Accepted(inputs[..n], install, now) {
      AcceptedReachesBack(inputs[..n], install, now, e);
    }
  }

  /** An accepted event comes from a well-formed input, in the window's whole milliseconds or at the server's clock. */
  lemma {:induction false} AcceptedFrom(inputs: seq<Input>, install: int, now: int, e: Event)
    requires e in Accepted(inputs, install, now)
    ensures exists k :: 0 <= k < |inputs| && IsAccepted(inputs[k], install, now, e)
    ensures now > MAX_PAST_SKEW ==> Oldest(now) <= e.ts <= Newest(now) || e.ts == now
    ensures now > MAX_PAST_SKEW ==> Oldest(now) <= now <= now + MAX_FUTURE_SKEW < Newest(now) + 1_000_000
  {
    var n := |inputs| - 1;
    if now > MAX_PAST_SKEW {
      WindowEnds(inputs[n].clientMs, now);
    }
    if e in Accepted(inputs[..n], install, now) {
      AcceptedFrom(inputs[..n], install, now, e);
      var k :| 0 <= k < n && IsAccepted(inputs[..n][k], install, now, e);
      assert IsAccepted(inputs[k], install, now, e);
    } else {
      assert IsAccepted(inputs[n], install, now, e);
    }
  }

  lemma OneInput(i: Input, install: int, now: int)
    requires i.wellFormed
    ensures Accepted([i], install, now) == [i.event.(install := install, ts := Clamp(i.clientMs, now))]
  {
    assert [i][..0] == [] && Accepted([], install, now) == [];
  }

  /** The input is accepted as e. */
  predicate IsAccepted(i: Input, install: int, now: int, e: Event) {
    i.wellFormed && e == i.event.(install := install, ts := Clamp(i.clientMs, now))
  }

  // ----- raw events and history -----

  function Since(evs: seq<Event>, t: int): seq<Event> {
    Select(evs, (e: Event) => e.ts >= t)
  }

  /** Raw events this far back are never dropped. */
  function Horizon(now: int): int {
    now - 168 * DAY
  }

  /** The day's rows are a recomputation over all events ever stored. */
  ghost predicate Exact<R>(f: seq<Event> -> R, db: Db<R>, history: seq<Event>, d: int) {
    RowsOf(f, db, d) == Recompute(f, history, d)
  }

  /** `history` with a batch that was stored, if it was. */
  function Logged<R>(db: Db<R>, history: seq<Event>, batch: seq<Event>): seq<Event> {
    if Fits(db.partitions, batch) then InsertAll(history, batch) else history
  }

  /** More events of a day never leave its rows as they were. */
  ghost predicate CountsEvents<R>(f: seq<Event> -> R) {
    forall evs: seq<Event>, more: seq<Event> :: more != [] ==> f(evs + more) != f(evs)
  }

  // ----- selecting -----

  lemma SelectAppend(evs: seq<Event>, e: Event, p: Event -> bool)
    ensures Select(evs + [e], p) == if p(e) then Select(evs, p) + [e] else Select(evs, p)
  {
    assert (evs + [e])[..|evs|] == evs;
  }

  lemma {:induction false} SelectSelect(evs: seq<Event>, p: Event -> bool, q: Event -> bool)
    requires forall e :: q(e) ==> p(e)
    ensures Select(Select(evs, p), q) == Select(evs, q)
  {
    if evs == [] {
    } else {
      var n := |evs| - 1;
      SelectSelect(evs[..n], p, q);
      if p(evs[n]) {
        var r := Select(evs[..n], p);
        assert (r + [evs[n]])[..|r|] == r;
      }
    }
  }

  lemma {:induction false} SelectMember(evs: seq<Event>, p: Event -> bool, e: Event)
    ensures e in Select(evs, p) <==> e in evs && p(e)
  {
    if evs == [] {
    } else {
      SelectMember(evs[..|evs| - 1], p, e);
      assert evs == evs[..|evs| - 1] + [evs[|evs| - 1]];
    }
  }

  lemma {:induction false} SelectSame(evs: seq<Event>, p: Event -> bool, q: Event -> bool)
    requires forall e :: p(e) <==> q(e)
    ensures Select(evs, p) == Select(evs, q)
  {
    if evs == [] {
    } else {
      SelectSame(evs[..|evs| - 1], p, q);
    }
  }

  /** Two stores that agree from t on agree on every later cut, and on every day that starts there. */
  lemma AgreeLater(a: seq<Event>, b: seq<Event>, t: int, u: int)
    requires RawKept(a, b, t) && t <= u
    ensures RawKept(a, b, u)
    ensures forall d :: DayStart(d) >= u ==> OnDay(a, d) == OnDay(b, d)
  {
    var p, q := (e: Event) => e.ts >= t, (e: Event) => e.ts >= u;
    SelectSelect(a, p, q);
    SelectSelect(b, p, q);
    forall d | DayStart(d) >= u
      ensures OnDay(a, d) == OnDay(b, d)
    {
      var r := (e: Event) => DayStart(d) <= e.ts < DayStart(d + 1);
      SelectSelect(a, p, r);
      SelectSelect(b, p, r);
    }
  }

  /** What the raw table still has from t on is all that was ever stored from t on. */
  ghost predicate RawKept(events: seq<Event>, history: seq<Event>, t: int) {
    Since(events, t) == Since(history, t)
  }

  lemma InsertOneKeepsAgreement(a: seq<Event>, b: seq<Event>, t: int, e: Event)
    requires RawKept(a, b, t)
    ensures RawKept(InsertOne(a, e), InsertOne(b, e), t)
  {
    if e.ts >= t {
      ConflictSeenSince(a, e, t);
      ConflictSeenSince(b, e, t);
    }
    SelectAppend(a, e, (x: Event) => x.ts >= t);
    SelectAppend(b, e, (x: Event) => x.ts >= t);
  }

  /** Inserting a batch keeps two agreeing stores in agreement: for events from t on they see the same conflicts. */
  lemma {:induction false} InsertKeepsAgreement(a: seq<Event>, b: seq<Event>, t: int, batch: seq<Event>)
    requires RawKept(a, b, t)
    ensures RawKept(InsertAll(a, batch), InsertAll(b, batch), t)
  {
    if batch == [] {
    } else {
      var n := |batch| - 1;
      InsertKeepsAgreement(a, b, t, batch[..n]);
      InsertOneKeepsAgreement(InsertAll(a, batch[..n]), InsertAll(b, batch[..n]), t, batch[n]);
    }
  }

  lemma ConflictSeenSince(evs: seq<Event>, e: Event, t: int)
    requires e.ts >= t
    ensures Conflicts(evs, e) <==> Conflicts(Since(evs, t), e)
  {
    forall x
      ensures x in Since(evs, t) <==> x in evs && x.ts >= t
    {
      SelectMember(evs, (y: Event) => y.ts >= t, x);
    }
  }

  /** A batch changes no day before those of its events. */
  lemma {:induction false} InsertLeavesEarlierDays(evs: seq<Event>, batch: seq<Event>, d: int)
    requires forall e :: e in batch ==> e.ts >= DayStart(d + 1)
    ensures OnDay(InsertAll(evs, batch), d) == OnDay(evs, d)
  {
    if batch == [] {
    } else {
      var n := |batch| - 1;
      assert batch[n] in batch && forall x :: x in batch[..n] ==> x in batch;
      InsertLeavesEarlierDays(evs, batch[..n], d);
      SelectAppend(InsertAll(evs, batch[..n]), batch[n], (e: Event) => DayStart(d) <= e.ts < DayStart(d + 1));
    }
  }

  // ----- rebuilding -----

  lemma {:induction false} RollupDaysEffect<R>(f: seq<Event> -> R, db: Db<R>, from: int, n: nat, d: int)
    ensures var r := RollupDays(f, db, from, n);
      && r.events == db.events && r.partitions == db.partitions && r.installs == db.installs
      && RowsOf(f, r, d) == if from <= d < from + n then Recompute(f, db.events, d) else RowsOf(f, db, d)
  {
    if n > 0 {
      RollupDaysEffect(f, db, from, n - 1, d);
    }
  }

  /** Retention only drops events older than any the pass will ever rebuild again. */
  lemma DropKeepsRecent<R>(db: Db<R>, now: int)
    ensures var r := DropOld(db, AddMonths(now, -RETENTION_MONTHS));
      && RawKept(r.events, db.events, Horizon(now))
      && r.rollups == db.rollups && r.installs == db.installs
  {
    var cutoff := AddMonths(now, -RETENTION_MONTHS);
    var expired := Expired(db.partitions, cutoff);
    SixMonthsBack(now);
    var p := (e: Event) => MonthOf(e.ts) !in expired;
    var q := (e: Event) => e.ts >= Horizon(now);
    forall e | q(e)
      ensures p(e)
    {
      assert e.ts < MonthStart(MonthOf(e.ts) + 1);
    }
    SelectSelect(db.events, p, q);
  }

  lemma DropMonthKeepsRecent<R>(db: Db<R>, m: int, now: int)
    requires m in Expired(db.partitions, AddMonths(now, -RETENTION_MONTHS))
    ensures RawKept(DropMonth(db, m).events, db.events, Horizon(now))
  {
    SixMonthsBack(now);
    var p := (e: Event) => MonthOf(e.ts) != m;
    var q := (e: Event) => e.ts >= Horizon(now);
    forall e | q(e)
      ensures p(e)
    {
      assert e.ts < MonthStart(MonthOf(e.ts) + 1);
    }
    SelectSelect(db.events, p, q);
  }

  lemma DayStartBounds(now: int, k: int)
    requires 0 <= k <= 160
    ensures Horizon(now) <= DayStart(IranDay(now) - k)
  {
    IranDayIsItsInterval(now, IranDay(now));
  }

  // ----- inserting -----

  lemma {:induction false} InsertExtends(evs: seq<Event>, batch: seq<Event>)
    ensures evs <= InsertAll(evs, batch)
  {
    if batch == [] {
    } else {
      InsertExtends(evs, batch[..|batch| - 1]);
    }
  }

  lemma {:induction false} OnDayExtends(a: seq<Event>, b: seq<Event>, d: int)
    requires a <= b
    ensures OnDay(a, d) <= OnDay(b, d)
    decreases |b|
  {
    if |a| < |b| {
      var n := |b| - 1;
      assert a <= b[..n] && b == b[..n] + [b[n]];
      OnDayExtends(a, b[..n], d);
      SelectAppend(b[..n], b[n], (e: Event) => DayStart(d) <= e.ts < DayStart(d + 1));
    } else {
      assert a == b;
    }
  }

  lemma {:induction false} InsertedAreFromBatch(evs: seq<Event>, batch: seq<Event>, e: Event)
    requires e in InsertAll(evs, batch)
    ensures e in evs || e in batch
  {
    if batch != [] && e !in evs && e != batch[|batch| - 1] {
      InsertedAreFromBatch(evs, batch[..|batch| - 1], e);
    }
  }

  lemma {:induction false} SpanCoversBatch(batch: seq<Event>, e: Event)
    requires e in batch
    ensures MinTs(batch) <= e.ts <= MaxTs(batch)
  {
    if |batch| > 1 {
      var n := |batch| - 1;
      assert batch == batch[..n] + [batch[n]];
      if e in batch[..n] {
        SpanCoversBatch(batch[..n], e);
      } else {
        SpanCoversBatch(batch[..n], batch[0]);
      }
    }
  }

  // ----- what is stored, and where -----

  /** The device's clock is taken if it is a date at most a week old and at most five minutes fast. */
  lemma ClockIsTakenExactly(clientMs: int, now: int)
    ensures Clamp(clientMs, now) ==
      if 0 < clientMs && now - 604_800_000_000_000 <= clientMs * 1_000_000 <= now + 300_000_000_000
      then clientMs * 1_000_000 else now
    ensures InWindow(clientMs, now) ==> Clamp(clientMs, now) == clientMs * 1_000_000
  {
  }

  /** The positions of the well-formed inputs. */
  ghost predicate WellFormedAt(inputs: seq<Input>, at: seq<nat>) {
    && (forall j, k :: 0 <= j < k < |at| ==> at[j] < at[k])
    && (forall i: nat :: i in at <==> i < |inputs| && inputs[i].wellFormed)
  }

  lemma OneMoreWellFormed(inputs: seq<Input>, at: seq<nat>)
    requires inputs != [] && WellFormedAt(inputs[..|inputs| - 1], at)
    ensures WellFormedAt(inputs, if inputs[|inputs| - 1].wellFormed then at + [|inputs| - 1] else at)
  {
    var n := |inputs| - 1;
    forall k | 0 <= k < |at|
      ensures at[k] < n
    {
      assert at[k] in at;
    }
    forall i: nat
      ensures i in at <==> i < n && inputs[i].wellFormed
    {
      assert i < n ==> inputs[..n][i] == inputs[i];
    }
  }

  /** The events are those of the inputs at these positions. */
  ghost predicate AcceptedAt(inputs: seq<Input>, install: int, now: int, at: seq<nat>, evs: seq<Event>) {
    && |at| == |evs|
    && forall k :: 0 <= k < |at| ==> at[k] < |inputs| && IsAccepted(inputs[at[k]], install, now, evs[k])
  }

  lemma OneMoreAccepted(inputs: seq<Input>, install: int, now: int, at: seq<nat>, evs: seq<Event>, e: Event)
    requires inputs != [] && AcceptedAt(inputs[..|inputs| - 1], install, now, at, evs)
    ensures AcceptedAt(inputs, install, now, at, evs)
    ensures IsAccepted(inputs[|inputs| - 1], install, now, e) ==>
      AcceptedAt(inputs, install, now, at + [|inputs| - 1], evs + [e])
  {
    forall k | 0 <= k < |at|
      ensures at[k] < |inputs| - 1 && IsAccepted(inputs[at[k]], install, now, evs[k])
    {
      assert inputs[..|inputs| - 1][at[k]] == inputs[at[k]];
    }
  }

  /** The accepted events are the well-formed inputs in order, under the caller's install at their clamped time. */
  lemma {:induction false} AcceptedInOrder(inputs: seq<Input>, install: int, now: int) returns (at: seq<nat>)
    ensures WellFormedAt(inputs, at)
    ensures AcceptedAt(inputs, install, now, at, Accepted(inputs, install, now))
  {
    if inputs == [] {
      at := [];
    } else {
      var n := |inputs| - 1;
      var rest, i := Accepted(inputs[..n], install, now), inputs[n];
      at := AcceptedInOrder(inputs[..n], install, now);
      OneMoreWellFormed(inputs, at);
      OneMoreAccepted(inputs, install, now, at, rest, i.event.(install := install, ts := Clamp(i.clientMs, now)));
      if i.wellFormed {
        at := at + [n];
      }
    }
  }

  /** A day has exactly the events whose Iran day it is, as often as they are stored. */
  lemma {:induction false} DayHasExactly(evs: seq<Event>, d: int, e: Event)
    ensures multiset(OnDay(evs, d))[e] == if IranDay(e.ts) == d then multiset(evs)[e] else 0
  {
    if evs == [] {
    } else {
      var n := |evs| - 1;
      DayHasExactly(evs[..n], d, e);
      IranDayIsItsInterval(evs[n].ts, d);
      assert evs == evs[..n] + [evs[n]];
    }
  }

  ghost predicate OneRowAKey(evs: seq<Event>) {
    forall i, j :: 0 <= i < j < |evs| ==> !(evs[i].id == evs[j].id && evs[i].ts == evs[j].ts)
  }

  /** Some row has the key of e. */
  ghost predicate HasKey(evs: seq<Event>, e: Event) {
    exists i :: 0 <= i < |evs| && evs[i].id == e.id && evs[i].ts == e.ts
  }

  lemma InsertOneKeepsKeys(evs: seq<Event>, e: Event)
    requires OneRowAKey(evs)
    ensures OneRowAKey(InsertOne(evs, e)) && HasKey(InsertOne(evs, e), e)
    ensures HasKey(evs, e) ==> InsertOne(evs, e) == evs
    ensures !HasKey(evs, e) ==> InsertOne(evs, e) == evs + [e]
    ensures forall x :: HasKey(evs, x) ==> HasKey(InsertOne(evs, e), x)
  {
    if Conflicts(evs, e) {
      var x :| x in evs && x.id == e.id && x.ts == e.ts;
      var i :| 0 <= i < |evs| && evs[i] == x;
    } else {
      var after := evs + [e];
      assert forall i :: 0 <= i < |evs| ==> after[i] == evs[i] && evs[i] in evs;
      assert after[|evs|] == e;
      forall x | HasKey(evs, x)
        ensures HasKey(after, x)
      {
        var i :| 0 <= i < |evs| && evs[i].id == x.id && evs[i].ts == x.ts;
        assert after[i] == evs[i];
      }
    }
  }

  /** A stored batch leaves one row a key, and a row for each of its keys; the rows before it are the same. */
  lemma {:induction false} BatchIsStoredOnce(evs: seq<Event>, batch: seq<Event>)
    requires OneRowAKey(evs)
    ensures var after := InsertAll(evs, batch);
      && OneRowAKey(after) && evs <= after && (forall e :: e in batch ==> HasKey(after, e))
      && (forall e :: e in after ==> e in evs || e in batch)
    ensures forall e :: HasKey(evs, e) ==> HasKey(InsertAll(evs, batch), e)
  {
    if batch == [] {
    } else {
      var n := |batch| - 1;
      BatchIsStoredOnce(evs, batch[..n]);
      InsertOneKeepsKeys(InsertAll(evs, batch[..n]), batch[n]);
      assert batch == batch[..n] + [batch[n]];
      InsertExtends(evs, batch);
    }
  }

  /** The span of a batch ends at two of its events, and holds them all. */
  lemma {:induction false} SpanIsAttained(batch: seq<Event>) returns (first: Event, last: Event)
    requires batch != []
    ensures first in batch && first.ts == MinTs(batch) && last in batch && last.ts == MaxTs(batch)
  {
    var n := |batch| - 1;
    if n == 0 {
      first, last := batch[0], batch[0];
    } else {
      first, last := SpanIsAttained(batch[..n]);
      if batch[n].ts < first.ts {
        first := batch[n];
      }
      if batch[n].ts > last.ts {
        last := batch[n];
      }
    }
  }

  /** The smallest span that holds two. */
  predicate Hull(a: Span, b: Span, c: Span) {
    && c.first <= a.first && c.first <= b.first && (c.first == a.first || c.first == b.first)
    && c.last >= a.last && c.last >= b.last && (c.last == a.last || c.last == b.last)
  }

  /** A new span is the batch's; an old one grows to hold it, and no further; other installs keep theirs. */
  lemma WidenHoldsBoth(installs: map<int, Span>, install: int, s: Span, d: int)
    requires s.first <= s.last && (install in installs ==> installs[install].first <= installs[install].last)
    ensures var w := Widen(installs, install, s);
      && w.Keys == installs.Keys + {install}
      && (forall i :: i in installs && i != install ==> w[i] == installs[i])
      && (install !in installs ==> w[install] == s)
      && (install in installs ==> Hull(installs[install], s, w[install]))
  {
  }

  /** A batch is stored whole or not at all: not if one of its rows has no partition. */
  lemma BatchIsStoredWhole<R>(db: Db<R>, install: int, batch: seq<Event>)
    ensures var t := InsertBatch(db, install, batch);
      && (batch != [] && (forall e :: e in batch ==> MonthOf(e.ts) in db.partitions) ==>
            (t.events == InsertAll(db.events, batch)
             && t.installs == Widen(db.installs, install, Span(IranDay(MinTs(batch)), IranDay(MaxTs(batch))))))
      && ((exists e :: e in batch && MonthOf(e.ts) !in db.partitions) ==> t == db)
      && t.partitions == db.partitions && t.rollups == db.rollups
  {
  }

  /** Retention drops exactly the partitions whose month is past at the cutoff, with their events, and no rows. */
  lemma DropsExactly<R>(db: Db<R>, cutoff: int, m: int, e: Event)
    ensures var t := DropOld(db, cutoff);
      && (m in t.partitions <==> m in db.partitions && exists u :: InMonth(u, m) && u >= cutoff)
      && multiset(t.events)[e] == (if MonthOf(e.ts) in db.partitions && MonthOf(e.ts) !in t.partitions then 0
                                   else multiset(db.events)[e])
      && t.rollups == db.rollups && t.installs == db.installs
  {
    ExpiredExactly(db.partitions, cutoff, m);
    SelectKeeps(db.events, (x: Event) => MonthOf(x.ts) !in Expired(db.partitions, cutoff), e);
  }

  lemma {:induction false} SelectKeeps(evs: seq<Event>, p: Event -> bool, e: Event)
    ensures multiset(Select(evs, p))[e] == if p(e) then multiset(evs)[e] else 0
  {
    if evs == [] {
    } else {
      SelectKeeps(evs[..|evs| - 1], p, e);
      assert evs == evs[..|evs| - 1] + [evs[|evs| - 1]];
    }
  }

  /**
   * A pass leaves exactly the partitions that reach into the last six calendar months; the eight days before today
   * have fresh rows of the events it found, and all other rows are as they were.
   */
  lemma PassLeavesExactly<R>(f: seq<Event> -> R, db: Db<R>, now: int, m: int, d: int)
    ensures var t := DailyPass(f, db, now, LOOKBACK_DAYS);
      && (m in t.partitions <==> m in db.partitions && exists u :: InMonth(u, m) && u >= AddMonths(now, -6))
      && RowsOf(f, t, d) == (if 1 <= IranDay(now) - d <= 8 then Recompute(f, db.events, d) else RowsOf(f, db, d))
      && t.installs == db.installs
  {
    var from := IranDay(now) - LOOKBACK_DAYS;
    RollupDaysEffect(f, db, from, LOOKBACK_DAYS, d);
    ExpiredExactly(db.partitions, AddMonths(now, -RETENTION_MONTHS), m);
  }
}
