/** Where accepted events go, and what sending them again does (repository/analytics.go, service/analytics.go). */
module Ingest {
  import opened Calendar
  import opened Partitions
  import opened Rollups
  import opened RollupRuns

  // ----- partitions -----

  ghost predicate AlwaysFits(partitions: set<int>, now: int) {
    forall inputs: seq<Input>, install: int :: Fits(partitions, Accepted(inputs, install, now))
  }

  /** Every acceptable batch has a place to go exactly when the months at both ends of the window exist. */
  lemma IngestFitsExactly(partitions: set<int>, now: int)
    requires now > MAX_PAST_SKEW
    ensures AlwaysFits(partitions, now) <==> MonthOf(Oldest(now)) in partitions && MonthOf(Newest(now)) in partitions
  {
    WindowEnds(0, now);
    if AlwaysFits(partitions, now) {
      WindowTimeNeedsItsMonth(partitions, now, Oldest(now));
      WindowTimeNeedsItsMonth(partitions, now, Newest(now));
    }
    if MonthOf(Oldest(now)) in partitions && MonthOf(Newest(now)) in partitions {
      forall inputs: seq<Input>, install: int
        ensures Fits(partitions, Accepted(inputs, install, now))
      {
        forall e | e in Accepted(inputs, install, now)
          ensures MonthOf(e.ts) in partitions
        {
          AcceptedFrom(inputs, install, now, e);
          MonthsOfTheWindow(now, e.ts);
        }
      }
    }
  }

  /** The window is shorter than any month, so it meets no month besides those of its ends. */
  lemma MonthsOfTheWindow(now: int, t: int)
    requires now > MAX_PAST_SKEW && Oldest(now) <= t <= Newest(now)
    ensures MonthOf(t) == MonthOf(Oldest(now)) || MonthOf(t) == MonthOf(Newest(now))
  {
    WindowEnds(0, now);
    var a, m, b := MonthOf(Oldest(now)), MonthOf(t), MonthOf(Newest(now));
    MonthsAreMonotone(Oldest(now), t);
    MonthsAreMonotone(t, Newest(now));
    MonthLength(m);
    if a < m < b {
      MonthsAreApart(a + 1, m);
      MonthsAreApart(m + 1, b);
    }
  }

  lemma WindowTimeNeedsItsMonth(partitions: set<int>, now: int, t: int)
    requires now - MAX_PAST_SKEW <= t <= now + MAX_FUTURE_SKEW && t % 1_000_000 == 0 && t > 0
    requires AlwaysFits(partitions, now)
    ensures MonthOf(t) in partitions
  {
    var i := Input(Event(0, 0, "", "", "", 0, 0), t / 1_000_000, true);
    assert [i][..0] == [] && Accepted([], 0, now) == [];
    assert Accepted([i], 0, now) == [i.event.(ts := t)];
    assert Fits(partitions, Accepted([i], 0, now));
    assert i.event.(ts := t) in Accepted([i], 0, now);
  }

  /** No retention pass drops one of the months made at t0, before the month after next begins. */
  lemma RetentionKeepsEnsuredPartitions(partitions: set<int>, t0: int, passAt: int)
    requires t0 <= passAt < MonthStart(MonthOf(t0) + 2)
    ensures Expired(partitions, AddMonths(passAt, -RETENTION_MONTHS)) !! {MonthOf(t0) - 1, MonthOf(t0), MonthOf(t0) + 1}
  {
    var m := MonthOf(t0);
    SixMonthsBack(passAt);
    MonthLength(m);
    MonthLength(m + 1);
  }

  // ----- partitions over a run -----

  /** The partitions made at `made` serve a request with this clock, whenever it is stored. */
  predicate Serves(made: int, clock: int) {
    && MonthStart(MonthOf(made) - 1) <= clock - MAX_PAST_SKEW
    && clock + MAX_FUTURE_SKEW < MonthStart(MonthOf(made) + 2)
  }

  /** From three weeks before to four weeks after, less five minutes, they always do. */
  lemma FourWeeksServe(made: int, clock: int)
    requires made - 21 * DAY <= clock && clock + MAX_FUTURE_SKEW <= made + 28 * DAY
    ensures Serves(made, clock)
  {
    MonthLength(MonthOf(made) - 1);
    MonthLength(MonthOf(made) + 1);
  }

  ghost predicate HasMonths(partitions: set<int>, made: int) {
    {MonthOf(made) - 1, MonthOf(made), MonthOf(made) + 1} <= partitions
  }

  lemma ServedBatchFits(partitions: set<int>, made: int, r: Request)
    requires HasMonths(partitions, made) && Serves(made, r.clock)
    ensures Fits(partitions, BatchOf(r))
  {
    var m := MonthOf(made);
    forall e | e in BatchOf(r)
      ensures MonthOf(e.ts) in partitions
    {
      AcceptedInWindow(r.inputs, r.install, r.clock, e);
      MonthBetween(e.ts, m);
    }
  }

  lemma MonthBetween(t: int, m: int)
    requires MonthStart(m - 1) <= t < MonthStart(m + 2)
    ensures MonthOf(t) in {m - 1, m, m + 1}
  {
    var k := MonthOf(t);
    if k < m - 1 {
      MonthsAreApart(k + 1, m - 1);
    } else if k > m + 1 {
      MonthsAreApart(m + 2, k);
    }
  }

  /** Every batch of the run is stored while the partitions made last serve its clock. */
  ghost predicate ServedRun<R>(f: seq<Event> -> R, w: World<R>, steps: seq<Step>)
    decreases |steps|
  {
    steps != [] ==>
      && (steps[0].Stores? && steps[0].id in w.requests ==> Serves(w.made, w.requests[steps[0].id].clock))
      && ServedRun(f, Next(f, w, steps[0]), steps[1..])
  }

  /** Every batch of the run finds a partition for each row. */
  ghost predicate AllStoresFit<R>(f: seq<Event> -> R, w: World<R>, steps: seq<Step>)
    decreases |steps|
  {
    steps != [] ==>
      && (steps[0].Stores? && steps[0].id in w.requests ==>
            Fits(w.db.partitions, BatchOf(w.requests[steps[0].id])))
      && AllStoresFit(f, Next(f, w, steps[0]), steps[1..])
  }

  /** The months made before the one at work are there, too. */
  ghost predicate MakesMonths<R>(w: World<R>) {
    && HasMonths(w.db.partitions, w.made)
    && (w.job.Making? ==> Months(MonthOf(w.tick) - 1, w.job.i) <= w.db.partitions)
  }

  lemma MakeMonthKeepsMonths<R>(w: World<R>)
    requires Ordered(w) && MakesMonths(w) && w.job.Making?
    ensures MakesMonths(MakeMonth(w, w.job.i, w.job.rollup))
  {
    var first, i := MonthOf(w.tick) - 1, w.job.i;
    assert Months(first, i + 1) == Months(first, i) + {first + i};
    if i == 2 {
      assert Months(first, 1) == {first} && Months(first, 2) == {first, first + 1};
    }
  }

  lemma DropKeepsMonths<R>(w: World<R>, m: int)
    requires Ordered(w) && MakesMonths(w) && w.job.Dropping? && m in ToDrop(w)
    ensures MakesMonths(w.(db := DropMonth(w.db, m)))
  {
    MonthLength(MonthOf(w.tick));
    MonthLength(MonthOf(w.tick) + 1);
    RetentionKeepsEnsuredPartitions(w.db.partitions, w.tick, w.tick);
  }

  lemma StepKeepsMonths<R>(f: seq<Event> -> R, w: World<R>, step: Step)
    requires Ordered(w) && MakesMonths(w)
    ensures MakesMonths(Next(f, w, step))
  {
    if step.JobSteps? && w.job.Making? {
      MakeMonthKeepsMonths(w);
    } else if step.Drops? && w.job.Dropping? && step.month in ToDrop(w) {
      DropKeepsMonths(w, step.month);
    }
  }

  /**
   * In every run no batch is turned away for want of a partition, as long as the partitions made last serve its
   * clock: a job that makes them once in four weeks is enough.
   */
  lemma {:induction false} ServedRunsFit<R>(f: seq<Event> -> R, w: World<R>, steps: seq<Step>)
    requires Inv(f, w) && MakesMonths(w) && ServedRun(f, w, steps)
    ensures AllStoresFit(f, w, steps)
    decreases |steps|
  {
    if steps == [] {
    } else {
      if steps[0].Stores? && steps[0].id in w.requests {
        ServedBatchFits(w.db.partitions, w.made, w.requests[steps[0].id]);
      }
      StepKeepsInv(f, w, steps[0]);
      StepKeepsMonths(f, w, steps[0]);
      ServedRunsFit(f, Next(f, w, steps[0]), steps[1..]);
    }
  }

  // ----- sending a batch again -----

  /** A batch is stored without effect exactly when each of its rows is there already. */
  lemma {:induction false} InsertsNothingExactly(evs: seq<Event>, batch: seq<Event>)
    ensures |InsertAll(evs, batch)| >= |evs|
    ensures InsertAll(evs, batch) == evs <==> forall e :: e in batch ==> Conflicts(evs, e)
  {
    if batch == [] {
    } else {
      var init, last := batch[..|batch| - 1], batch[|batch| - 1];
      assert batch == init + [last];
      InsertsNothingExactly(evs, init);
      assert InsertAll(evs, init) != evs ==> |InsertAll(evs, init)| > |evs| by {
        InsertGrows(evs, init);
      }
    }
  }

  lemma {:induction false} InsertGrows(evs: seq<Event>, batch: seq<Event>)
    ensures |InsertAll(evs, batch)| >= |evs| && (|InsertAll(evs, batch)| == |evs| ==> InsertAll(evs, batch) == evs)
  {
    if batch == [] {
    } else {
      InsertGrows(evs, batch[..|batch| - 1]);
    }
  }

  /** The well-formed inputs carry ids of their own, new to the table. */
  ghost predicate FreshIds(evs: seq<Event>, inputs: seq<Input>) {
    && (forall i, j :: 0 <= i < j < |inputs| && inputs[i].wellFormed && inputs[j].wellFormed ==>
          inputs[i].event.id != inputs[j].event.id)
    && (forall x, i :: x in evs && 0 <= i < |inputs| ==> x.id != inputs[i].event.id)
  }

  lemma {:induction false} AcceptedHasAll(inputs: seq<Input>, install: int, now: int, k: nat)
    requires k < |inputs| && inputs[k].wellFormed
    ensures inputs[k].event.(install := install, ts := Clamp(inputs[k].clientMs, now)) in Accepted(inputs, install, now)
  {
    var n := |inputs| - 1;
    if k < n {
      AcceptedHasAll(inputs[..n], install, now, k);
    }
  }

  /** Stored for the first time, the rows of the batch are the table's only ones with their ids. */
  lemma {:induction false} FreshBatchIsAppended(evs: seq<Event>, inputs: seq<Input>, install: int, now: int)
    requires FreshIds(evs, inputs)
    ensures InsertAll(evs, Accepted(inputs, install, now)) == evs + Accepted(inputs, install, now)
  {
    if inputs == [] {
      assert evs + [] == evs;
    } else {
      var n := |inputs| - 1;
      var rest, all := Accepted(inputs[..n], install, now), Accepted(inputs, install, now);
      FreshBatchIsAppended(evs, inputs[..n], install, now);
      if inputs[n].wellFormed {
        var e := inputs[n].event.(install := install, ts := Clamp(inputs[n].clientMs, now));
        assert all == rest + [e] && all[..|all| - 1] == rest;
        forall x | x in evs + rest
          ensures x.id != e.id
        {
          if x in rest {
            AcceptedFrom(inputs[..n], install, now, x);
          }
        }
        assert evs + all == (evs + rest) + [e];
      }
    }
  }

  /** The same server clock apart, a client clock is filed alike twice exactly if it is believed both times. */
  lemma ClampsAlikeExactly(clientMs: int, t1: int, t2: int)
    requires t1 != t2
    ensures Clamp(clientMs, t1) == Clamp(clientMs, t2) <==> InWindow(clientMs, t1) && InWindow(clientMs, t2)
  {
  }

  /**
   * A client that sends a stored batch again does no harm exactly if every event's clock is inside the window both
   * times. An event whose clock was replaced gets a new time, and is stored again.
   */
  lemma ResendIsHarmlessExactly(evs: seq<Event>, inputs: seq<Input>, install: int, t1: int, t2: int)
    requires t1 != t2 && FreshIds(evs, inputs)
    ensures var stored := InsertAll(evs, Accepted(inputs, install, t1));
      InsertAll(stored, Accepted(inputs, install, t2)) == stored <==>
        forall i :: 0 <= i < |inputs| && inputs[i].wellFormed ==>
          InWindow(inputs[i].clientMs, t1) && InWindow(inputs[i].clientMs, t2)
  {
    var stored := InsertAll(evs, Accepted(inputs, install, t1));
    FreshBatchIsAppended(evs, inputs, install, t1);
    InsertsNothingExactly(stored, Accepted(inputs, install, t2));
    forall i | 0 <= i < |inputs| && inputs[i].wellFormed
      ensures Conflicts(stored, Filed(inputs[i], install, t2)) <==>
        InWindow(inputs[i].clientMs, t1) && InWindow(inputs[i].clientMs, t2)
      ensures Filed(inputs[i], install, t2) in Accepted(inputs, install, t2)
    {
      ResentConflictsExactly(evs, inputs, install, t1, t2, i);
      AcceptedHasAll(inputs, install, t2, i);
    }
    forall e | e in Accepted(inputs, install, t2)
      ensures exists k :: 0 <= k < |inputs| && inputs[k].wellFormed && e == Filed(inputs[k], install, t2)
    {
      AcceptedFrom(inputs, install, t2, e);
      var k :| 0 <= k < |inputs| && IsAccepted(inputs[k], install, t2, e);
      assert e == Filed(inputs[k], install, t2);
    }
  }

  function Filed(i: Input, install: int, now: int): Event {
    i.event.(install := install, ts := Clamp(i.clientMs, now))
  }

  lemma ResentConflictsExactly(evs: seq<Event>, inputs: seq<Input>, install: int, t1: int, t2: int, i: nat)
    requires t1 != t2 && FreshIds(evs, inputs) && i < |inputs| && inputs[i].wellFormed
    ensures Conflicts(evs + Accepted(inputs, install, t1), Filed(inputs[i], install, t2)) <==>
      InWindow(inputs[i].clientMs, t1) && InWindow(inputs[i].clientMs, t2)
  {
    var first := Accepted(inputs, install, t1);
    ClampsAlikeExactly(inputs[i].clientMs, t1, t2);
    AcceptedHasAll(inputs, install, t1, i);
    assert Filed(inputs[i], install, t1) in evs + first;
    if Conflicts(evs + first, Filed(inputs[i], install, t2)) {
      var x :| x in evs + first && x.id == inputs[i].event.id && x.ts == Clamp(inputs[i].clientMs, t2);
      assert x in first;
      AcceptedFrom(inputs, install, t1, x);
      var k :| 0 <= k < |inputs| && IsAccepted(inputs[k], install, t1, x);
      assert k == i;
    }
  }

  /** A device without a clock, sent twice, is counted twice. */
  lemma ResentClamplessEventIsStoredTwice(now: int)
    ensures var i := Input(Event(1, 1, "", "app_open", "", 0, 0), 0, true);
      |InsertAll(InsertAll([], Accepted([i], 1, now)), Accepted([i], 1, now + 1))| == 2
  {
    var i := Input(Event(1, 1, "", "app_open", "", 0, 0), 0, true);
    OneInput(i, 1, now);
    OneInput(i, 1, now + 1);
    var a, b := Filed(i, 1, now), Filed(i, 1, now + 1);
    assert [a][..0] == [] && [b][..0] == [] && InsertAll([], []) == [] && InsertAll([], [a]) == [a];
    assert InsertAll([a], []) == [a] && !Conflicts([a], b);
    assert InsertAll([a], [b]) == [a, b];
  }
}
