/** The analytics tables as the repository updates them in place (repository/analytics.go, service/analytics.go). */
module AnalyticsStore {
  import opened Calendar
  import opened Partitions
  import opened Rollups

  /** `summarise` stands for the four INSERT … SELECT statements of a day; see Summaries.Summarise. */
  class Store<R> {
    const summarise: seq<Event> -> R
    var events: seq<Event>
    var partitions: set<int>
    var installs: map<int, Span>
    var rollups: map<int, R>
    /** The Redis flags of the days whose pass is done. */
    var flags: set<int>

    constructor (summarise: seq<Event> -> R)
      ensures State() == Db([], {}, map[], map[]) && this.summarise == summarise && flags == {}
    {
      this.summarise := summarise;
      events, partitions, installs, rollups, flags := [], {}, map[], map[], {};
    }

    ghost function State(): Db<R>
      reads this
    {
      Db(events, partitions, installs, rollups)
    }

    /** Stores a batch of one install; false when a row has no partition. */
    method InsertEvents(install: int, batch: seq<Event>) returns (ok: bool, inserted: nat)
      modifies this`events, this`installs
      ensures State() == InsertBatch(old(State()), install, batch)
      ensures ok <==> Fits(old(partitions), batch)
      ensures inserted == |events| - |old(events)|
    {
      if |batch| == 0 {
        return true, 0;
      }
      var minTs, maxTs := batch[0].ts, batch[0].ts;
      var rows := events;
      for i := 0 to |batch|
        invariant i > 0 ==> minTs == MinTs(batch[..i]) && maxTs == MaxTs(batch[..i])
        invariant i == 0 ==> minTs == batch[0].ts && maxTs == batch[0].ts
        invariant rows == InsertAll(events, batch[..i]) && |rows| >= |events|
      {
        var e := batch[i];
        assert batch[..i + 1][..i] == batch[..i];
        if e.ts < minTs {
          minTs := e.ts;
        }
        if e.ts > maxTs {
          maxTs := e.ts;
        }
        if !Conflicts(rows, e) {
          rows := rows + [e];
        }
      }
      assert batch[..|batch|] == batch;
      if !Fits(partitions, batch) {
        return false, 0;
      }
      ok, inserted := true, |rows| - |events|;
      events := rows;
      installs := Widen(installs, install, Span(IranDay(minTs), IranDay(maxTs)));
    }

    method EnsureAnalyticsPartitions(now: int, ahead: nat)
      modifies this`partitions
      ensures partitions == old(partitions) + Months(MonthOf(now) - 1, ahead + 2)
      ensures ahead == 1 ==> State() == EnsurePartitions(old(State()), now)
    {
      var first := MonthOf(now) - 1;
      for i := 0 to ahead + 2
        invariant partitions == old(partitions) + Months(first, i)
      {
        partitions := partitions + {first + i};
      }
      assert Months(first, 1) == {first} && Months(first, 2) == {first, first + 1};
    }

    method DropOldPartitions(cutoff: int) returns (dropped: set<int>)
      modifies this`partitions, this`events
      ensures State() == DropOld(old(State()), cutoff)
      ensures dropped == Expired(old(partitions), cutoff)
    {
      dropped := ExpiredNames(partitions, cutoff);
      SelectSame(events, (e: Event) => MonthOf(e.ts) !in dropped,
                 (e: Event) => MonthOf(e.ts) !in Expired(old(partitions), cutoff));
      partitions := partitions - dropped;
      events := Select(events, (e: Event) => MonthOf(e.ts) !in dropped);
    }

    /** One transaction: the day's rows are replaced by fresh ones. */
    method RollupAnalyticsDay(day: int)
      modifies this`rollups
      ensures State() == RollupDay(summarise, old(State()), day)
    {
      var start := DayStart(day);
      var end := start + DAY;
      rollups := rollups - {day};
      var rows := Select(events, (e: Event) => start <= e.ts < end);
      assert rows == OnDay(events, day) by {
        SelectSame(events, (e: Event) => start <= e.ts < end, (e: Event) => DayStart(day) <= e.ts < DayStart(day + 1));
      }
      rollups := rollups[day := summarise(rows)];
    }

    /** The lookback days, oldest first. */
    method RebuildLookback(today: int)
      modifies this`rollups
      ensures State() == RollupDays(summarise, old(State()), today - LOOKBACK_DAYS, LOOKBACK_DAYS)
    {
      var i := LOOKBACK_DAYS;
      while i >= 1
        invariant 0 <= i <= LOOKBACK_DAYS
        invariant State() == RollupDays(summarise, old(State()), today - LOOKBACK_DAYS, LOOKBACK_DAYS - i)
      {
        RollupAnalyticsDay(today - i);
        i := i - 1;
      }
    }

    /** The once-a-day pass: the lookback days, then retention, then the day's flag. */
    method RunDailyPass(now: int)
      modifies this`events, this`partitions, this`rollups, this`flags
      ensures IranDay(now) in old(flags) ==> State() == old(State())
      ensures IranDay(now) !in old(flags) ==> State() == DailyPass(summarise, old(State()), now, LOOKBACK_DAYS)
      ensures flags == old(flags) + {IranDay(now)}
    {
      var today := IranDay(now);
      if today in flags {
        return;
      }
      RebuildLookback(today);
      var dropped := DropOldPartitions(AddMonths(now, -RETENTION_MONTHS));
      flags := flags + {today};
    }
  }
}
