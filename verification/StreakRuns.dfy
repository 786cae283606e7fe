/** Uploads of one user that overlap: the stats are read in one statement and written in another (service/streak.go). */
module StreakRuns {
  import opened Optional
  import opened Streak

  /** An upload that has read the stats and still has to write them. */
  datatype Request = Request(day: Day, read: Stats)

  /** `played` lists the uploads in the order they took effect; no operation reads it. */
  datatype State = State(stats: Stats, requests: map<int, Request>, played: seq<Day>)

  const FRESH := State(NO_STATS, map[], [])

  datatype Step =
    | Reads(id: int, day: Day)
    | Writes(id: int)
    | Fails(id: int)

  /** UpdateStreak: the longest streak only grows, the other two columns take the new values. */
  function Written(s: Stats, r: Request): Stats {
    var n := NewStreak(r.read, r.day);
    Stats(n, Max(s.longest, Max(r.read.longest, n)), Some(r.day))
  }

  /** A date that does not move the streak it read writes nothing. */
  function Next(s: State, step: Step): State {
    match step
    case Reads(id, day) =>
      if NewStreak(s.stats, day) == 0 then s.(played := s.played + [day])
      else if id in s.requests then s
      else s.(requests := s.requests[id := Request(day, s.stats)])
    case Writes(id) =>
      if id !in s.requests then s
      else
        var r := s.requests[id];
        State(Written(s.stats, r), s.requests - {id}, s.played + [r.day])
    case Fails(id) => s.(requests := s.requests - {id})
  }

  function Run(s: State, steps: seq<Step>): State
    decreases |steps|
  {
    if steps == [] then s else Run(Next(s, steps[0]), steps[1..])
  }

  /** The effect of each step on the requests; only a write changes the stats. */
  ghost predicate TakesEffect(s: State, step: Step, t: State) {
    && (t.stats != s.stats ==> step.Writes? && step.id in s.requests)
    && if step.Reads? then
         t.requests ==
           if NewStreak(s.stats, step.day) == 0 || step.id in s.requests then s.requests
           else s.requests[step.id := Request(step.day, s.stats)]
       else t.requests == s.requests - {step.id}
  }

  /** The last step of a run acts on what the steps before it left. */
  lemma {:induction false} LastStepActs(s: State, steps: seq<Step>, step: Step)
    ensures TakesEffect(Run(s, steps), step, Run(s, steps + [step]))
    decreases |steps|
  {
    if steps == [] {
      assert Run(Next(s, step), []) == Next(s, step);
    } else {
      assert (steps + [step])[1..] == steps[1..] + [step];
      LastStepActs(Next(s, steps[0]), steps[1..], step);
    }
  }

  // ----- what every run keeps -----

  /** The columns are in order: a streak counts from a first day on, and never exceeds the longest. */
  ghost predicate InOrder(s: Stats) {
    && 0 <= s.streak <= s.longest
    && (s.last.None? <==> s.streak == 0)
  }

  ghost predicate Inv(s: State) {
    && InOrder(s.stats)
    && forall id :: id in s.requests ==>
         InOrder(s.requests[id].read) && s.requests[id].read.longest <= s.stats.longest
         && NewStreak(s.requests[id].read, s.requests[id].day) != 0
  }

  /** In every interleaving the longest streak never falls and covers the current one. */
  lemma {:induction false} LongestNeverFalls(s: State, steps: seq<Step>)
    requires Inv(s)
    ensures Inv(Run(s, steps)) && s.stats.longest <= Run(s, steps).stats.longest
    decreases |steps|
  {
    if steps == [] {
    } else {
      StepKeepsInv(s, steps[0]);
      LongestNeverFalls(Next(s, steps[0]), steps[1..]);
    }
  }

  lemma StepKeepsInv(s: State, step: Step)
    requires Inv(s)
    ensures Inv(Next(s, step)) && s.stats.longest <= Next(s, step).stats.longest
  {
    if step.Writes? && step.id in s.requests {
      var r := s.requests[step.id];
      assert NewStreak(r.read, r.day) >= 1;
    }
  }

  // ----- when overlapping uploads do no harm -----

  /**
   * The write comes out as if the upload had run alone now: the streak it computed is the one it would compute, or
   * the day was counted with that streak in the meantime.
   */
  predicate AsAlone(now: Stats, r: Request) {
    || NewStreak(r.read, r.day) == NewStreak(now, r.day)
    || (now.last == Some(r.day) && now.streak == NewStreak(r.read, r.day))
  }

  lemma WritesAsAloneExactly(s: State, id: int)
    requires Inv(s) && id in s.requests
    ensures Next(s, Writes(id)).stats == Record(s.stats, s.requests[id].day) <==> AsAlone(s.stats, s.requests[id])
  {
    var r := s.requests[id];
    assert NewStreak(r.read, r.day) >= 1;
  }

  /** Nobody wrote since the upload read: that is enough. */
  lemma UndisturbedWriteIsAsAlone(s: State, id: int)
    requires id in s.requests && s.requests[id].read == s.stats
    ensures AsAlone(s.stats, s.requests[id])
  {
  }

  /** Nothing in between: reading and writing is recording. */
  lemma UndisturbedUpload(s: State, id: int, day: Day)
    requires Inv(s) && id !in s.requests
    ensures var t := Next(s, Reads(id, day));
      var u := if id in t.requests then Next(t, Writes(id)) else t;
      u.stats == Record(s.stats, day) && u.requests == s.requests && u.played == s.played + [day]
  {
    var t := Next(s, Reads(id, day));
    StepKeepsInv(s, Reads(id, day));
    if id in t.requests {
      UndisturbedWriteIsAsAlone(t, id);
      WritesAsAloneExactly(t, id);
    }
  }

  /** The stats are those of the uploads one after the other, in the order they took effect. */
  ghost predicate Serial(s: State) {
    s.stats == After(s.played)
  }

  lemma OneMoreDay(played: seq<Day>, day: Day)
    ensures After(played + [day]) == Record(After(played), day)
  {
    assert (played + [day])[..|played|] == played;
  }

  /** One step keeps it so exactly if it is no write, or one that comes out as if alone. */
  lemma StepIsSerialExactly(s: State, step: Step)
    requires Inv(s) && Serial(s)
    ensures Serial(Next(s, step)) <==>
      (step.Writes? && step.id in s.requests ==> AsAlone(s.stats, s.requests[step.id]))
  {
    match step
    case Reads(id, day) => OneMoreDay(s.played, day);
    case Writes(id) =>
      if id in s.requests {
        OneMoreDay(s.played, s.requests[id].day);
        WritesAsAloneExactly(s, id);
      }
    case Fails(_) =>
  }

  ghost predicate SerialRun(s: State, steps: seq<Step>)
    decreases |steps|
  {
    steps != [] ==>
      && (steps[0].Writes? && steps[0].id in s.requests ==> AsAlone(s.stats, s.requests[steps[0].id]))
      && SerialRun(Next(s, steps[0]), steps[1..])
  }

  lemma {:induction false} SerialRunsAreSerial(s: State, steps: seq<Step>)
    requires Inv(s) && Serial(s) && SerialRun(s, steps)
    ensures Inv(Run(s, steps)) && Serial(Run(s, steps))
    decreases |steps|
  {
    if steps == [] {
    } else {
      StepKeepsInv(s, steps[0]);
      StepIsSerialExactly(s, steps[0]);
      SerialRunsAreSerial(Next(s, steps[0]), steps[1..]);
    }
  }

  /**
   * Hence with overlapping uploads, as long as each write comes out as if alone, last-played is the latest date and
   * the streak the unbroken block of counted days that ends there.
   */
  lemma StreakIsTheBlockInRuns(steps: seq<Step>)
    requires SerialRun(FRESH, steps)
    ensures var t := Run(FRESH, steps);
      t.played != [] ==>
        t.stats.last.Some? && IsLatest(t.played, t.stats.last.value)
        && IsBlock(t.played, t.stats.last.value, t.stats.streak)
  {
    SerialRunsAreSerial(FRESH, steps);
    if Run(FRESH, steps).played != [] {
      StreakIsTheBlock(Run(FRESH, steps).played);
    }
  }

  // ----- when they do -----

  const OVERLAP := [Reads(0, 1), Writes(0), Reads(1, 3), Reads(2, 2), Writes(1), Writes(2)]

  /** Both uploads read the stats of day 1; day 3 is written, then day 2, and last-played is day 2. */
  lemma OverlapMovesLastPlayedBack()
    ensures var t := Run(FRESH, OVERLAP);
      t.played == [1, 3, 2] && t.stats == Stats(2, 2, Some(2)) && After(t.played).last == Some(3)
  {
    var s1 := Stats(1, 1, Some(1));
    var t2 := State(s1, map[], [1]);
    var t4 := State(s1, map[1 := Request(3, s1), 2 := Request(2, s1)], [1]);
    var t5 := State(Stats(1, 1, Some(3)), map[2 := Request(2, s1)], [1, 3]);
    var t6 := State(Stats(2, 2, Some(2)), map[], [1, 3, 2]);
    assert t2 == Next(Next(FRESH, Reads(0, 1)), Writes(0));
    assert t4 == Next(Next(t2, Reads(1, 3)), Reads(2, 2));
    assert t5 == Next(t4, Writes(1));
    assert t6 == Next(t5, Writes(2));
    assert OVERLAP[1..][1..] == [Reads(1, 3), Reads(2, 2), Writes(1), Writes(2)];
    assert OVERLAP[1..][1..][1..][1..] == [Writes(1), Writes(2)];
    assert [Writes(1), Writes(2)][1..] == [Writes(2)] && [Writes(2)][1..] == [];
    assert Run(t6, []) == t6;
    assert Run(t4, [Writes(1), Writes(2)]) == Run(t5, [Writes(2)]);
    assert Run(t2, OVERLAP[1..][1..]) == Run(t4, [Writes(1), Writes(2)]);
    assert [1, 3, 2][..2] == [1, 3] && [1, 3][..1] == [1] && [1][..0] == [];
    assert After([1, 3]).last == Some(3);
  }
}
