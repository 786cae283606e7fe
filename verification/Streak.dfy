/** Daily play streaks over any order of uploads, and their milestone rewards (service/streak.go). */
module Streak {
  import opened Optional

  /** A date of the Iran calendar, counted in days. */
  type Day = int

  datatype Stats = Stats(streak: int, longest: int, last: Option<Day>)

  const NO_STATS := Stats(0, 0, None)

  /** The streak after a game on `today`; 0 when the date does not move it. */
  function NewStreak(s: Stats, today: Day): int {
    if s.last.None? then 1
    else if today - s.last.value < 1 then 0
    else if today - s.last.value < 2 then s.streak + 1
    else 1
  }

  function Max(a: int, b: int): int {
    if a > b then a else b
  }

  function Record(s: Stats, today: Day): Stats {
    var n := NewStreak(s, today);
    if n == 0 then s else Stats(n, Max(s.longest, n), Some(today))
  }

  function After(days: seq<Day>): Stats {
    if days == [] then NO_STATS else Record(After(days[..|days| - 1]), days[|days| - 1])
  }

  // ----- what the three columns mean -----

  /** Upload i brought a date later than every date before it. */
  ghost predicate Advances(days: seq<Day>, i: int) {
    0 <= i < |days| && forall j :: 0 <= j < i ==> days[j] < days[i]
  }

  /** The dates that counted: those that were the latest so far when they arrived. */
  ghost predicate Counted(days: seq<Day>, d: Day) {
    exists i :: Advances(days, i) && days[i] == d
  }

  ghost predicate IsLatest(days: seq<Day>, d: Day) {
    d in days && forall x :: x in days ==> x <= d
  }

  /** n is the length of the longest unbroken block of counted days that ends on d. */
  ghost predicate IsBlock(days: seq<Day>, d: Day, n: int) {
    && n >= 1
    && (forall x :: d - n < x <= d ==> Counted(days, x))
    && !Counted(days, d - n)
  }

  lemma CountedAppend(days: seq<Day>, d: Day, x: Day)
    ensures Counted(days + [d], x) <==> Counted(days, x) || (x == d && forall y :: y in days ==> y < d)
  {
    var after := days + [d];
    assert after[|days|] == d;
    assert forall j :: 0 <= j < |days| ==> after[j] == days[j] && days[j] in days;
    if Counted(days, x) {
      var i :| Advances(days, i) && days[i] == x;
      assert Advances(after, i) && after[i] == x;
    }
    if x == d && forall y :: y in days ==> y < d {
      assert Advances(after, |days|);
    }
    if Counted(after, x) {
      var i :| Advances(after, i) && after[i] == x;
      if i < |days| {
        forall j | 0 <= j < i
          ensures days[j] < days[i]
        {
          assert after[j] < after[i];
        }
        assert Advances(days, i);
      }
    }
  }

  lemma CountedIsPlayed(days: seq<Day>, d: Day)
    requires Counted(days, d)
    ensures d in days
  {
  }

  /**
   * Whatever the order of the uploads, one after the other: last-played is the latest date seen, and the streak is
   * the length of the unbroken block of counted days that ends there. StreakRuns says when overlapping uploads come
   * out like that, too.
   */
  lemma {:induction false} StreakIsTheBlock(days: seq<Day>)
    requires days != []
    ensures var s := After(days);
      s.last.Some? && IsLatest(days, s.last.value) && IsBlock(days, s.last.value, s.streak)
  {
    var n := |days| - 1;
    var before, d := days[..n], days[n];
    assert days == before + [d];
    forall x {
      CountedAppend(before, d, x);
    }
    if before != [] {
      StreakIsTheBlock(before);
      var s := After(before);
      assert Counted(before, d - 1) ==> d - 1 in before;
    }
  }

  function StreakAt(days: seq<Day>, k: nat): int
    requires k <= |days|
  {
    After(days[..k]).streak
  }

  /** The longest streak is the maximum of the streaks over all prefixes, and one of them attains it. */
  lemma {:induction false} LongestIsTheMaximum(days: seq<Day>)
    ensures forall k :: 0 <= k <= |days| ==> StreakAt(days, k) <= After(days).longest
    ensures exists k :: 0 <= k <= |days| && StreakAt(days, k) == After(days).longest
  {
    assert days[..|days|] == days;
    if days == [] {
      assert StreakAt(days, 0) == After(days).longest;
    } else {
      var n := |days| - 1;
      var before := days[..n];
      LongestIsTheMaximum(before);
      StreakStaysBelow(days);
      forall k | 0 <= k <= n
        ensures StreakAt(before, k) == StreakAt(days, k)
      {
        assert before[..k] == days[..k];
      }
      assert StreakAt(days, n + 1) == After(days).streak;
      var k :| 0 <= k <= n && StreakAt(before, k) == After(before).longest;
      assert StreakAt(days, k) == After(before).longest;
    }
  }

  lemma {:induction false} StreakStaysBelow(days: seq<Day>)
    ensures After(days).streak <= After(days).longest
  {
    if days == [] {
    } else {
      StreakStaysBelow(days[..|days| - 1]);
    }
  }

  /** Uploads in date order: every day played counts, so the streak is the plain run of days played. */
  lemma SortedUploadsAllCount(days: seq<Day>, d: Day)
    requires forall i, j :: 0 <= i < j < |days| ==> days[i] <= days[j]
    ensures Counted(days, d) <==> d in days
  {
    if d in days {
      var i :| 0 <= i < |days| && days[i] == d;
      while i > 0 && days[i - 1] == d
        invariant 0 <= i < |days| && days[i] == d
      {
        i := i - 1;
      }
      assert Advances(days, i);
    }
  }

  /** n is the length of the run of days played, however they were uploaded, that ends on d. */
  ghost predicate IsPlayedRun(days: seq<Day>, d: Day, n: int) {
    n >= 1 && (forall x :: d - n < x <= d ==> x in days) && d - n !in days
  }

  /** Every day from x to d was played. */
  ghost predicate InRun(days: seq<Day>, d: Day, x: Day) {
    x <= d && forall y :: x <= y <= d ==> y in days
  }

  lemma BlockIsRunExactly(days: seq<Day>, d: Day, n: int)
    requires IsBlock(days, d, n)
    ensures IsPlayedRun(days, d, n) <==> forall x :: InRun(days, d, x) ==> Counted(days, x)
  {
    forall x | d - n < x <= d
      ensures x in days
    {
      CountedIsPlayed(days, x);
    }
    if forall x :: InRun(days, d, x) ==> Counted(days, x) {
      assert d - n in days ==> InRun(days, d, d - n);
    }
    if IsPlayedRun(days, d, n) {
      forall x | InRun(days, d, x)
        ensures Counted(days, x)
      {
        assert x <= d - n ==> d - n in days;
      }
    }
  }

  /**
   * The streak is the run of days played up to the latest date exactly when no day of that run came in after a
   * later date.
   */
  lemma StreakIsTheRunExactly(days: seq<Day>, d: Day)
    requires IsLatest(days, d)
    ensures IsPlayedRun(days, d, After(days).streak) <==> forall x :: InRun(days, d, x) ==> Counted(days, x)
  {
    StreakIsTheBlock(days);
    assert After(days).last == Some(d);
    BlockIsRunExactly(days, d, After(days).streak);
  }

  /** A day uploaded after a later one is lost: three days in a row count as one. */
  lemma LateUploadIsLost()
    ensures After([1, 3, 2]).streak == 1 && After([1, 2, 3]).streak == 3
  {
    assert [1, 3, 2][..2] == [1, 3] && [1, 3][..1] == [1] && [1][..0] == [];
    assert [1, 2, 3][..2] == [1, 2] && [1, 2][..1] == [1];
  }

  // ----- milestones -----

  const COINS_30 := 500
  const COINS_7 := 100
  const COINS_3 := 30

  /** The reward of a streak of n days, None when n is no milestone. */
  function MilestoneCoins(n: int): Option<int> {
    if n <= 0 then None
    else if n % 30 == 0 then Some(COINS_30)
    else if n % 7 == 0 then Some(COINS_7)
    else if n % 3 == 0 then Some(COINS_3)
    else None
  }

  /** A prize a streak of n days may earn, by its divisor. */
  predicate Earns(n: int, days: int, coins: int) {
    || (days == 30 && coins == 500 && n % 30 == 0)
    || (days == 7 && coins == 100 && n % 7 == 0)
    || (days == 3 && coins == 30 && n % 3 == 0)
  }

  /** A streak earns the largest of the prizes it may, and none that it may not: 21 days earn 100, 30 earn 500. */
  lemma MilestonesEarnTheLargest(n: int)
    requires n > 0
    ensures MilestoneCoins(n).Some? ==> exists days :: Earns(n, days, MilestoneCoins(n).value)
    ensures forall days, coins :: Earns(n, days, coins) ==>
      MilestoneCoins(n).Some? && MilestoneCoins(n).value >= coins
    ensures MilestoneCoins(21) == Some(100) && MilestoneCoins(30) == Some(500) && MilestoneCoins(42) == Some(100)
  {
    assert n % 30 == 0 ==> Earns(n, 30, 500);
    assert n % 7 == 0 ==> Earns(n, 7, 100);
    assert n % 3 == 0 ==> Earns(n, 3, 30);
  }

  lemma NoDaysEarnNothing(n: int)
    requires n <= 0
    ensures MilestoneCoins(n) == None
  {
  }

  /** An upload: the date of the game, the date on which the server records it, and whether a reward insert fails. */
  datatype Upload = Upload(day: Day, now: Day, lost: bool)

  /** An inbox reward is keyed by the streak it honours and the date it was given. */
  datatype Milestone = Milestone(streak: int, given: Day)

  datatype Account = Account(stats: Stats, rewards: map<Milestone, int>)

  function Days(uploads: seq<Upload>): seq<Day> {
    seq(|uploads|, i requires 0 <= i < |uploads| => uploads[i].day)
  }

  /** RecordGamePlayed alone: a reward that already exists is not given again, a failed insert is only logged. */
  function Play(a: Account, u: Upload): Account {
    var n := NewStreak(a.stats, u.day);
    if n == 0 then a
    else
      var coins := MilestoneCoins(n);
      var m := Milestone(n, u.now);
      Account(Record(a.stats, u.day),
              if coins.Some? && !u.lost && m !in a.rewards then a.rewards[m := coins.value] else a.rewards)
  }

  function PlayAll(uploads: seq<Upload>): Account {
    if uploads == [] then Account(NO_STATS, map[]) else Play(PlayAll(uploads[..|uploads| - 1]), uploads[|uploads| - 1])
  }

  /** Upload i moved the streak to the milestone on its date, and its reward was not lost. */
  ghost predicate Reached(uploads: seq<Upload>, i: int, m: Milestone) {
    && 0 <= i < |uploads| && !uploads[i].lost && Advances(Days(uploads), i)
    && uploads[i].now == m.given && After(Days(uploads)[..i + 1]).streak == m.streak
  }

  lemma DaysAppend(before: seq<Upload>, u: Upload)
    ensures Days(before + [u]) == Days(before) + [u.day]
    ensures Days(before + [u])[..|before|] == Days(before) && Days(before + [u])[..|before| + 1] == Days(before + [u])
  {
  }

  lemma AdvancesExactlyWhenMoved(days: seq<Day>)
    requires days != []
    ensures Advances(days, |days| - 1) <==> NewStreak(After(days[..|days| - 1]), days[|days| - 1]) != 0
  {
    var n := |days| - 1;
    if n > 0 {
      StreakIsTheBlock(days[..n]);
      assert forall j :: 0 <= j < n ==> days[..n][j] == days[j] && days[j] in days[..n];
      var l :| 0 <= l < n && days[..n][l] == After(days[..n]).last.value;
    }
  }

  /** Some upload reached the milestone. */
  ghost predicate EverReached(uploads: seq<Upload>, m: Milestone) {
    exists i :: Reached(uploads, i, m)
  }

  lemma ReachedAppend(uploads: seq<Upload>, u: Upload, m: Milestone)
    ensures EverReached(uploads + [u], m) <==> EverReached(uploads, m) || Reached(uploads + [u], |uploads|, m)
  {
    var after := uploads + [u];
    forall i | 0 <= i < |uploads|
      ensures Reached(after, i, m) <==> Reached(uploads, i, m)
    {
      assert Days(after)[..i + 1] == Days(uploads)[..i + 1];
      assert forall j :: 0 <= j <= i ==> Days(after)[j] == Days(uploads)[j];
    }
    if i :| Reached(uploads, i, m) {
      assert Reached(after, i, m);
    }
  }

  /**
   * Over any history of uploads, a milestone reward exists exactly when some upload moved the streak to that
   * milestone on that date and its insert went through, and it is worth what the milestone pays.
   */
  lemma {:induction false} RewardsAreTheMilestones(uploads: seq<Upload>, m: Milestone)
    ensures var a := PlayAll(uploads);
      && a.stats == After(Days(uploads))
      && (m in a.rewards <==> MilestoneCoins(m.streak).Some? && EverReached(uploads, m))
      && (m in a.rewards ==> a.rewards[m] == MilestoneCoins(m.streak).value)
  {
    if uploads == [] {
    } else {
      var n := |uploads| - 1;
      var before, u := uploads[..n], uploads[n];
      assert uploads == before + [u];
      DaysAppend(before, u);
      RewardsAreTheMilestones(before, m);
      ReachedAppend(before, u, m);
      AdvancesExactlyWhenMoved(Days(uploads));
    }
  }

  lemma OneMoreUpload(uploads: seq<Upload>, k: nat)
    requires k < |uploads|
    ensures PlayAll(uploads[..k + 1]) == Play(PlayAll(uploads[..k]), uploads[k])
    ensures After(Days(uploads)[..k + 1]) == Record(After(Days(uploads)[..k]), uploads[k].day)
  {
    assert uploads[..k + 1][..k] == uploads[..k];
    assert Days(uploads)[..k + 1][..k] == Days(uploads)[..k];
  }

  const TWO_STREAKS :=
    [Upload(1, 9, false), Upload(2, 9, false), Upload(3, 9, false),
     Upload(5, 9, false), Upload(6, 9, false), Upload(7, 9, false)]

  lemma TwoStreaksSoFar(k: nat)
    requires k <= 6
    ensures var s := After(Days(TWO_STREAKS)[..k]);
      && s.streak == (if k <= 3 then k else k - 3)
      && s.last == if k == 0 then None else Some(TWO_STREAKS[k - 1].day)
    ensures PlayAll(TWO_STREAKS[..k]).stats == After(Days(TWO_STREAKS)[..k])
    ensures PlayAll(TWO_STREAKS[..k]).rewards == if k < 3 then map[] else map[Milestone(3, 9) := COINS_3]
  {
    if k > 0 {
      TwoStreaksSoFar(k - 1);
      OneMoreUpload(TWO_STREAKS, k - 1);
    } else {
      assert Days(TWO_STREAKS)[..0] == [];
    }
  }

  /** Two streaks that reach one milestone on the same server date, as offline games do, are paid once. */
  lemma SameDayMilestoneIsPaidOnce()
    ensures PlayAll(TWO_STREAKS).rewards == map[Milestone(3, 9) := COINS_3]
    ensures Reached(TWO_STREAKS, 2, Milestone(3, 9)) && Reached(TWO_STREAKS, 5, Milestone(3, 9))
  {
    assert TWO_STREAKS[..6] == TWO_STREAKS;
    TwoStreaksSoFar(3);
    TwoStreaksSoFar(6);
  }

  // ----- the service -----

  class StreakService {
    var accounts: map<int, Account>

    ghost function Of(user: int): Account
      reads this
    {
      if user in accounts then accounts[user] else Account(NO_STATS, map[])
    }

    /** Undisturbed; a read or an update of the stats that fails ends it, and nothing changes. */
    method RecordGamePlayed(user: int, u: Upload, statsFail: bool)
      modifies this
      ensures Of(user) == if statsFail then old(Of(user)) else Play(old(Of(user)), u)
      ensures forall other :: other != user ==> Of(other) == old(Of(other))
    {
      if statsFail {
        return;
      }
      var a := if user in accounts then accounts[user] else Account(NO_STATS, map[]);
      var newStreak := NewStreak(a.stats, u.day);
      if newStreak == 0 {
        return;
      }
      var newLongest := a.stats.longest;
      if newStreak > newLongest {
        newLongest := newStreak;
      }
      var rewards := a.rewards;
      var coins := MilestoneCoins(newStreak);
      if coins.Some? && !u.lost && Milestone(newStreak, u.now) !in rewards {
        rewards := rewards[Milestone(newStreak, u.now) := coins.value];
      }
      accounts := accounts[user := Account(Stats(newStreak, Max(a.stats.longest, newLongest), Some(u.day)), rewards)];
    }
  }
}
