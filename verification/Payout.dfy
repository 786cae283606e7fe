/** The Daily Challenge payout (RunDailyPayout in service/daily.go, GetDailyLeaderboard in repository/daily.go). */
module Payout {
  import opened Optional
  import opened Economy
  import CoinStore

  const COMPLETION_COINS := 10

  /** A player's best score on the board's day. */
  datatype Row = Row(user: Id, score: int)

  /** One row a player. */
  ghost predicate IsBoard(board: seq<Row>) {
    forall i, j :: 0 <= i < j < |board| ==> board[i].user != board[j].user
  }

  /** RANK() over the scores, best first: one more than the number of strictly better players. */
  function Rank(board: seq<Row>, score: int): nat {
    1 + Better(board, score)
  }

  function Better(board: seq<Row>, score: int): nat {
    if board == [] then 0 else (if board[|board| - 1].score > score then 1 else 0) + Better(board[..|board| - 1], score)
  }

  function RankCoins(rank: nat): Option<int> {
    if rank == 1 then Some(100) else if rank == 2 then Some(60) else if rank == 3 then Some(30) else None
  }

  /** A reward the payout owes. */
  datatype Due = Due(user: Id, kind: string, coins: int)

  function DuesOf(board: seq<Row>, r: Row): seq<Due> {
    var prize := RankCoins(Rank(board, r.score));
    [Due(r.user, "daily_done", COMPLETION_COINS)] + if prize.Some? then [Due(r.user, "daily_rank", prize.value)] else []
  }

  /** Everything owed to the players of `rows`, ranked on the whole board, in the order it is paid. */
  function Dues(board: seq<Row>, rows: seq<Row>): seq<Due> {
    if rows == [] then [] else Dues(board, rows[..|rows| - 1]) + DuesOf(board, rows[|rows| - 1])
  }

  /** The inbox, and the players told about a new reward, in order. */
  datatype Inbox = Inbox(store: State, told: seq<Due>)

  /**
   * What goes wrong in a run: the dues whose insert fails, and those whose new row is not announced, because the
   * send fails, which nobody looks at, or the process dies first and takes the rest of the run with it.
   */
  datatype Faults = Faults(fails: set<int>, mute: set<int>)

  const NO_FAULTS := Faults({}, {})

  /** One insert; a failed one changes nothing, and only a new row is announced. */
  function AwardOne(s: Inbox, date: string, d: Due, fails: bool, mute: bool): Inbox {
    if fails then s
    else
      var (t, o) := CreateReward(s.store, d.user, d.kind, date, d.coins);
      Inbox(t, if o == Done && !mute then s.told + [d] else s.told)
  }

  /** Pays the dues in order. */
  function Pay(s: Inbox, date: string, dues: seq<Due>, faults: Faults): Inbox {
    if dues == [] then s
    else
      var n := |dues| - 1;
      AwardOne(Pay(s, date, dues[..n], faults), date, dues[n], n in faults.fails, n in faults.mute)
  }

  // ----- what a run leaves behind -----

  ghost predicate DistinctDues(dues: seq<Due>) {
    forall i, j :: 0 <= i < j < |dues| ==> !(dues[i].user == dues[j].user && dues[i].kind == dues[j].kind)
  }

  lemma {:induction false} DuesAreOfTheRows(board: seq<Row>, rows: seq<Row>, d: Due)
    ensures d in Dues(board, rows) <==> exists r :: r in rows && d in DuesOf(board, r)
  {
    if rows == [] {
    } else {
      var n := |rows| - 1;
      DuesAreOfTheRows(board, rows[..n], d);
      assert rows == rows[..n] + [rows[n]];
    }
  }

  /** A board owes each player each kind of reward at most once. */
  lemma {:induction false} DuesAreDistinct(board: seq<Row>, rows: seq<Row>)
    requires IsBoard(rows)
    ensures DistinctDues(Dues(board, rows))
  {
    if rows == [] {
    } else {
      var n := |rows| - 1;
      DuesAreDistinct(board, rows[..n]);
      forall d | d in Dues(board, rows[..n])
        ensures d.user != rows[n].user
      {
        DuesAreOfTheRows(board, rows[..n], d);
        var r :| r in rows[..n] && d in DuesOf(board, r);
        var i :| 0 <= i < n && rows[i] == r;
      }
      var before, all := Dues(board, rows[..n]), Dues(board, rows);
      forall i, j | 0 <= i < j < |all|
        ensures !(all[i].user == all[j].user && all[i].kind == all[j].kind)
      {
        if i < |before| && j >= |before| {
          assert all[i] == before[i] && all[i] in before;
        }
      }
    }
  }

  /** The row paying d is in the inbox. */
  ghost predicate Has(s: Economy.State, date: string, d: Due) {
    HasReward(s.rewards, d.user, d.kind, date)
  }

  function RowOf(d: Due, date: string): Reward {
    Reward(d.user, d.kind, date, d.coins, false)
  }

  /** Owed at the start: a due of a known user that has no row yet. */
  ghost predicate Missing(s: State, date: string, dues: seq<Due>, d: Due) {
    d in dues && d.user in s.users && !Has(s, date, d)
  }

  /**
   * How the inbox s can differ from where it started: rows of missing dues were added, and each was announced once,
   * or at most once if announcements can be lost.
   */
  ghost predicate Between(start: Inbox, s: Inbox, date: string, dues: seq<Due>, lossy: bool) {
    && s.store == start.store.(rewards := s.store.rewards)
    && (forall r :: r in start.store.rewards ==> r in s.store.rewards)
    && (forall r :: r in s.store.rewards ==>
          r in start.store.rewards || exists d :: Missing(start.store, date, dues, d) && r == RowOf(d, date))
    && (forall d :: ToldWithin(start, s, d, Missing(start.store, date, dues, d) && Has(s.store, date, d), lossy))
  }

  /** d was announced as often as at the start, and once more if it was added. */
  ghost predicate ToldWithin(start: Inbox, s: Inbox, d: Due, added: bool, lossy: bool) {
    var more := multiset(s.told)[d] as int - multiset(start.told)[d];
    0 <= more <= (if added then 1 else 0) && (!lossy && added ==> more == 1)
  }

  lemma StartIsBetween(s: Inbox, date: string, dues: seq<Due>, lossy: bool)
    ensures Between(s, s, date, dues, lossy)
  {
  }

  lemma AddedRow(s: State, date: string, d: Due, x: Due)
    requires d.user in s.users && !Has(s, date, d)
    ensures var t := CreateReward(s, d.user, d.kind, date, d.coins).0;
      && t == s.(rewards := s.rewards + [RowOf(d, date)])
      && (Has(t, date, x) <==> Has(s, date, x) || (x.user == d.user && x.kind == d.kind))
  {
    var t := s.rewards + [RowOf(d, date)];
    assert forall r :: r in t <==> r in s.rewards || r == RowOf(d, date);
    assert RowOf(d, date) in t;
  }

  lemma AwardTells(start: Inbox, s: Inbox, date: string, dues: seq<Due>, d: Due, mute: bool, lossy: bool, x: Due)
    requires Between(start, s, date, dues, lossy) && DistinctDues(dues) && d in dues && (mute ==> lossy)
    requires d.user in s.store.users && !Has(s.store, date, d)
    ensures var t := AwardOne(s, date, d, false, mute);
      ToldWithin(start, t, x, Missing(start.store, date, dues, x) && Has(t.store, date, x), lossy)
  {
    assert Missing(start.store, date, dues, d);
    AddedRow(s.store, date, d, x);
    if x in dues && x.user == d.user && x.kind == d.kind {
      SameDue(dues, x, d);
    }
    assert ToldWithin(start, s, x, Missing(start.store, date, dues, x) && Has(s.store, date, x), lossy);
  }

  lemma AwardKeepsBetween(start: Inbox, s: Inbox, date: string, dues: seq<Due>, d: Due, fails: bool, mute: bool,
                          lossy: bool)
    requires Between(start, s, date, dues, lossy) && DistinctDues(dues) && d in dues && (mute ==> lossy)
    ensures Between(start, AwardOne(s, date, d, fails, mute), date, dues, lossy)
  {
    if !fails && d.user in s.store.users && !Has(s.store, date, d) {
      forall x {
        AwardTells(start, s, date, dues, d, mute, lossy, x);
      }
      AddedRow(s.store, date, d, d);
      assert Missing(start.store, date, dues, d);
    }
  }

  lemma SameDue(dues: seq<Due>, x: Due, d: Due)
    requires DistinctDues(dues) && x in dues && d in dues && x.user == d.user && x.kind == d.kind
    ensures x == d
  {
    var i :| 0 <= i < |dues| && dues[i] == x;
    var j :| 0 <= j < |dues| && dues[j] == d;
  }

  lemma {:induction false} PayKeepsBetween(start: Inbox, s: Inbox, date: string, dues: seq<Due>, n: nat, faults: Faults,
                                           lossy: bool)
    requires Between(start, s, date, dues, lossy) && DistinctDues(dues) && n <= |dues| && (faults.mute != {} ==> lossy)
    ensures Between(start, Pay(s, date, dues[..n], faults), date, dues, lossy)
  {
    if n == 0 {
    } else {
      PayKeepsBetween(start, s, date, dues, n - 1, faults, lossy);
      assert dues[..n][..n - 1] == dues[..n - 1];
      AwardKeepsBetween(start, Pay(s, date, dues[..n - 1], faults), date, dues, dues[n - 1], n - 1 in faults.fails,
                        n - 1 in faults.mute, lossy);
    }
  }

  /** A run whose inserts all succeed leaves nothing owed. */
  lemma {:induction false} CleanPayLeavesNothingOwed(start: Inbox, s: Inbox, date: string, dues: seq<Due>, n: nat,
                                                     faults: Faults, d: Due)
    requires Between(start, s, date, dues, true) && DistinctDues(dues) && n <= |dues| && faults.fails == {}
    requires d.user in start.store.users
    ensures Has(s.store, date, d) || d in dues[..n] ==> Has(Pay(s, date, dues[..n], faults).store, date, d)
  {
    if n == 0 {
    } else {
      var before := Pay(s, date, dues[..n - 1], faults);
      CleanPayLeavesNothingOwed(start, s, date, dues, n - 1, faults, d);
      PayKeepsBetween(start, s, date, dues, n - 1, faults, true);
      assert dues[..n][..n - 1] == dues[..n - 1] && dues[..n] == dues[..n - 1] + [dues[n - 1]];
      var x := dues[n - 1];
      if x.user in before.store.users && !Has(before.store, date, x) {
        AddedRow(before.store, date, x, d);
      }
    }
  }

  /** The inbox after a sequence of runs, each with its own faults. */
  function PayRuns(s: Inbox, date: string, dues: seq<Due>, runs: seq<Faults>): Inbox {
    if runs == [] then s else Pay(PayRuns(s, date, dues, runs[..|runs| - 1]), date, dues, runs[|runs| - 1])
  }

  /** The last run pays on top of the ones before it, and a run whose inserts all fail pays nothing. */
  lemma {:induction false} FailingRunPaysNothing(s: Inbox, date: string, dues: seq<Due>, runs: seq<Faults>,
                                                 faults: Faults)
    ensures PayRuns(s, date, dues, runs + [faults]) == Pay(PayRuns(s, date, dues, runs), date, dues, faults)
    ensures (forall i :: 0 <= i < |dues| ==> i in faults.fails) ==>
      Pay(PayRuns(s, date, dues, runs), date, dues, faults) == PayRuns(s, date, dues, runs)
  {
    assert (runs + [faults])[..|runs|] == runs;
    AllFail(PayRuns(s, date, dues, runs), date, dues, faults);
  }

  lemma {:induction false} AllFail(s: Inbox, date: string, dues: seq<Due>, faults: Faults)
    ensures (forall i :: 0 <= i < |dues| ==> i in faults.fails) ==> Pay(s, date, dues, faults) == s
  {
    if dues != [] {
      AllFail(s, date, dues[..|dues| - 1], faults);
    }
  }

  ghost predicate AllAnnounce(runs: seq<Faults>) {
    forall faults :: faults in runs ==> faults.mute == {}
  }

  lemma {:induction false} RunsStayBetween(start: Inbox, date: string, dues: seq<Due>, runs: seq<Faults>, lossy: bool)
    requires DistinctDues(dues) && (!lossy ==> AllAnnounce(runs))
    ensures Between(start, PayRuns(start, date, dues, runs), date, dues, lossy)
  {
    if runs == [] {
      StartIsBetween(start, date, dues, lossy);
    } else {
      var n := |runs| - 1;
      assert runs[n] in runs && forall faults :: faults in runs[..n] ==> faults in runs;
      RunsStayBetween(start, date, dues, runs[..n], lossy);
      assert dues[..|dues|] == dues;
      PayKeepsBetween(start, PayRuns(start, date, dues, runs[..n]), date, dues, |dues|, runs[n], lossy);
    }
  }

  /** A row is there in the end exactly if it was there at the start or pays a due that was missing. */
  lemma CompleteRows(start: Inbox, t: Inbox, date: string, dues: seq<Due>, r: Reward)
    requires Between(start, t, date, dues, true) && DistinctDues(dues)
    requires forall d :: d in dues && d.user in start.store.users ==> Has(t.store, date, d)
    ensures r in t.store.rewards <==>
      r in start.store.rewards || exists d :: Missing(start.store, date, dues, d) && r == RowOf(d, date)
  {
    if exists d :: Missing(start.store, date, dues, d) && r == RowOf(d, date) {
      var d :| Missing(start.store, date, dues, d) && r == RowOf(d, date);
      var row :| row in t.store.rewards && row.user == d.user && row.kind == d.kind && row.ref == date;
      var x :| Missing(start.store, date, dues, x) && row == RowOf(x, date);
      SameDue(dues, x, d);
    }
  }

  lemma LossyIsWeaker(start: Inbox, s: Inbox, date: string, dues: seq<Due>, lossy: bool)
    requires Between(start, s, date, dues, lossy)
    ensures Between(start, s, date, dues, true)
  {
    forall d
      ensures ToldWithin(start, s, d, Missing(start.store, date, dues, d) && Has(s.store, date, d), true)
    {
      assert ToldWithin(start, s, d, Missing(start.store, date, dues, d) && Has(s.store, date, d), lossy);
    }
  }

  lemma CleanRunCompletes(start: Inbox, s: Inbox, date: string, dues: seq<Due>, faults: Faults, lossy: bool)
    requires Between(start, s, date, dues, lossy) && DistinctDues(dues)
    requires faults.fails == {} && (faults.mute != {} ==> lossy)
    ensures var t := Pay(s, date, dues, faults);
      && Between(start, t, date, dues, lossy)
      && forall d :: d in dues && d.user in start.store.users ==> Has(t.store, date, d)
  {
    assert dues[..|dues|] == dues;
    PayKeepsBetween(start, s, date, dues, |dues|, faults, lossy);
    LossyIsWeaker(start, s, date, dues, lossy);
    forall d | d in dues && d.user in start.store.users
      ensures Has(Pay(s, date, dues, faults).store, date, d)
    {
      CleanPayLeavesNothingOwed(start, s, date, dues, |dues|, faults, d);
    }
  }

  /** Wherever a run whose inserts succeed starts from on the way, it ends with the same rows. */
  lemma CleanRunPaysEverything(start: Inbox, s: Inbox, date: string, dues: seq<Due>, faults: Faults, lossy: bool,
                               r: Reward, d: Due)
    requires Between(start, s, date, dues, lossy) && DistinctDues(dues)
    requires faults.fails == {} && (faults.mute != {} ==> lossy)
    ensures var t := Pay(s, date, dues, faults);
      && (r in t.store.rewards <==>
           r in start.store.rewards || exists x :: Missing(start.store, date, dues, x) && r == RowOf(x, date))
      && ToldWithin(start, t, d, Missing(start.store, date, dues, d), lossy)
  {
    CleanRunCompletes(start, s, date, dues, faults, lossy);
    var t := Pay(s, date, dues, faults);
    LossyIsWeaker(start, t, date, dues, lossy);
    CompleteRows(start, t, date, dues, r);
    assert ToldWithin(start, t, d, Missing(start.store, date, dues, d) && Has(t.store, date, d), lossy);
  }

  /**
   * Convergence: for a fixed board, any sequence of runs with any faults, ending in one whose inserts succeed, leaves
   * exactly the reward rows a single clean run would have left. Each of them was announced at most once, and exactly
   * once if no run lost an announcement.
   */
  lemma PayoutConverges(start: Inbox, date: string, board: seq<Row>, runs: seq<Faults>, last: Faults, r: Reward, d: Due)
    requires IsBoard(board) && last.fails == {}
    ensures var dues := Dues(board, board);
      var t := Pay(PayRuns(start, date, dues, runs), date, dues, last);
      var once := Pay(start, date, dues, NO_FAULTS);
      && (r in t.store.rewards <==> r in once.store.rewards)
      && ToldWithin(start, t, d, Missing(start.store, date, dues, d), true)
      && (AllAnnounce(runs) && last.mute == {} ==> multiset(t.told)[d] == multiset(once.told)[d])
  {
    var dues := Dues(board, board);
    DuesAreDistinct(board, board);
    StartIsBetween(start, date, dues, false);
    CleanRunPaysEverything(start, start, date, dues, NO_FAULTS, false, r, d);
    RunsStayBetween(start, date, dues, runs, true);
    CleanRunPaysEverything(start, PayRuns(start, date, dues, runs), date, dues, last, true, r, d);
    if AllAnnounce(runs) && last.mute == {} {
      RunsStayBetween(start, date, dues, runs, false);
      CleanRunPaysEverything(start, PayRuns(start, date, dues, runs), date, dues, last, false, r, d);
    }
  }

  // ----- ranks -----

  /** The players who did strictly better. */
  ghost function BetterUsers(board: seq<Row>, score: int): set<Id> {
    set r | r in board && r.score > score :: r.user
  }

  lemma OneMoreBetter(board: seq<Row>, row: Row, score: int)
    requires IsBoard(board + [row])
    ensures row.user !in BetterUsers(board, score)
    ensures BetterUsers(board + [row], score) ==
      BetterUsers(board, score) + if row.score > score then {row.user} else {}
  {
    var all := board + [row];
    forall r | r in board
      ensures r.user != row.user
    {
      var i :| 0 <= i < |board| && board[i] == r;
      assert all[i] == r && all[|board|] == row;
    }
  }

  lemma {:induction false} BetterCounts(board: seq<Row>, score: int)
    requires IsBoard(board)
    ensures Better(board, score) == |BetterUsers(board, score)|
  {
    if board == [] {
    } else {
      var n := |board| - 1;
      BetterCounts(board[..n], score);
      assert board == board[..n] + [board[n]];
      OneMoreBetter(board[..n], board[n], score);
    }
  }

  /**
   * Everyone on the board is owed the completion reward, and a prize exactly when fewer than three players
   * did strictly better, equal scores sharing rank and prize.
   */
  lemma DuesAreTheCompetitionRanks(board: seq<Row>, r: Row, coins: int)
    requires IsBoard(board) && r in board
    ensures Due(r.user, "daily_done", COMPLETION_COINS) in Dues(board, board)
    ensures Due(r.user, "daily_rank", coins) in Dues(board, board) <==>
      var better := |BetterUsers(board, r.score)|;
      (better == 0 && coins == 100) || (better == 1 && coins == 60) || (better == 2 && coins == 30)
  {
    BetterCounts(board, r.score);
    DuesAreOfTheRows(board, board, Due(r.user, "daily_done", COMPLETION_COINS));
    var prize := Due(r.user, "daily_rank", coins);
    DuesAreOfTheRows(board, board, prize);
    assert Due(r.user, "daily_done", COMPLETION_COINS) in DuesOf(board, r);
    if prize in Dues(board, board) {
      var x :| x in board && prize in DuesOf(board, x);
      var i :| 0 <= i < |board| && board[i] == x;
      var j :| 0 <= j < |board| && board[j] == r;
    }
  }

  // ----- the service -----

  lemma PayOneMore(s: Inbox, date: string, dues: seq<Due>, d: Due, faults: Faults)
    ensures Pay(s, date, dues + [d], faults) ==
      AwardOne(Pay(s, date, dues, faults), date, d, |dues| in faults.fails, |dues| in faults.mute)
  {
    assert (dues + [d])[..|dues|] == dues;
  }

  lemma OneMoreRowIsOwed(board: seq<Row>, i: nat)
    requires i < |board|
    ensures Dues(board, board[..i + 1]) == Dues(board, board[..i]) + DuesOf(board, board[i])
  {
    assert board[..i + 1][..i] == board[..i];
  }

  /** One row is owed one reward or two. */
  lemma OneRowIsOwed(dues: seq<Due>, board: seq<Row>, row: Row)
    ensures var done, prize := Due(row.user, "daily_done", COMPLETION_COINS), RankCoins(Rank(board, row.score));
      && (prize.None? ==> |DuesOf(board, row)| == 1 && dues + [done] == dues + DuesOf(board, row))
      && (prize.Some? ==>
            && |DuesOf(board, row)| == 2
            && dues + [done] + [Due(row.user, "daily_rank", prize.value)] == dues + DuesOf(board, row))
  {
  }

  class PayoutService {
    const store: CoinStore.Store
    ghost var told: seq<Due>

    constructor (store: CoinStore.Store)
      ensures this.store == store && told == []
    {
      this.store, told := store, [];
    }

    ghost function Contents(): Inbox
      reads this, store
    {
      Inbox(store.Contents(), told)
    }

    method AwardReward(date: string, d: Due, fails: bool, mute: bool) returns (ok: bool)
      modifies this, store`rewards
      ensures Contents() == AwardOne(old(Contents()), date, d, fails, mute)
      ensures ok <==> !fails
    {
      if fails {
        return false;
      }
      var created := store.CreateInboxReward(d.user, d.kind, date, d.coins);
      if created == Done && !mute {
        told := told + [d];
      }
      ok := true;
    }

    /** The completion reward of one row and, for the first three ranks, the prize. */
    method PayRow(date: string, board: seq<Row>, row: Row, k: nat, faults: Faults, ghost start: Inbox,
                  ghost dues: seq<Due>)
      returns (ok: bool, next: nat)
      requires k == |dues| && Contents() == Pay(start, date, dues, faults)
      modifies this, store`rewards
      ensures Contents() == Pay(start, date, dues + DuesOf(board, row), faults)
      ensures next == k + |DuesOf(board, row)|
      ensures ok <==> forall j :: k <= j < next ==> j !in faults.fails
    {
      var done := Due(row.user, "daily_done", COMPLETION_COINS);
      ghost var paid := dues + [done];
      OneRowIsOwed(dues, board, row);
      PayOneMore(start, date, dues, done, faults);
      ok := AwardReward(date, done, k in faults.fails, k in faults.mute);
      next := k + 1;
      var prize := RankCoins(Rank(board, row.score));
      if prize.Some? {
        var due := Due(row.user, "daily_rank", prize.value);
        PayOneMore(start, date, paid, due, faults);
        var also := AwardReward(date, due, next in faults.fails, next in faults.mute);
        ok, next := ok && also, next + 1;
      }
    }

    /** Pays the finished day; reports whether every insert went through. */
    method RunDailyPayout(date: string, board: seq<Row>, faults: Faults) returns (ok: bool)
      modifies this, store`rewards
      ensures Contents() == Pay(old(Contents()), date, Dues(board, board), faults)
      ensures ok <==> forall k :: 0 <= k < |Dues(board, board)| ==> k !in faults.fails
    {
      ok := true;
      var k := 0;
      for i := 0 to |board|
        invariant k == |Dues(board, board[..i])|
        invariant Contents() == Pay(old(Contents()), date, Dues(board, board[..i]), faults)
        invariant ok <==> forall j :: 0 <= j < k ==> j !in faults.fails
      {
        OneMoreRowIsOwed(board, i);
        var paid, next := PayRow(date, board, board[i], k, faults, old(Contents()), Dues(board, board[..i]));
        ok, k := ok && paid, next;
      }
      assert board[..|board|] == board;
    }
  }
}
