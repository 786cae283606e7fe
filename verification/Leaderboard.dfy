/** The weekly board with banned players dropped on read (service/leaderboard.go). */
module Leaderboard {

  const BANNED_FETCH_MARGIN := 20

  type User = int

  datatype Row = Row(user: User, score: real)
  datatype Entry = Entry(rank: int, user: User, username: string, score: real)

  // ----- the true ranking -----

  /** The rows of the players who are not banned, in their order. */
  function Clean(rows: seq<Row>, banned: set<User>): seq<Row> {
    if rows == [] then []
    else
      var last := rows[|rows| - 1];
      Clean(rows[..|rows| - 1], banned) + if last.user in banned then [] else [last]
  }

  function BannedAmong(rows: seq<Row>, banned: set<User>): nat {
    if rows == [] then 0
    else BannedAmong(rows[..|rows| - 1], banned) + if rows[|rows| - 1].user in banned then 1 else 0
  }

  function Take(rows: seq<Row>, n: nat): seq<Row> {
    if |rows| > n then rows[..n] else rows
  }

  /** A sorted set holds a player once. */
  predicate Distinct(rows: seq<Row>) {
    forall i, j :: 0 <= i < j < |rows| ==> rows[i].user != rows[j].user
  }

  lemma {:induction false} CleanLength(rows: seq<Row>, banned: set<User>)
    ensures |Clean(rows, banned)| == |rows| - BannedAmong(rows, banned)
  {
    if rows == [] {
    } else {
      CleanLength(rows[..|rows| - 1], banned);
    }
  }

  lemma {:induction false} CleanConcat(a: seq<Row>, b: seq<Row>, banned: set<User>)
    ensures Clean(a + b, banned) == Clean(a, banned) + Clean(b, banned)
  {
    if b == [] {
      assert a + b == a;
    } else {
      assert (a + b)[..|a + b| - 1] == a + b[..|b| - 1];
      CleanConcat(a, b[..|b| - 1], banned);
    }
  }

  /** Filtering keeps exactly the rows of players who are not banned, each as often as before. */
  lemma {:induction false} CleanKeepsExactly(rows: seq<Row>, banned: set<User>, r: Row)
    ensures multiset(Clean(rows, banned))[r] == if r.user in banned then 0 else multiset(rows)[r]
  {
    if rows == [] {
    } else {
      assert rows == rows[..|rows| - 1] + [rows[|rows| - 1]];
      CleanKeepsExactly(rows[..|rows| - 1], banned, r);
    }
  }

  /** Only the bans of the rows at hand matter. */
  lemma {:induction false} CleanIgnoresOthers(rows: seq<Row>, banned: set<User>, known: set<User>)
    requires forall r :: r in rows ==> (r.user in known <==> r.user in banned)
    ensures Clean(rows, known) == Clean(rows, banned)
  {
    if rows == [] {
    } else {
      assert rows[|rows| - 1] in rows;
      CleanIgnoresOthers(rows[..|rows| - 1], banned, known);
    }
  }

  // ----- reading the board -----

  function EntryOf(r: Row, index: nat, names: map<User, string>): Entry {
    Entry(index + 1, r.user, if r.user in names then names[r.user] else "", r.score)
  }

  function Entries(rows: seq<Row>, names: map<User, string>): seq<Entry> {
    seq(|rows|, i requires 0 <= i < |rows| => EntryOf(rows[i], i, names))
  }

  /** The rows a read of n returns: n + 20 rows fetched, the banned dropped, the rest cut to n. */
  function TopRows(board: seq<Row>, n: nat, banned: set<User>): seq<Row> {
    Take(Clean(Take(board, n + BANNED_FETCH_MARGIN), banned), n)
  }

  /** Filters in the array it reads from: a kept row moves down over one already read. */
  method FilterInPlace(a: array<Row>, banned: set<User>) returns (kept: nat)
    modifies a
    ensures kept <= a.Length && a[..kept] == Clean(old(a[..]), banned)
    ensures a[kept..] == old(a[kept..])
  {
    kept := 0;
    for i := 0 to a.Length
      invariant kept <= i
      invariant a[..kept] == Clean(old(a[..])[..i], banned)
      invariant forall j :: kept <= j < a.Length ==> a[j] == old(a[j])
    {
      var m := a[i];
      assert old(a[..])[..i + 1][..i] == old(a[..])[..i];
      if m.user !in banned {
        a[kept] := m;
        kept := kept + 1;
      }
    }
    assert old(a[..])[..a.Length] == old(a[..]);
  }

  /** Fetches with the margin and drops the banned, looking up only the players fetched. */
  method ReadMembers(board: seq<Row>, n: nat, banned: set<User>) returns (members: array<Row>, len: nat)
    ensures fresh(members) && len <= members.Length
    ensures members[..len] == TopRows(board, n, banned)
  {
    var fetched := Take(board, n + BANNED_FETCH_MARGIN);
    members := new Row[|fetched|](i requires 0 <= i < |fetched| => fetched[i]);
    assert members[..] == fetched;
    var known := set r | r in fetched && r.user in banned :: r.user;
    CleanIgnoresOthers(fetched, banned, known);
    len := members.Length;
    if known != {} {
      len := FilterInPlace(members, known);
    } else {
      NobodyBanned(fetched, known);
    }
    assert members[..len] == Clean(fetched, banned);
    if len > n {
      len := n;
    }
  }

  method GetTopN(board: seq<Row>, n: nat, banned: set<User>, names: map<User, string>) returns (entries: seq<Entry>)
    ensures entries == Entries(TopRows(board, n, banned), names)
  {
    var members, len := ReadMembers(board, n, banned);
    entries := [];
    for i := 0 to len
      invariant entries == Entries(members[..i], names)
    {
      var m := members[i];
      entries := entries + [EntryOf(m, i, names)];
    }
  }

  lemma {:induction false} NobodyBanned(rows: seq<Row>, banned: set<User>)
    requires forall r :: r in rows ==> r.user !in banned
    ensures Clean(rows, banned) == rows
  {
    if rows == [] {
    } else {
      var n := |rows| - 1;
      assert rows[n] in rows && rows[..n] + [rows[n]] == rows;
      forall r | r in rows[..n]
        ensures r.user !in banned
      {
        assert r in rows;
      }
      NobodyBanned(rows[..n], banned);
    }
  }

  // ----- what a read promises -----

  /** A read never shows a wrong row: always a prefix of the true ranking, and at most n rows. */
  lemma ReadIsAPrefix(board: seq<Row>, n: nat, banned: set<User>)
    ensures TopRows(board, n, banned) <= Take(Clean(board, banned), n)
  {
    var k := |Take(board, n + BANNED_FETCH_MARGIN)|;
    assert board == board[..k] + board[k..];
    CleanConcat(board[..k], board[k..], banned);
    assert Clean(board[..k], banned) <= Clean(board, banned);
  }

  lemma TakeIsCompleteExactly(a: seq<Row>, b: seq<Row>, n: nat)
    ensures Take(a, n) == Take(a + b, n) <==> |a| >= n || b == []
  {
    assert |a| >= n ==> (a + b)[..n] == a[..n];
    assert b == [] ==> a + b == a;
    assert |Take(a, n)| == if |a| > n then n else |a|;
    assert |Take(a + b, n)| == if |a| + |b| > n then n else |a| + |b|;
  }

  /**
   * A read is complete, the first n of the true ranking, exactly when at most 20 of the rows fetched are banned
   * or nobody below them is left to show; in particular when the whole set was fetched.
   */
  lemma ReadIsCompleteExactly(board: seq<Row>, n: nat, banned: set<User>)
    ensures var fetched := Take(board, n + BANNED_FETCH_MARGIN);
      var below := board[|fetched|..];
      && (TopRows(board, n, banned) == Take(Clean(board, banned), n) <==>
          BannedAmong(fetched, banned) <= BANNED_FETCH_MARGIN || BannedAmong(below, banned) == |below|)
      && (|board| <= n + BANNED_FETCH_MARGIN ==> BannedAmong(below, banned) == |below|)
  {
    var fetched := Take(board, n + BANNED_FETCH_MARGIN);
    var below := board[|fetched|..];
    assert board == fetched + below;
    CleanConcat(fetched, below, banned);
    TakeIsCompleteExactly(Clean(fetched, banned), Clean(below, banned), n);
    CleanLength(fetched, banned);
    CleanLength(below, banned);
  }

  /** With 21 banned players on top a board of one is empty although a player is left to show. */
  lemma TooManyBannedHideAPlayer(board: seq<Row>, banned: set<User>)
    requires |board| == 22 && BannedAmong(board[..21], banned) == 21 && board[21].user !in banned
    ensures TopRows(board, 1, banned) == [] && Clean(board, banned) == [board[21]]
  {
    assert board == board[..21] + [board[21]];
    CleanLength(board[..21], banned);
  }

  lemma {:induction false} CleanIsDistinct(rows: seq<Row>, banned: set<User>)
    requires Distinct(rows)
    ensures Distinct(Clean(rows, banned))
    ensures forall r :: r in Clean(rows, banned) ==> r in rows
  {
    if rows == [] {
    } else {
      CleanIsDistinct(rows[..|rows| - 1], banned);
      assert rows == rows[..|rows| - 1] + [rows[|rows| - 1]];
      forall r | r in Clean(rows[..|rows| - 1], banned)
        ensures r.user != rows[|rows| - 1].user
      {
        var i :| 0 <= i < |rows| - 1 && rows[i] == r;
      }
    }
  }

  /** A line shows its row: its place from 1 on, the player with their name, or none, and the score. */
  predicate Shows(line: Entry, r: Row, k: nat, names: map<User, string>) {
    && line.rank == k + 1 && line.user == r.user && line.score == r.score
    && (r.user in names ==> line.username == names[r.user]) && (r.user !in names ==> line.username == "")
  }

  lemma LinesShowTheirRows(rows: seq<Row>, names: map<User, string>, k: nat)
    requires k < |rows|
    ensures |Entries(rows, names)| == |rows| && Shows(Entries(rows, names)[k], rows[k], k, names)
  {
  }

  lemma PrefixAt(a: seq<Row>, b: seq<Row>, k: nat)
    requires a <= b && k < |a|
    ensures k < |b| && a[k] == b[k]
  {
  }

  /** The k-th line shown is the k-th player of the clean ranking. */
  lemma LinesShowTheRanking(board: seq<Row>, n: nat, banned: set<User>, names: map<User, string>, k: nat)
    requires k < |TopRows(board, n, banned)|
    ensures k < n && k < |Clean(board, banned)|
    ensures |Entries(TopRows(board, n, banned), names)| == |TopRows(board, n, banned)|
    ensures Shows(Entries(TopRows(board, n, banned), names)[k], Clean(board, banned)[k], k, names)
  {
    ReadIsAPrefix(board, n, banned);
    PrefixAt(TopRows(board, n, banned), Take(Clean(board, banned), n), k);
    LinesShowTheirRows(TopRows(board, n, banned), names, k);
  }

  // ----- a player's own rank -----

  /** ZREVRANK plus one over the whole set, banned players included; 0 when the player is not in it. */
  function PlayerRank(board: seq<Row>, user: User): int {
    if board == [] then 0
    else if board[|board| - 1].user == user then |board|
    else PlayerRank(board[..|board| - 1], user)
  }

  lemma {:induction false} PlayerRankIsThePosition(board: seq<Row>, user: User)
    requires Distinct(board)
    ensures 0 <= PlayerRank(board, user) <= |board|
    ensures PlayerRank(board, user) == 0 <==> forall r :: r in board ==> r.user != user
    ensures forall i :: 0 <= i < |board| ==> (PlayerRank(board, user) == i + 1 <==> board[i].user == user)
  {
    if board == [] {
    } else {
      PlayerRankIsThePosition(board[..|board| - 1], user);
      assert board == board[..|board| - 1] + [board[|board| - 1]];
    }
  }

  /** A player's own rank counts the banned above: it is the rank on the full board plus their number. */
  lemma OwnRankExceedsBoardRank(board: seq<Row>, banned: set<User>, i: nat)
    requires Distinct(board) && i < |board| && board[i].user !in banned
    ensures var user := board[i].user;
      && PlayerRank(board, user) == PlayerRank(Clean(board, banned), user) + BannedAmong(board[..i], banned)
      && (PlayerRank(board, user) == PlayerRank(Clean(board, banned), user) <==> BannedAmong(board[..i], banned) == 0)
  {
    var user := board[i].user;
    var above, rest := board[..i], board[i + 1..];
    assert board == above + [board[i]] + rest;
    CleanConcat(above + [board[i]], rest, banned);
    assert (above + [board[i]])[..i] == above;
    CleanLength(above, banned);
    CleanIsDistinct(board, banned);
    PlayerRankIsThePosition(board, user);
    var clean := Clean(board, banned);
    assert clean[|Clean(above, banned)|] == board[i];
    PlayerRankIsThePosition(clean, user);
  }
}
