/** The override rows held in memory, the delta protocol, and the copies that follow it (service/dictionary.go). */
module Dictionary {
  import opened Words
  import Overlay

  const DELTA_MAX_ROWS := 5000

  datatype Row = Row(word: Word, present: bool, aiBlocked: bool, seqNo: int)
  datatype Change = Change(word: Word, present: bool, aiBlocked: bool)
  datatype Delta = Delta(seqNo: int, more: bool, reset: bool, changes: seq<Change>)

  /** The service's fields: one row per changed word, and the highest sequence number applied. */
  datatype Server = Server(rows: map<Word, Row>, max: int)

  const NO_ROWS := Server(map[], 0)

  function ChangeOf(r: Row): Change {
    Change(r.word, r.present, r.aiBlocked)
  }

  function OverrideOf(r: Row): Overlay.Override {
    Overlay.Override(r.word, r.present, r.aiBlocked)
  }

  function ApplyRow(s: Server, o: Row): Server {
    Server(s.rows[o.word := o], if o.seqNo > s.max then o.seqNo else s.max)
  }

  function ApplyBatch(s: Server, batch: seq<Row>): Server {
    if batch == [] then s else ApplyRow(ApplyBatch(s, batch[..|batch| - 1]), batch[|batch| - 1])
  }

  /** Rows are keyed by their word and carry distinct positive sequence numbers up to max. */
  ghost predicate Keyed(s: Server) {
    && s.max >= 0
    && (forall w :: w in s.rows ==> s.rows[w].word == w && 1 <= s.rows[w].seqNo <= s.max)
    && (forall v, w :: v in s.rows && w in s.rows && v != w ==> s.rows[v].seqNo != s.rows[w].seqNo)
  }

  /** Some row carries max, so an export reports the server's own sequence number. */
  ghost predicate Attained(s: Server) {
    if s.rows == map[] then s.max == 0 else exists w :: w in s.rows && s.rows[w].seqNo == s.max
  }

  /** The batch continues the sequence: its numbers rise from above max. */
  ghost predicate Rising(s: Server, batch: seq<Row>) {
    && (forall i :: 0 <= i < |batch| ==> s.max < batch[i].seqNo)
    && (forall i, j :: 0 <= i < j < |batch| ==> batch[i].seqNo < batch[j].seqNo)
  }

  lemma YoungerRowKeepsServer(s: Server, o: Row)
    requires Keyed(s) && s.max < o.seqNo
    ensures Keyed(ApplyRow(s, o)) && Attained(ApplyRow(s, o)) && ApplyRow(s, o).max == o.seqNo
  {
    assert o.word in ApplyRow(s, o).rows && ApplyRow(s, o).rows[o.word] == o;
  }

  lemma {:induction false} RisingBatchKeepsServer(s: Server, batch: seq<Row>)
    requires Keyed(s) && Attained(s) && Rising(s, batch)
    ensures Keyed(ApplyBatch(s, batch)) && Attained(ApplyBatch(s, batch))
    ensures ApplyBatch(s, batch).max == if batch == [] then s.max else batch[|batch| - 1].seqNo
  {
    if batch == [] {
    } else {
      var n := |batch| - 1;
      RisingBatchKeepsServer(s, batch[..n]);
      YoungerRowKeepsServer(ApplyBatch(s, batch[..n]), batch[n]);
    }
  }

  // ----- sorted pages -----

  ghost predicate RisingRows(p: seq<Row>) {
    forall i, j :: 0 <= i < j < |p| ==> p[i].seqNo < p[j].seqNo
  }

  function InsertBySeq(p: seq<Row>, r: Row): seq<Row> {
    if p == [] || r.seqNo < p[0].seqNo then [r] + p else [p[0]] + InsertBySeq(p[1..], r)
  }

  lemma PrependKeepsOrder(r: Row, p: seq<Row>)
    requires RisingRows(p) && forall x :: x in p ==> r.seqNo < x.seqNo
    ensures RisingRows([r] + p)
  {
  }

  lemma {:induction false} InsertKeepsOrder(p: seq<Row>, r: Row)
    requires RisingRows(p) && forall x :: x in p ==> x.seqNo != r.seqNo
    ensures RisingRows(InsertBySeq(p, r))
    ensures forall x :: x in InsertBySeq(p, r) <==> x == r || x in p
  {
    if p == [] {
    } else {
      assert p == [p[0]] + p[1..];
      if r.seqNo < p[0].seqNo {
        PrependKeepsOrder(r, p);
      } else {
        InsertKeepsOrder(p[1..], r);
        PrependKeepsOrder(p[0], InsertBySeq(p[1..], r));
      }
    }
  }

  ghost predicate DistinctSeqs(rs: set<Row>) {
    forall x, y :: x in rs && y in rs && x != y ==> x.seqNo != y.seqNo
  }

  /** The rows of a set in ascending sequence order. */
  ghost function SortRows(rs: set<Row>): seq<Row> {
    if rs == {} then [] else var r :| r in rs; InsertBySeq(SortRows(rs - {r}), r)
  }

  lemma {:induction false} SortRowsSorts(rs: set<Row>)
    requires DistinctSeqs(rs)
    ensures RisingRows(SortRows(rs))
    ensures forall x :: x in SortRows(rs) <==> x in rs
  {
    if rs != {} {
      var r :| r in rs && SortRows(rs) == InsertBySeq(SortRows(rs - {r}), r);
      SortRowsSorts(rs - {r});
      InsertKeepsOrder(SortRows(rs - {r}), r);
    }
  }

  /** There is one way to list a set of rows in rising order. */
  lemma {:induction false} RisingListIsUnique(p: seq<Row>, q: seq<Row>)
    requires RisingRows(p) && RisingRows(q)
    requires forall x :: x in p <==> x in q
    ensures p == q
  {
    assert |q| > 0 ==> q[0] in p;
    if p != [] {
      assert p[0] in q && q[0] in p;
      assert p[0] == q[0];
      forall x
        ensures x in p[1..] <==> x in q[1..]
      {
        assert x in p[1..] <==> x in p && x.seqNo > p[0].seqNo;
        assert x in q[1..] <==> x in q && x.seqNo > q[0].seqNo;
      }
      RisingListIsUnique(p[1..], q[1..]);
      assert p == [p[0]] + p[1..] && q == [q[0]] + q[1..];
    }
  }

  ghost function RowsAfter(s: Server, since: int): set<Row> {
    set w | w in s.rows && s.rows[w].seqNo > since :: s.rows[w]
  }

  ghost function Pending(s: Server, since: int): seq<Row> {
    SortRows(RowsAfter(s, since))
  }

  ghost predicate IsPending(s: Server, since: int, p: seq<Row>) {
    && RisingRows(p)
    && (forall r :: r in p ==> r.word in s.rows && r == s.rows[r.word] && r.seqNo > since)
    && (forall w :: w in s.rows && s.rows[w].seqNo > since ==> s.rows[w] in p)
  }

  /** The pending rows are the rows above the cursor in rising order, and no other list is. */
  lemma PendingIsUnique(s: Server, since: int, p: seq<Row>)
    requires Keyed(s)
    ensures IsPending(s, since, p) <==> p == Pending(s, since)
  {
    SortRowsSorts(RowsAfter(s, since));
    var q := Pending(s, since);
    assert IsPending(s, since, q) by {
      forall w | w in s.rows && s.rows[w].seqNo > since
        ensures s.rows[w] in q
      {
        assert s.rows[w] in RowsAfter(s, since);
      }
    }
    if IsPending(s, since, p) {
      RisingListIsUnique(p, q);
    }
  }

  /** Where a page starts: a cursor ahead of the server starts over. */
  function From(s: Server, since: int): int {
    if since > s.max then 0 else since
  }

  function Cut(p: seq<Row>): seq<Row> {
    if |p| > DELTA_MAX_ROWS then p[..DELTA_MAX_ROWS] else p
  }

  function Changes(p: seq<Row>): seq<Change> {
    seq(|p|, i requires 0 <= i < |p| => ChangeOf(p[i]))
  }

  /** The page answered to `since`. */
  ghost function Page(s: Server, since: int): Delta {
    var pending := Pending(s, From(s, since));
    var sent := Cut(pending);
    Delta(if sent != [] then sent[|sent| - 1].seqNo else if since > s.max then s.max else since,
          |pending| > DELTA_MAX_ROWS, since > s.max, Changes(sent))
  }

  // ----- a copy that follows the server -----

  /** An app's cached delta and the cursor it asks from next. */
  datatype Client = Client(seqNo: int, cache: map<Word, Change>)

  const FRESH_CLIENT := Client(0, map[])

  function Fold(cache: map<Word, Change>, changes: seq<Change>): map<Word, Change> {
    if changes == [] then cache
    else var c := changes[|changes| - 1]; Fold(cache, changes[..|changes| - 1])[c.word := c]
  }

  function Receive(c: Client, d: Delta): Client {
    Client(d.seqNo, Fold(if d.reset then map[] else c.cache, d.changes))
  }

  /** What a copy that has caught up holds. */
  function View(s: Server): map<Word, Change> {
    map w | w in s.rows :: ChangeOf(s.rows[w])
  }

  /** Every row at or below the cursor is in the cache with the row's state, and nothing is cached without a row. */
  ghost predicate InSync(s: Server, c: Client) {
    && c.cache.Keys <= s.rows.Keys
    && forall w :: w in s.rows && s.rows[w].seqNo <= c.seqNo ==> w in c.cache && c.cache[w] == ChangeOf(s.rows[w])
  }

  lemma {:induction false} FoldLookup(s: Server, cache: map<Word, Change>, p: seq<Row>, w: Word)
    requires forall r :: r in p ==> r.word in s.rows && r == s.rows[r.word]
    ensures w in Fold(cache, Changes(p)) <==> w in cache || exists r :: r in p && r.word == w
    ensures w in Fold(cache, Changes(p)) ==>
      Fold(cache, Changes(p))[w] == if exists r :: r in p && r.word == w then ChangeOf(s.rows[w]) else cache[w]
  {
    if p == [] {
    } else {
      var n := |p| - 1;
      assert Changes(p)[..n] == Changes(p[..n]);
      FoldLookup(s, cache, p[..n], w);
      assert p == p[..n] + [p[n]];
      assert forall r :: r in p <==> r in p[..n] || r == p[n];
    }
  }

  /** The row of w is among those numbered above lo, up to hi. */
  ghost predicate Between(s: Server, lo: int, hi: int, w: Word) {
    w in s.rows && lo < s.rows[w].seqNo <= hi
  }

  lemma CutOfRisingRows(p: seq<Row>, k: nat, r: Row)
    requires RisingRows(p) && 0 < k <= |p|
    ensures r in p[..k] <==> r in p && r.seqNo <= p[k - 1].seqNo
  {
    if r in p {
      var i :| 0 <= i < |p| && p[i] == r;
      assert i < k ==> p[..k][i] == r;
    }
  }

  /** A row is sent exactly when it is pending and not above the returned cursor. */
  lemma SentRows(s: Server, since: int, r: Row)
    requires Keyed(s)
    ensures var p := Pending(s, From(s, since));
      r in Cut(p) <==> r in p && r.seqNo <= Page(s, since).seqNo
  {
    var p := Pending(s, From(s, since));
    PendingIsUnique(s, From(s, since), p);
    if p != [] {
      CutOfRisingRows(p, |Cut(p)|, r);
    }
  }

  lemma PageCursor(s: Server, since: int)
    requires Keyed(s)
    ensures Page(s, since).seqNo >= From(s, since)
    ensures !Page(s, since).more ==> forall w :: w in s.rows ==> s.rows[w].seqNo <= Page(s, since).seqNo
    ensures !Page(s, since).reset ==> Page(s, since).seqNo <= s.max
  {
    var p := Pending(s, From(s, since));
    PendingIsUnique(s, From(s, since), p);
    if p != [] {
      assert Cut(p)[|Cut(p)| - 1] in p;
    }
    if !Page(s, since).more {
      forall w | w in s.rows
        ensures s.rows[w].seqNo <= Page(s, since).seqNo
      {
        SentRows(s, since, s.rows[w]);
      }
    }
  }

  /**
   * A page holds the first 5000 rows above its start, says whether there are more, and starts over exactly for a cursor
   * the server has not reached. The last one brings the app to the server's own number.
   */
  lemma PageIsCutExactly(s: Server, since: int)
    requires Keyed(s) && Attained(s)
    ensures var d, p := Page(s, since), Pending(s, if since > s.max then 0 else since);
      && |d.changes| == (if |p| < 5000 then |p| else 5000)
      && (d.more <==> |p| > 5000)
      && (d.reset <==> since > s.max)
      && (forall i :: 0 <= i < |d.changes| ==> d.changes[i] == ChangeOf(p[i]))
    ensures !Page(s, since).more && (since >= 0 || s.rows != map[]) ==> Page(s, since).seqNo == s.max
  {
    var p := Pending(s, From(s, since));
    PendingIsUnique(s, From(s, since), p);
    if s.rows != map[] {
      var w :| w in s.rows && s.rows[w].seqNo == s.max;
      PageCursor(s, since);
    }
    if p != [] {
      assert Cut(p)[|Cut(p)| - 1] in p;
    }
  }

  /** A page carries exactly the rows between its start and the cursor it returns. */
  lemma PageCarries(s: Server, since: int, sent: seq<Row>)
    requires Keyed(s) && sent == Cut(Pending(s, From(s, since)))
    ensures forall r :: r in sent ==> r.word in s.rows && r == s.rows[r.word]
    ensures forall w :: Between(s, From(s, since), Page(s, since).seqNo, w) <==> w in s.rows && s.rows[w] in sent
  {
    PendingIsUnique(s, From(s, since), Pending(s, From(s, since)));
    forall r {
      SentRows(s, since, r);
    }
  }

  /** The copy c' is c with the rows numbered from lo up to its cursor; starting over forgets the rest. */
  ghost predicate Advanced(s: Server, c: Client, over: bool, lo: int, c': Client, w: Word) {
    var carried := Between(s, lo, c'.seqNo, w);
    && (w in c'.cache <==> carried || (w in c.cache && !over))
    && (w in c'.cache ==> c'.cache[w] == if carried then ChangeOf(s.rows[w]) else c.cache[w])
  }

  /** What one page does to a cache, entry by entry. */
  lemma PageLookup(s: Server, c: Client, w: Word)
    requires Keyed(s)
    ensures Advanced(s, c, c.seqNo > s.max, From(s, c.seqNo), Receive(c, Page(s, c.seqNo)), w)
  {
    var sent := Cut(Pending(s, From(s, c.seqNo)));
    PageCarries(s, c.seqNo, sent);
    FoldLookup(s, if c.seqNo > s.max then map[] else c.cache, sent, w);
    if exists r :: r in sent && r.word == w {
      var r :| r in sent && r.word == w;
    }
  }

  lemma AdvancingKeepsSyncExactly(s: Server, c: Client, over: bool, lo: int, c': Client)
    requires forall w :: w in s.rows ==> s.rows[w].seqNo >= 1
    requires lo == (if over then 0 else c.seqNo) && lo <= c'.seqNo
    requires forall w :: Advanced(s, c, over, lo, c', w)
    ensures InSync(s, c') <==> InSync(s, c) || over
  {
    if InSync(s, c') && !over {
      forall w | w in c.cache
        ensures w in s.rows
      {
        assert Advanced(s, c, over, lo, c', w);
      }
      forall w | w in s.rows && s.rows[w].seqNo <= c.seqNo
        ensures w in c.cache && c.cache[w] == ChangeOf(s.rows[w])
      {
        assert Advanced(s, c, over, lo, c', w);
      }
    }
    if InSync(s, c) || over {
      forall w | w in c'.cache
        ensures w in s.rows
      {
        assert Advanced(s, c, over, lo, c', w);
      }
      forall w | w in s.rows && s.rows[w].seqNo <= c'.seqNo
        ensures w in c'.cache && c'.cache[w] == ChangeOf(s.rows[w])
      {
        assert Advanced(s, c, over, lo, c', w);
      }
    }
  }

  /** A page leaves the copy in sync exactly when it was in sync before, or was ahead and so starts over. */
  lemma PageKeepsSyncExactly(s: Server, c: Client)
    requires Keyed(s)
    ensures InSync(s, Receive(c, Page(s, c.seqNo))) <==> InSync(s, c) || c.seqNo > s.max
  {
    var over, lo := c.seqNo > s.max, From(s, c.seqNo);
    var c' := Receive(c, Page(s, c.seqNo));
    forall w
      ensures Advanced(s, c, over, lo, c', w)
    {
      PageLookup(s, c, w);
    }
    assert lo <= c'.seqNo by {
      PageCursor(s, c.seqNo);
    }
    AdvancingKeepsSyncExactly(s, c, over, lo, c');
  }

  /** A cursor past every row makes being in sync the same as holding exactly the server's rows. */
  lemma PastEveryRow(s: Server, c: Client)
    requires forall w :: w in s.rows ==> s.rows[w].seqNo <= c.seqNo
    ensures InSync(s, c) <==> c.cache == View(s)
  {
    if InSync(s, c) {
      assert c.cache.Keys == View(s).Keys;
    }
  }

  /** After a page with more = false, being in sync means holding exactly the server's rows. */
  lemma LastPageIsComplete(s: Server, c: Client)
    requires Keyed(s) && !Page(s, c.seqNo).more
    ensures InSync(s, Receive(c, Page(s, c.seqNo))) <==> Receive(c, Page(s, c.seqNo)).cache == View(s)
  {
    PageCursor(s, c.seqNo);
    PastEveryRow(s, Receive(c, Page(s, c.seqNo)));
  }

  lemma DropOfRisingRows(p: seq<Row>, k: nat, r: Row)
    requires RisingRows(p) && 0 < k <= |p|
    ensures r in p[k..] <==> r in p && r.seqNo > p[k - 1].seqNo
  {
    if r in p {
      var i :| 0 <= i < |p| && p[i] == r;
      assert i >= k ==> p[k..][i - k] == r;
    }
  }

  /** Dropping the sent rows leaves exactly the rows above the new cursor. */
  lemma PageShrinksPending(s: Server, since: int)
    requires Keyed(s) && Page(s, since).more
    ensures Page(s, since).seqNo <= s.max
    ensures Pending(s, Page(s, since).seqNo) == Pending(s, From(s, since))[DELTA_MAX_ROWS..]
  {
    var p := Pending(s, From(s, since));
    var last := p[DELTA_MAX_ROWS - 1];
    PendingIsUnique(s, From(s, since), p);
    assert last in p && Page(s, since).seqNo == last.seqNo;
    CutIsPending(s, From(s, since), p, DELTA_MAX_ROWS);
    PendingIsUnique(s, last.seqNo, p[DELTA_MAX_ROWS..]);
  }

  lemma CutIsPending(s: Server, since: int, p: seq<Row>, k: nat)
    requires IsPending(s, since, p) && 0 < k <= |p|
    ensures IsPending(s, p[k - 1].seqNo, p[k..])
  {
    forall r {
      DropOfRisingRows(p, k, r);
    }
    assert p[k - 1] in p;
  }

  /** The app's refresh: ask again while the server says more, at most `pages` times. */
  ghost function Refresh(s: Server, c: Client, pages: nat): Client
    decreases pages
  {
    if pages == 0 then c
    else
      var d := Page(s, c.seqNo);
      if d.more then Refresh(s, Receive(c, d), pages - 1) else Receive(c, d)
  }

  lemma FullPageAdvances(s: Server, c: Client)
    requires Keyed(s) && Page(s, c.seqNo).more
    ensures var c' := Receive(c, Page(s, c.seqNo));
      && c'.seqNo <= s.max
      && |Pending(s, From(s, c.seqNo))| > DELTA_MAX_ROWS
      && Pending(s, From(s, c'.seqNo)) == Pending(s, From(s, c.seqNo))[DELTA_MAX_ROWS..]
      && (InSync(s, c') <==> InSync(s, c) || c.seqNo > s.max)
  {
    PageKeepsSyncExactly(s, c);
    PageShrinksPending(s, c.seqNo);
  }

  lemma LastPageConverges(s: Server, c: Client)
    requires Keyed(s) && !Page(s, c.seqNo).more
    ensures Receive(c, Page(s, c.seqNo)).cache == View(s) <==> InSync(s, c) || c.seqNo > s.max
  {
    PageKeepsSyncExactly(s, c);
    LastPageIsComplete(s, c);
  }

  lemma RefreshStep(s: Server, c: Client, pages: nat)
    requires pages > 0
    ensures var d := Page(s, c.seqNo);
      Refresh(s, c, pages) == if d.more then Refresh(s, Receive(c, d), pages - 1) else Receive(c, d)
  {
  }

  lemma RestFits(p: seq<Row>, pages: nat)
    requires DELTA_MAX_ROWS < |p| <= pages * DELTA_MAX_ROWS
    ensures pages > 1 && |p[DELTA_MAX_ROWS..]| <= (pages - 1) * DELTA_MAX_ROWS
  {
  }

  /** One page of a refresh that may ask for all that is pending. */
  lemma OnePageOfAll(s: Server, c: Client, pages: nat) returns (c': Client)
    requires Keyed(s) && Page(s, c.seqNo).more && |Pending(s, From(s, c.seqNo))| <= pages * DELTA_MAX_ROWS
    ensures pages > 1 && Refresh(s, c, pages) == Refresh(s, c', pages - 1) && c'.seqNo <= s.max
    ensures |Pending(s, From(s, c'.seqNo))| <= (pages - 1) * DELTA_MAX_ROWS
    ensures InSync(s, c') <==> InSync(s, c) || c.seqNo > s.max
  {
    c' := Receive(c, Page(s, c.seqNo));
    FullPageAdvances(s, c);
    RestFits(Pending(s, From(s, c.seqNo)), pages);
    RefreshStep(s, c, pages);
  }

  /**
   * Paging terminates on the number of rows above the cursor. A refresh with room for them ends with
   * exactly the server's rows if and only if the copy was in sync, or ahead of the server, to begin with.
   */
  lemma {:induction false} RefreshConvergesExactly(s: Server, c: Client, pages: nat)
    requires Keyed(s)
    requires 1 <= pages && |Pending(s, From(s, c.seqNo))| <= pages * DELTA_MAX_ROWS
    ensures Refresh(s, c, pages).cache == View(s) <==> InSync(s, c) || c.seqNo > s.max
    decreases pages
  {
    if Page(s, c.seqNo).more {
      var c' := OnePageOfAll(s, c, pages);
      RefreshConvergesExactly(s, c', pages - 1);
    } else {
      RefreshStep(s, c, pages);
      LastPageConverges(s, c);
    }
  }

  lemma DropPages(p: seq<Row>, pages: nat)
    requires pages > 0 && |p| > pages * DELTA_MAX_ROWS
    ensures |p[DELTA_MAX_ROWS..]| > (pages - 1) * DELTA_MAX_ROWS
  {
  }

  lemma MoreToCome(s: Server, c: Client)
    ensures Page(s, c.seqNo).more <==> |Pending(s, From(s, c.seqNo))| > DELTA_MAX_ROWS
  {
  }

  /** One page of a refresh that has more pages pending than it may ask for. */
  lemma OnePageOfMany(s: Server, c: Client, pages: nat) returns (c': Client)
    requires Keyed(s) && pages > 0 && |Pending(s, From(s, c.seqNo))| > pages * DELTA_MAX_ROWS
    ensures Refresh(s, c, pages) == Refresh(s, c', pages - 1) && c'.seqNo <= s.max
    ensures c' == Receive(c, Page(s, c.seqNo)) && Page(s, c.seqNo).more
    ensures Pending(s, From(s, c'.seqNo)) == Pending(s, From(s, c.seqNo))[DELTA_MAX_ROWS..]
  {
    c' := Receive(c, Page(s, c.seqNo));
    MoreToCome(s, c);
    PageShrinksPending(s, c.seqNo);
    RefreshStep(s, c, pages);
  }

  /** Taking k full pages off the pending rows. */
  ghost predicate Taken(p: seq<Row>, k: nat, rest: seq<Row>) {
    k * DELTA_MAX_ROWS <= |p| && rest == p[k * DELTA_MAX_ROWS..]
  }

  lemma TakeOneMore(p: seq<Row>, q: seq<Row>, pages: nat, rest: seq<Row>)
    requires pages > 0 && |p| > pages * DELTA_MAX_ROWS && q == p[DELTA_MAX_ROWS..] && Taken(q, pages - 1, rest)
    ensures Taken(p, pages, rest)
  {
  }

  lemma {:induction false} ShortRefreshTakes(s: Server, c: Client, pages: nat, p: seq<Row>)
    requires Keyed(s) && p == Pending(s, From(s, c.seqNo)) && |p| > pages * DELTA_MAX_ROWS
    ensures Taken(p, pages, Pending(s, From(s, Refresh(s, c, pages).seqNo)))
    decreases pages
  {
    if pages > 0 {
      var c' := OnePageOfMany(s, c, pages);
      var q := Pending(s, From(s, c'.seqNo));
      DropPages(p, pages);
      ShortRefreshTakes(s, c', pages - 1, q);
      TakeOneMore(p, q, pages, Pending(s, From(s, Refresh(s, c', pages - 1).seqNo)));
    }
  }

  lemma {:induction false} ShortRefreshStaysInSync(s: Server, c: Client, pages: nat, p: seq<Row>)
    requires Keyed(s) && p == Pending(s, From(s, c.seqNo)) && |p| > pages * DELTA_MAX_ROWS
    requires pages > 0 && (InSync(s, c) || c.seqNo > s.max)
    ensures InSync(s, Refresh(s, c, pages)) && Refresh(s, c, pages).seqNo <= s.max
    decreases pages
  {
    var c' := OnePageOfMany(s, c, pages);
    PageKeepsSyncExactly(s, c);
    if pages > 1 {
      DropPages(p, pages);
      ShortRefreshStaysInSync(s, c', pages - 1, p[DELTA_MAX_ROWS..]);
    }
  }

  /** A refresh cut short by the page limit has taken that many full pages, and stays in sync. */
  lemma ShortRefreshProgress(s: Server, c: Client, pages: nat)
    requires Keyed(s)
    requires |Pending(s, From(s, c.seqNo))| > pages * DELTA_MAX_ROWS
    requires InSync(s, c) || c.seqNo > s.max
    ensures var c' := Refresh(s, c, pages);
      && (pages > 0 ==> InSync(s, c') && c'.seqNo <= s.max)
      && Pending(s, From(s, c'.seqNo)) == Pending(s, From(s, c.seqNo))[pages * DELTA_MAX_ROWS..]
  {
    ShortRefreshTakes(s, c, pages, Pending(s, From(s, c.seqNo)));
    if pages > 0 {
      ShortRefreshStaysInSync(s, c, pages, Pending(s, From(s, c.seqNo)));
    }
  }

  // ----- runs -----

  datatype Step = Publish(batch: seq<Row>) | Poll

  ghost function RunStep(s: Server, c: Client, step: Step): (Server, Client) {
    match step
    case Publish(batch) => (ApplyBatch(s, batch), c)
    case Poll => (s, Receive(c, Page(s, c.seqNo)))
  }

  ghost function Run(s: Server, c: Client, steps: seq<Step>): (Server, Client)
    decreases |steps|
  {
    if steps == [] then (s, c)
    else var (t, d) := RunStep(s, c, steps[0]); Run(t, d, steps[1..])
  }

  /** Every batch published in the run continues the sequence. */
  ghost predicate RisingRun(s: Server, c: Client, steps: seq<Step>)
    decreases |steps|
  {
    steps != [] ==>
      && (steps[0].Publish? ==> Rising(s, steps[0].batch))
      && var (t, d) := RunStep(s, c, steps[0]); RisingRun(t, d, steps[1..])
  }

  /** The last step of a run publishes to the server or fetches a page, on what the steps before it left. */
  lemma {:induction false} LastStepActs(s: Server, c: Client, steps: seq<Step>, batch: seq<Row>)
    ensures var (t, d) := Run(s, c, steps);
      && Run(s, c, steps + [Publish(batch)]) == (ApplyBatch(t, batch), d)
      && Run(s, c, steps + [Poll]) == (t, Receive(d, Page(t, d.seqNo)))
    decreases |steps|
  {
    var publishes, polls := steps + [Publish(batch)], steps + [Poll];
    if steps == [] {
      assert Run(ApplyBatch(s, batch), c, []) == (ApplyBatch(s, batch), c);
      assert publishes[1..] == [] && polls[1..] == [];
    } else {
      assert publishes[1..] == steps[1..] + [Publish(batch)] && polls[1..] == steps[1..] + [Poll];
      var (t, d) := RunStep(s, c, steps[0]);
      LastStepActs(t, d, steps[1..], batch);
    }
  }

  lemma YoungerRowKeepsSync(s: Server, c: Client, o: Row)
    requires InSync(s, c) && c.seqNo <= s.max < o.seqNo
    ensures InSync(ApplyRow(s, o), c)
  {
  }

  /** Rows numbered above every cursor cannot disturb a copy. */
  lemma {:induction false} RisingBatchKeepsSync(s: Server, c: Client, batch: seq<Row>)
    requires Keyed(s) && Attained(s) && Rising(s, batch) && InSync(s, c) && c.seqNo <= s.max
    ensures InSync(ApplyBatch(s, batch), c)
  {
    if batch == [] {
    } else {
      var n := |batch| - 1;
      RisingBatchKeepsServer(s, batch[..n]);
      RisingBatchKeepsSync(s, c, batch[..n]);
      MaxNeverFalls(s, batch[..n]);
      YoungerRowKeepsSync(ApplyBatch(s, batch[..n]), c, batch[n]);
    }
  }

  lemma {:induction false} MaxNeverFalls(s: Server, batch: seq<Row>)
    ensures ApplyBatch(s, batch).max >= s.max
  {
    if batch == [] {
    } else {
      MaxNeverFalls(s, batch[..|batch| - 1]);
    }
  }

  /** In every interleaving of rising publications and polls the copy stays in sync. */
  lemma {:induction false} EveryRunStaysInSync(s: Server, c: Client, steps: seq<Step>)
    requires Keyed(s) && Attained(s) && InSync(s, c) && c.seqNo <= s.max
    requires RisingRun(s, c, steps)
    ensures var (t, d) := Run(s, c, steps); Keyed(t) && Attained(t) && InSync(t, d) && d.seqNo <= t.max
    decreases |steps|
  {
    if steps == [] {
    } else {
      var (t, d) := RunStep(s, c, steps[0]);
      match steps[0]
      case Publish(batch) =>
        RisingBatchKeepsServer(s, batch);
        RisingBatchKeepsSync(s, c, batch);
        MaxNeverFalls(s, batch);
        EveryRunStaysInSync(t, d, steps[1..]);
      case Poll =>
        PageKeepsSyncExactly(s, c);
        PageCursor(s, c.seqNo);
        EveryRunStaysInSync(t, d, steps[1..]);
    }
  }

  /** Hence a fresh app that polls through any such run holds the server's rows after a page with more = false. */
  lemma DeltaConverges(steps: seq<Step>)
    requires RisingRun(NO_ROWS, FRESH_CLIENT, steps)
    ensures var (t, d) := Run(NO_ROWS, FRESH_CLIENT, steps);
      !Page(t, d.seqNo).more ==> Receive(d, Page(t, d.seqNo)).cache == View(t)
  {
    EveryRunStaysInSync(NO_ROWS, FRESH_CLIENT, steps);
    var (t, d) := Run(NO_ROWS, FRESH_CLIENT, steps);
    PageKeepsSyncExactly(t, d);
    if !Page(t, d.seqNo).more {
      LastPageIsComplete(t, d);
    }
  }

  /**
   * Apply itself has no guard on the sequence number. One row keeps every synchronised copy in sync
   * exactly when it is numbered above max, or repeats the state its word already has under a lower number.
   */
  lemma ApplyKeepsSyncExactly(s: Server, o: Row)
    requires Keyed(s) && o.seqNo >= 1
    ensures (forall c :: InSync(s, c) && 0 <= c.seqNo <= s.max ==> InSync(ApplyRow(s, o), c)) <==>
      o.seqNo > s.max ||
      (o.word in s.rows && ChangeOf(s.rows[o.word]) == ChangeOf(o) && s.rows[o.word].seqNo <= o.seqNo)
  {
    var kept := o.seqNo > s.max ||
      (o.word in s.rows && ChangeOf(s.rows[o.word]) == ChangeOf(o) && s.rows[o.word].seqNo <= o.seqNo);
    if !kept {
      // A copy whose cursor has just passed the row's number, and that holds nothing newer.
      var c := Client(o.seqNo, map w | w in s.rows && s.rows[w].seqNo <= o.seqNo :: ChangeOf(s.rows[w]));
      assert InSync(s, c) && 0 <= c.seqNo <= s.max;
      assert ApplyRow(s, o).rows[o.word] == o;
      assert !InSync(ApplyRow(s, o), c);
    }
  }

  /** A database restore goes unnoticed once the restored server has caught up with an app's cursor. */
  lemma RestoreCanBeMissed(v: Word, w: Word)
    requires v != w
    ensures var before := ApplyBatch(NO_ROWS, [Row(v, true, false, 1)]);
      var c := Client(1, View(before));
      var restored := ApplyBatch(NO_ROWS, [Row(w, true, false, 1)]);
      && InSync(before, c)
      && Keyed(restored)
      && !InSync(restored, c)
      && c.seqNo <= restored.max
      && forall pages: nat :: pages >= 1 ==> Refresh(restored, c, pages).cache != View(restored)
  {
    var before := ApplyBatch(NO_ROWS, [Row(v, true, false, 1)]);
    var restored := ApplyBatch(NO_ROWS, [Row(w, true, false, 1)]);
    assert ApplyBatch(NO_ROWS, []) == NO_ROWS;
    assert [Row(w, true, false, 1)][..0] == [] && [Row(v, true, false, 1)][..0] == [];
    assert restored == Server(map[w := Row(w, true, false, 1)], 1);
    assert before == Server(map[v := Row(v, true, false, 1)], 1);
    var c := Client(1, View(before));
    assert v in c.cache && v !in restored.rows;
    PendingIsUnique(restored, 1, []);
    forall pages: nat | pages >= 1
      ensures Refresh(restored, c, pages).cache != View(restored)
    {
      RefreshConvergesExactly(restored, c, pages);
    }
  }

  // ----- the overlay follows the rows -----

  /** A word with a row has the row's state; a word without one is as the bundled list has it. */
  ghost predicate Coupled(base: set<Word>, rows: map<Word, Row>, sets: Overlay.Sets) {
    && Overlay.Disjoint(sets)
    && (forall w :: Overlay.ValidIn(base, sets, w) <==> if w in rows then rows[w].present else w in base)
    && (forall w :: w in sets.aiBlocked <==> w in rows && rows[w].aiBlocked)
  }

  function Overrides(batch: seq<Row>): seq<Overlay.Override> {
    seq(|batch|, i requires 0 <= i < |batch| => OverrideOf(batch[i]))
  }

  /** Rows and overlay stay coupled through every batch, in or out of sequence order. */
  lemma {:induction false} ApplyKeepsCoupling(base: set<Word>, s: Server, sets: Overlay.Sets, batch: seq<Row>)
    requires Coupled(base, s.rows, sets)
    ensures Coupled(base, ApplyBatch(s, batch).rows, Overlay.ApplyAll(sets, Overrides(batch)))
  {
    if batch == [] {
    } else {
      var n := |batch| - 1;
      assert Overrides(batch)[..n] == Overrides(batch[..n]);
      ApplyKeepsCoupling(base, s, sets, batch[..n]);
    }
  }

  /** The app's own word list: the delta folded over the bundled list. */
  function ClientWords(base: set<Word>, cache: map<Word, Change>): set<Word> {
    set w | w in base + cache.Keys && (w in cache ==> cache[w].present)
  }

  function ClientBlocked(cache: map<Word, Change>): set<Word> {
    set w | w in cache && cache[w].aiBlocked
  }

  /** An app that has caught up plays by the same dictionary as the server. */
  lemma CaughtUpAppAgreesWithServer(base: set<Word>, s: Server, sets: Overlay.Sets)
    requires Keyed(s) && Coupled(base, s.rows, sets)
    ensures ClientWords(base, View(s)) == Overlay.ValidWords(base, sets)
    ensures ClientBlocked(View(s)) == sets.aiBlocked
  {
    forall w
      ensures w in ClientWords(base, View(s)) <==> w in Overlay.ValidWords(base, sets)
    {
      assert Overlay.ValidIn(base, sets, w) <==> if w in s.rows then s.rows[w].present else w in base;
    }
  }

  /** The service: rows and max in memory, in front of the live engine. */
  class Service {
    const engine: Overlay.Engine
    var rows: map<Word, Row>
    var max: int

    constructor (engine: Overlay.Engine)
      requires engine.Valid() && engine.View() == Overlay.EMPTY
      ensures Valid() && this.engine == engine && State() == NO_ROWS
    {
      this.engine := engine;
      rows, max := map[], 0;
    }

    ghost function State(): Server
      reads this
    {
      Server(rows, max)
    }

    ghost predicate Valid()
      reads this, engine, engine.overlay
    {
      engine.Valid() && Coupled(engine.base, rows, engine.View())
    }

    method Apply(batch: seq<Row>)
      requires Valid()
      modifies this, engine`overlay
      ensures Valid()
      ensures State() == ApplyBatch(old(State()), batch)
      ensures engine.View() == Overlay.ApplyAll(old(engine.View()), Overrides(batch))
    {
      if |batch| == 0 {
        return;
      }
      var changes: seq<Overlay.Override> := [];
      for i := 0 to |batch|
        modifies this
        invariant State() == ApplyBatch(old(State()), batch[..i])
        invariant changes == Overrides(batch[..i])
      {
        var o := batch[i];
        rows := rows[o.word := o];
        if o.seqNo > max {
          max := o.seqNo;
        }
        changes := changes + [OverrideOf(o)];
        assert batch[..i + 1][..i] == batch[..i];
      }
      assert batch[..|batch|] == batch;
      ApplyKeepsCoupling(engine.base, old(State()), old(engine.View()), batch);
      engine.ApplyOverrides(changes);
    }

    /** The rows above `since`, collected in map order and sorted by sequence number. */
    method CollectPending(since: int) returns (pending: seq<Row>)
      requires Keyed(State())
      ensures pending == Pending(State(), since)
    {
      pending := [];
      var todo := rows.Keys;
      while todo != {}
        invariant todo <= rows.Keys
        invariant RisingRows(pending)
        invariant forall r :: r in pending ==> r.word in rows.Keys - todo && r == rows[r.word] && r.seqNo > since
        invariant forall w :: w in rows.Keys - todo && rows[w].seqNo > since ==> rows[w] in pending
      {
        var w :| w in todo;
        todo := todo - {w};
        if rows[w].seqNo > since {
          InsertKeepsOrder(pending, rows[w]);
          pending := InsertBySeq(pending, rows[w]);
        }
      }
      PendingIsUnique(State(), since, pending);
    }

    method GetDelta(since: int) returns (out: Delta)
      requires Keyed(State())
      ensures out == Page(State(), since)
    {
      var start, reset := since, false;
      if since > max {
        reset, start := true, 0;
      }
      var pending := CollectPending(start);
      var more := false;
      if |pending| > DELTA_MAX_ROWS {
        pending, more := pending[..DELTA_MAX_ROWS], true;
      }
      var seqNo, changes := since, [];
      for i := 0 to |pending|
        invariant changes == Changes(pending[..i])
        invariant seqNo == if i == 0 then since else pending[i - 1].seqNo
      {
        changes := changes + [ChangeOf(pending[i])];
        seqNo := pending[i].seqNo;
      }
      assert pending[..|pending|] == pending;
      if reset && |pending| == 0 {
        seqNo := max;
      }
      out := Delta(seqNo, more, reset, changes);
    }

    /** Every override, oldest first. */
    method AllOverrides() returns (out: seq<Row>)
      requires Keyed(State())
      ensures RisingRows(out)
      ensures forall r :: r in out ==> r.word in rows && r == rows[r.word]
      ensures forall w :: w in rows ==> rows[w] in out
    {
      out := [];
      var todo := rows.Keys;
      while todo != {}
        invariant todo <= rows.Keys
        invariant RisingRows(out)
        invariant forall r :: r in out ==> r.word in rows.Keys - todo && r == rows[r.word]
        invariant forall w :: w in rows.Keys - todo ==> rows[w] in out
      {
        var w :| w in todo;
        todo := todo - {w};
        InsertKeepsOrder(out, rows[w]);
        out := InsertBySeq(out, rows[w]);
      }
    }
  }
}
