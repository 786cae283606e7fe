/** The rows RollupAnalyticsDay computes from a day's events (repository/analytics.go). */
module Summaries {
  import opened Rollups

  // ----- rollup rows of one day -----

  function TotalMs(evs: seq<Event>): nat {
    if evs == [] then 0 else TotalMs(evs[..|evs| - 1]) + evs[|evs| - 1].durationMs
  }

  function Installs(evs: seq<Event>): set<int> {
    set e | e in evs :: e.install
  }

  datatype NameRow = NameRow(count: nat, uniques: nat)
  datatype TimeRow = TimeRow(count: nat, totalMs: nat)
  datatype SessionRow = NoSessions | Sessions(row: TimeRow)

  /** The four rollup tables restricted to one day. */
  datatype Rollup = Rollup(active: map<int, nat>, counts: map<string, NameRow>,
                           screens: map<string, TimeRow>, sessions: SessionRow)

  predicate IsScreenView(e: Event) {
    e.name == "screen_view" && e.screen != ""
  }

  function Summarise(evs: seq<Event>): Rollup {
    var names := set e | e in evs :: e.name;
    var screens := set e | e in evs && IsScreenView(e) :: e.screen;
    var ends := Select(evs, (e: Event) => e.name == "session_end");
    Rollup(
      map i | i in Installs(evs) :: |Select(evs, (e: Event) => e.install == i)|,
      map n | n in names :: var of := Select(evs, (e: Event) => e.name == n); NameRow(|of|, |Installs(of)|),
      map s | s in screens ::
        var of := Select(evs, (e: Event) => IsScreenView(e) && e.screen == s); TimeRow(|of|, TotalMs(of)),
      if ends == [] then NoSessions else Sessions(TimeRow(|ends|, TotalMs(ends))))
  }

  // ----- what the rows hold -----

  /** The positions of the day's events of one install. */
  function OfInstall(evs: seq<Event>, install: int): set<nat> {
    set i | 0 <= i < |evs| && evs[i].install == install
  }

  function OfName(evs: seq<Event>, name: string): set<nat> {
    set i | 0 <= i < |evs| && evs[i].name == name
  }

  /** The positions of the views of a screen, each of which names it. */
  function OfScreen(evs: seq<Event>, screen: string): set<nat> {
    set i | 0 <= i < |evs| && evs[i].name == "screen_view" && evs[i].screen == screen
  }

  /** The positions with a property that all selected events have, and no others. */
  lemma {:induction false} SelectCountsPositions(evs: seq<Event>, p: Event -> bool, at: set<nat>)
    requires forall i :: i in at <==> 0 <= i < |evs| && p(evs[i])
    ensures |Select(evs, p)| == |at|
  {
    if evs == [] {
      assert at == {};
    } else {
      var n := |evs| - 1;
      var rest := at - {n};
      assert forall i :: i in rest <==> 0 <= i < n && p(evs[..n][i]);
      SelectCountsPositions(evs[..n], p, rest);
      assert p(evs[n]) ==> at == rest + {n};
      assert !p(evs[n]) ==> at == rest;
    }
  }

  /** An install is active exactly if it sent an event, with as many as it sent. */
  lemma ActiveRows(evs: seq<Event>, install: int)
    ensures install in Summarise(evs).active <==> OfInstall(evs, install) != {}
    ensures install in Summarise(evs).active ==> Summarise(evs).active[install] == |OfInstall(evs, install)|
  {
    if install in Installs(evs) {
      var e :| e in evs && e.install == install;
      var i :| 0 <= i < |evs| && evs[i] == e;
      assert i in OfInstall(evs, install);
    }
    SelectCountsPositions(evs, (e: Event) => e.install == install, OfInstall(evs, install));
  }

  /** A name has a row exactly if it occurs: how often, and from how many different installs. */
  lemma CountRows(evs: seq<Event>, name: string)
    ensures name in Summarise(evs).counts <==> OfName(evs, name) != {}
    ensures name in Summarise(evs).counts ==>
      && Summarise(evs).counts[name].count == |OfName(evs, name)|
      && Summarise(evs).counts[name].uniques == |set e | e in evs && e.name == name :: e.install|
  {
    if exists e :: e in evs && e.name == name {
      var e :| e in evs && e.name == name;
      var i :| 0 <= i < |evs| && evs[i] == e;
      assert i in OfName(evs, name);
    }
    var p := (e: Event) => e.name == name;
    SelectCountsPositions(evs, p, OfName(evs, name));
    forall e {
      SelectMember(evs, p, e);
    }
    assert Installs(Select(evs, p)) == set e | e in evs && e.name == name :: e.install;
  }

  /** The sum over the positions of a set, in any order. */
  ghost function SumMs(evs: seq<Event>, at: set<nat>): nat
    requires forall i :: i in at ==> i < |evs|
  {
    if at == {} then 0 else var i :| i in at; evs[i].durationMs + SumMs(evs, at - {i})
  }

  lemma {:induction false} SumWithout(evs: seq<Event>, at: set<nat>, i: nat)
    requires (forall j :: j in at ==> j < |evs|) && i in at
    ensures SumMs(evs, at) == evs[i].durationMs + SumMs(evs, at - {i})
    decreases |at|
  {
    var j :| j in at && SumMs(evs, at) == evs[j].durationMs + SumMs(evs, at - {j});
    if i != j {
      SumWithout(evs, at - {j}, i);
      SumWithout(evs, at - {i}, j);
      assert at - {j} - {i} == at - {i} - {j};
    }
  }

  lemma {:induction false} SumOfPrefix(evs: seq<Event>, at: set<nat>, n: nat)
    requires n <= |evs| && forall i :: i in at ==> i < n
    ensures SumMs(evs[..n], at) == SumMs(evs, at)
    decreases |at|
  {
    if i :| i in at {
      SumOfPrefix(evs, at - {i}, n);
      SumWithout(evs, at, i);
      SumWithout(evs[..n], at, i);
    }
  }

  lemma {:induction false} SelectSumsPositions(evs: seq<Event>, p: Event -> bool, at: set<nat>)
    requires forall i :: i in at <==> 0 <= i < |evs| && p(evs[i])
    ensures TotalMs(Select(evs, p)) == SumMs(evs, at)
  {
    if evs == [] {
      assert at == {};
    } else {
      var n := |evs| - 1;
      var rest := at - {n};
      assert forall i :: i in rest <==> 0 <= i < n && p(evs[..n][i]);
      SelectSumsPositions(evs[..n], p, rest);
      SumOfPrefix(evs, rest, n);
      if p(evs[n]) {
        SumWithout(evs, at, n);
        var init := Select(evs[..n], p);
        assert (init + [evs[n]])[..|init|] == init;
      } else {
        assert at == rest;
      }
    }
  }

  /** A screen has a row exactly if it is named and was viewed: how often, and for how long in all. */
  lemma ScreenRows(evs: seq<Event>, screen: string)
    ensures screen in Summarise(evs).screens <==> screen != "" && OfScreen(evs, screen) != {}
    ensures screen in Summarise(evs).screens ==>
      Summarise(evs).screens[screen] == TimeRow(|OfScreen(evs, screen)|, SumMs(evs, OfScreen(evs, screen)))
  {
    if screen != "" && exists e :: e in evs && IsScreenView(e) && e.screen == screen {
      var e :| e in evs && IsScreenView(e) && e.screen == screen;
      var i :| 0 <= i < |evs| && evs[i] == e;
      assert i in OfScreen(evs, screen);
    }
    if screen != "" {
      var p := (e: Event) => IsScreenView(e) && e.screen == screen;
      SelectCountsPositions(evs, p, OfScreen(evs, screen));
      SelectSumsPositions(evs, p, OfScreen(evs, screen));
      if i :| i in OfScreen(evs, screen) {
        assert evs[i] in evs && IsScreenView(evs[i]);
      }
    }
  }

  /** There is a row of sessions exactly if one ended: how many, and how long in all. */
  lemma SessionRows(evs: seq<Event>)
    ensures var ended := OfName(evs, "session_end");
      Summarise(evs).sessions == if ended == {} then NoSessions else Sessions(TimeRow(|ended|, SumMs(evs, ended)))
  {
    var p := (e: Event) => e.name == "session_end";
    SelectCountsPositions(evs, p, OfName(evs, "session_end"));
    SelectSumsPositions(evs, p, OfName(evs, "session_end"));
  }

  // ----- the order of the events -----

  /** Selecting commutes with reordering. */
  lemma {:induction false} SelectCounts(evs: seq<Event>, p: Event -> bool, e: Event)
    ensures multiset(Select(evs, p))[e] == if p(e) then multiset(evs)[e] else 0
  {
    if evs == [] {
    } else {
      var n := |evs| - 1;
      SelectCounts(evs[..n], p, e);
      assert evs == evs[..n] + [evs[n]];
    }
  }

  lemma SelectIgnoresOrder(a: seq<Event>, b: seq<Event>, p: Event -> bool)
    requires multiset(a) == multiset(b)
    ensures multiset(Select(a, p)) == multiset(Select(b, p)) && |Select(a, p)| == |Select(b, p)|
  {
    forall e
      ensures multiset(Select(a, p))[e] == multiset(Select(b, p))[e]
    {
      SelectCounts(a, p, e);
      SelectCounts(b, p, e);
    }
    assert |multiset(Select(a, p))| == |Select(a, p)|;
    assert |multiset(Select(b, p))| == |Select(b, p)|;
  }

  lemma {:induction false} TotalWithout(evs: seq<Event>, i: nat)
    requires i < |evs|
    ensures TotalMs(evs) == TotalMs(evs[..i] + evs[i + 1..]) + evs[i].durationMs
  {
    var n := |evs| - 1;
    if i == n {
      assert evs[..i] + evs[i + 1..] == evs[..n];
    } else {
      TotalWithout(evs[..n], i);
      assert (evs[..i] + evs[i + 1..])[..n - 1] == evs[..n][..i] + evs[..n][i + 1..];
    }
  }

  lemma MultisetWithout(evs: seq<Event>, i: nat)
    requires i < |evs|
    ensures multiset(evs[..i] + evs[i + 1..]) == multiset(evs) - multiset{evs[i]}
  {
    assert evs == evs[..i] + ([evs[i]] + evs[i + 1..]);
  }

  /** The last of a is somewhere in b, and without it both still hold the same. */
  lemma LastIsIn(a: seq<Event>, b: seq<Event>) returns (i: nat)
    requires a != [] && multiset(a) == multiset(b)
    ensures i < |b| && b[i] == a[|a| - 1]
    ensures multiset(a[..|a| - 1]) == multiset(b[..i] + b[i + 1..])
  {
    var n := |a| - 1;
    assert a[n] in multiset(b);
    i :| 0 <= i < |b| && b[i] == a[n];
    MultisetWithout(a, n);
    MultisetWithout(b, i);
    assert a[..n] + a[n + 1..] == a[..n];
  }

  lemma {:induction false} TotalIgnoresOrder(a: seq<Event>, b: seq<Event>)
    requires multiset(a) == multiset(b)
    ensures TotalMs(a) == TotalMs(b)
  {
    if a == [] {
      assert |multiset(b)| == 0;
    } else {
      var i := LastIsIn(a, b);
      TotalIgnoresOrder(a[..|a| - 1], b[..i] + b[i + 1..]);
      TotalWithout(b, i);
    }
  }

  lemma SameInstalls(a: seq<Event>, b: seq<Event>)
    requires multiset(a) == multiset(b)
    ensures Installs(a) == Installs(b) && forall e :: e in a <==> e in b
  {
    assert forall e :: e in a <==> e in multiset(a);
    assert forall e :: e in b <==> e in multiset(b);
  }

  /**
   * The counted rows of a day depend on which events are stored, not on the order the table returns them. The user
   * column of the active rows is not among them; see UserColumnIgnoresOrderExactly.
   */
  lemma SummaryIgnoresOrder(a: seq<Event>, b: seq<Event>)
    requires multiset(a) == multiset(b)
    ensures Summarise(a) == Summarise(b)
  {
    SameInstalls(a, b);
    var ends := (e: Event) => e.name == "session_end";
    SelectIgnoresOrder(a, b, ends);
    TotalIgnoresOrder(Select(a, ends), Select(b, ends));
    forall i | i in Installs(a)
      ensures Summarise(a).active[i] == Summarise(b).active[i]
    {
      SelectIgnoresOrder(a, b, (e: Event) => e.install == i);
    }
    forall n | n in Summarise(a).counts
      ensures Summarise(a).counts[n] == Summarise(b).counts[n]
    {
      SelectIgnoresOrder(a, b, (e: Event) => e.name == n);
      SameInstalls(Select(a, (e: Event) => e.name == n), Select(b, (e: Event) => e.name == n));
    }
    forall t | t in Summarise(a).screens
      ensures Summarise(a).screens[t] == Summarise(b).screens[t]
    {
      SelectIgnoresOrder(a, b, (e: Event) => IsScreenView(e) && e.screen == t);
      TotalIgnoresOrder(Select(a, (e: Event) => IsScreenView(e) && e.screen == t),
                        Select(b, (e: Event) => IsScreenView(e) && e.screen == t));
    }
    assert Summarise(a).active == Summarise(b).active;
    assert Summarise(a).counts == Summarise(b).counts;
    assert Summarise(a).screens == Summarise(b).screens;
  }

  /** The user column of an active row: the first event of the install that names one, in the table's order. */
  function UserColumn(evs: seq<Event>, install: int): string {
    if evs == [] then ""
    else if evs[0].install == install && evs[0].user != "" then evs[0].user
    else UserColumn(evs[1..], install)
  }

  ghost predicate Names(evs: seq<Event>, install: int, user: string) {
    exists e :: e in evs && e.install == install && e.user == user && user != ""
  }

  ghost predicate OneUser(evs: seq<Event>, install: int) {
    forall u, v :: Names(evs, install, u) && Names(evs, install, v) ==> u == v
  }

  lemma {:induction false} UserColumnIsNamed(evs: seq<Event>, install: int)
    ensures var u := UserColumn(evs, install);
      (u != "" ==> Names(evs, install, u)) && (u == "" ==> forall v :: !Names(evs, install, v))
  {
    if evs == [] {
    } else {
      UserColumnIsNamed(evs[1..], install);
      assert evs == [evs[0]] + evs[1..];
      assert evs[0] in evs && forall e :: e in evs[1..] ==> e in evs;
      forall v | Names(evs, install, v) && UserColumn(evs, install) == ""
        ensures Names(evs[1..], install, v)
      {
        var e :| e in evs && e.install == install && e.user == v && v != "";
        assert e in evs[1..];
      }
    }
  }

  /** The same events with the one at i in front. */
  function ToFront(evs: seq<Event>, i: nat): seq<Event>
    requires i < |evs|
  {
    [evs[i]] + evs[..i] + evs[i + 1..]
  }

  lemma ToFrontReorders(evs: seq<Event>, i: nat)
    requires i < |evs|
    ensures multiset(ToFront(evs, i)) == multiset(evs)
  {
    assert evs == evs[..i] + ([evs[i]] + evs[i + 1..]);
  }

  /** The user column depends on the order the table returns the events exactly if the install named two users. */
  lemma UserColumnIgnoresOrderExactly(a: seq<Event>, install: int)
    ensures (forall b :: multiset(b) == multiset(a) ==> UserColumn(b, install) == UserColumn(a, install)) <==>
      OneUser(a, install)
  {
    if OneUser(a, install) {
      forall b: seq<Event> | multiset(b) == multiset(a)
        ensures UserColumn(b, install) == UserColumn(a, install)
      {
        SameInstalls(a, b);
        UserColumnIsNamed(a, install);
        UserColumnIsNamed(b, install);
        assert forall u :: Names(a, install, u) <==> Names(b, install, u);
      }
    } else {
      var u, v :| Names(a, install, u) && Names(a, install, v) && u != v;
      var b := NamedFirst(a, install, u);
      var c := NamedFirst(a, install, v);
      assert UserColumn(b, install) != UserColumn(c, install);
    }
  }

  lemma NamedFirst(a: seq<Event>, install: int, u: string) returns (b: seq<Event>)
    requires Names(a, install, u)
    ensures multiset(b) == multiset(a) && UserColumn(b, install) == u
  {
    var e :| e in a && e.install == install && e.user == u && u != "";
    var i :| 0 <= i < |a| && a[i] == e;
    ToFrontReorders(a, i);
    b := ToFront(a, i);
  }

  lemma {:induction false} SelectConcat(a: seq<Event>, b: seq<Event>, p: Event -> bool)
    ensures Select(a + b, p) == Select(a, p) + Select(b, p)
  {
    if b == [] {
      assert a + b == a;
    } else {
      var n := |b| - 1;
      assert a + b == a + b[..n] + [b[n]] && b == b[..n] + [b[n]];
      SelectConcat(a, b[..n], p);
      SelectAppend(a + b[..n], b[n], p);
      SelectAppend(b[..n], b[n], p);
    }
  }

  /** More events always show in the day's rows. */
  lemma SummariseCountsEvents()
    ensures CountsEvents(Summarise)
  {
    forall evs: seq<Event>, more: seq<Event> | more != []
      ensures Summarise(evs + more) != Summarise(evs)
    {
      var name := more[0].name;
      var p := (x: Event) => x.name == name;
      SelectConcat(evs, more, p);
      SelectMember(more, p, more[0]);
      assert |Select(evs + more, p)| > |Select(evs, p)|;
      assert more[0] in evs + more;
      assert Summarise(evs + more).counts[name].count == |Select(evs + more, p)|;
      if name in Summarise(evs).counts {
        assert Summarise(evs).counts[name].count == |Select(evs, p)|;
      }
    }
  }
}
