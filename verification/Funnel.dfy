/** The ordered-steps funnel (repository/admin_analytics.go, service/admin_analytics.go). */
module Funnel {
  import opened Calendar

  datatype Event = Event(install: int, name: string, ts: int)
  datatype Reach = Never | At(t: int)

  predicate Matches(e: Event, install: int, name: string, lo: int, hi: int) {
    e.install == install && e.name == name && lo <= e.ts < hi
  }

  /** min(ts) over an install's events of one name in [lo, hi). */
  function Earliest(evs: seq<Event>, install: int, name: string, lo: int, hi: int): Reach {
    if evs == [] then Never
    else
      var rest, e := Earliest(evs[..|evs| - 1], install, name, lo, hi), evs[|evs| - 1];
      if !Matches(e, install, name, lo, hi) then rest
      else if rest == Never || e.ts < rest.t then At(e.ts)
      else rest
  }

  lemma {:induction false} EarliestIsTheMinimum(evs: seq<Event>, install: int, name: string, lo: int, hi: int)
    ensures var r := Earliest(evs, install, name, lo, hi);
      && (forall e :: e in evs && Matches(e, install, name, lo, hi) ==> r.At? && r.t <= e.ts)
      && (r.At? ==> exists e :: e in evs && Matches(e, install, name, lo, hi) && e.ts == r.t)
  {
    if evs == [] {
    } else {
      var n := |evs| - 1;
      EarliestIsTheMinimum(evs[..n], install, name, lo, hi);
      assert evs == evs[..n] + [evs[n]];
    }
  }

  /** The install's time in the last of the chained tables: each keeps only its earliest time. */
  function Greedy(evs: seq<Event>, steps: seq<string>, install: int, lo: int, hi: int): Reach {
    if steps == [] then At(lo)
    else
      match Greedy(evs, steps[..|steps| - 1], install, lo, hi)
      case Never => Never
      case At(t) => Earliest(evs, install, steps[|steps| - 1], t, hi)
  }

  /** Times at which the install did the steps in order inside [lo, hi). */
  ghost predicate Chain(evs: seq<Event>, steps: seq<string>, install: int, lo: int, hi: int, ts: seq<int>) {
    && |ts| == |steps|
    && (forall k :: 0 <= k < |ts| ==> Event(install, steps[k], ts[k]) in evs && lo <= ts[k] < hi)
    && (forall j, k :: 0 <= j < k < |ts| ==> ts[j] <= ts[k])
  }

  ghost predicate Completes(evs: seq<Event>, steps: seq<string>, install: int, lo: int, hi: int) {
    exists ts :: Chain(evs, steps, install, lo, hi, ts)
  }

  /** No way of doing the steps in order finishes before the greedy time. */
  lemma {:induction false} GreedyIsEarliest(evs: seq<Event>, steps: seq<string>, install: int, lo: int, hi: int,
                                            ts: seq<int>)
    requires Chain(evs, steps, install, lo, hi, ts)
    ensures Greedy(evs, steps, install, lo, hi).At?
    ensures steps != [] ==> Greedy(evs, steps, install, lo, hi).t <= ts[|ts| - 1]
  {
    if steps == [] {
    } else {
      var n := |steps| - 1;
      GreedyIsEarliest(evs, steps[..n], install, lo, hi, ts[..n]);
      var t := Greedy(evs, steps[..n], install, lo, hi).t;
      EarliestIsTheMinimum(evs, install, steps[n], t, hi);
      assert Matches(Event(install, steps[n], ts[n]), install, steps[n], t, hi);
    }
  }

  lemma {:induction false} GreedyIsAChain(evs: seq<Event>, steps: seq<string>, install: int, lo: int, hi: int)
    returns (ts: seq<int>)
    requires Greedy(evs, steps, install, lo, hi).At?
    ensures Chain(evs, steps, install, lo, hi, ts)
    ensures Greedy(evs, steps, install, lo, hi).t == if steps == [] then lo else ts[|ts| - 1]
  {
    ts := [];
    if steps != [] {
      var n := |steps| - 1;
      ts := GreedyIsAChain(evs, steps[..n], install, lo, hi);
      var t := Greedy(evs, steps[..n], install, lo, hi).t;
      EarliestIsTheMinimum(evs, install, steps[n], t, hi);
      var e :| e in evs && Matches(e, install, steps[n], t, hi) && e.ts == Greedy(evs, steps, install, lo, hi).t;
      assert e == Event(install, steps[n], e.ts);
      ts := ts + [e.ts];
    }
  }

  /** The query keeps one time per step, and that is enough: it counts exactly the installs with some ordered chain. */
  lemma GreedyIsExact(evs: seq<Event>, steps: seq<string>, install: int, lo: int, hi: int)
    ensures Greedy(evs, steps, install, lo, hi).At? <==> Completes(evs, steps, install, lo, hi)
  {
    if Greedy(evs, steps, install, lo, hi).At? {
      var ts := GreedyIsAChain(evs, steps, install, lo, hi);
    }
    if Completes(evs, steps, install, lo, hi) {
      var ts :| Chain(evs, steps, install, lo, hi, ts);
      GreedyIsEarliest(evs, steps, install, lo, hi, ts);
    }
  }

  function Installs(evs: seq<Event>): set<int> {
    set e | e in evs :: e.install
  }

  /** The installs that did the first steps in order. */
  ghost function Completers(evs: seq<Event>, steps: seq<string>, lo: int, hi: int): set<int> {
    set i | i in Installs(evs) && Completes(evs, steps, i, lo, hi)
  }

  /** How many installs completed the first k steps. */
  ghost function Reached(evs: seq<Event>, steps: seq<string>, k: nat, lo: int, hi: int): nat
    requires k <= |steps|
  {
    |Completers(evs, steps[..k], lo, hi)|
  }

  lemma CompletersAreGreedy(evs: seq<Event>, steps: seq<string>, lo: int, hi: int, found: set<int>)
    requires found == set i | i in Installs(evs) && Greedy(evs, steps, i, lo, hi).At?
    ensures found == Completers(evs, steps, lo, hi)
  {
    forall i
      ensures Greedy(evs, steps, i, lo, hi).At? <==> Completes(evs, steps, i, lo, hi)
    {
      GreedyIsExact(evs, steps, i, lo, hi);
    }
  }

  /** One table per step, each built from the one before; the counts are their sizes. */
  method AnalyticsFunnel(evs: seq<Event>, steps: seq<string>, lo: int, hi: int) returns (counts: seq<nat>)
    ensures |counts| == |steps|
    ensures forall k :: 0 <= k < |steps| ==> counts[k] == Reached(evs, steps, k + 1, lo, hi)
  {
    counts := [];
    var installs := Installs(evs);
    var table := map i | i in installs :: lo;
    for k := 0 to |steps|
      invariant |counts| == k
      invariant forall j :: 0 <= j < k ==> counts[j] == Reached(evs, steps, j + 1, lo, hi)
      invariant table.Keys == set i | i in installs && Greedy(evs, steps[..k], i, lo, hi).At?
      invariant forall i :: i in table ==> Greedy(evs, steps[..k], i, lo, hi) == At(table[i])
    {
      ghost var prefix := steps[..k + 1];
      assert prefix[..k] == steps[..k];
      table := map i | i in table && Earliest(evs, i, steps[k], table[i], hi).At?
                 :: Earliest(evs, i, steps[k], table[i], hi).t;
      CompletersAreGreedy(evs, prefix, lo, hi, table.Keys);
      counts := counts + [|table|];
    }
  }

  /** Taking a step away keeps every install that completed it. */
  lemma StepsOnlyLose(evs: seq<Event>, steps: seq<string>, lo: int, hi: int)
    requires steps != []
    ensures Completers(evs, steps, lo, hi) <= Completers(evs, steps[..|steps| - 1], lo, hi)
  {
    forall i | i in Completers(evs, steps, lo, hi)
      ensures i in Completers(evs, steps[..|steps| - 1], lo, hi)
    {
      var ts :| Chain(evs, steps, i, lo, hi, ts);
      assert Chain(evs, steps[..|steps| - 1], i, lo, hi, ts[..|ts| - 1]);
    }
  }

  /**
   * A step equal to the one before it loses nobody: at-or-after lets the same event count for both,
   * so the funnel never asks for an event to happen twice.
   */
  lemma RepeatedStepLosesNobody(evs: seq<Event>, steps: seq<string>, lo: int, hi: int)
    requires |steps| >= 2 && steps[|steps| - 1] == steps[|steps| - 2]
    ensures Completers(evs, steps, lo, hi) == Completers(evs, steps[..|steps| - 1], lo, hi)
  {
    StepsOnlyLose(evs, steps, lo, hi);
    var n := |steps| - 1;
    forall i | i in Completers(evs, steps[..n], lo, hi)
      ensures i in Completers(evs, steps, lo, hi)
    {
      var ts :| Chain(evs, steps[..n], i, lo, hi, ts);
      assert Chain(evs, steps, i, lo, hi, ts + [ts[n - 1]]);
    }
  }

  lemma SubsetIsSmaller(a: set<int>, b: set<int>)
    requires a <= b
    ensures |a| <= |b|
  {
    assert b == a + (b - a);
  }

  /** Counts never increase from one step to a later one. */
  lemma {:induction false} CountsNeverIncrease(evs: seq<Event>, steps: seq<string>, lo: int, hi: int, j: nat, k: nat)
    requires j <= k <= |steps|
    ensures Reached(evs, steps, k, lo, hi) <= Reached(evs, steps, j, lo, hi)
    decreases k
  {
    if j < k {
      assert steps[..k][..k - 1] == steps[..k - 1];
      StepsOnlyLose(evs, steps[..k], lo, hi);
      SubsetIsSmaller(Completers(evs, steps[..k], lo, hi), Completers(evs, steps[..k - 1], lo, hi));
      CountsNeverIncrease(evs, steps, lo, hi, j, k - 1);
    }
  }

  datatype FunnelStep = FunnelStep(name: string, count: nat, pctOfFirst: real, pctOfPrev: real)
  datatype Result = Invalid | Steps(rows: seq<FunnelStep>)

  const MAX_FUNNEL_STEPS := 6
  const MAX_DAYS := 90

  /** A share of nothing is reported as 0. */
  function Share(part: nat, whole: nat): real {
    if whole > 0 then part as real / whole as real else 0.0
  }

  /** p is part / whole and a proper share. */
  ghost predicate IsShare(p: real, part: nat, whole: nat) {
    0.0 <= p <= 1.0 && p * whole as real == part as real && (whole == 0 ==> p == 0.0)
  }

  lemma ShareOfAPart(part: nat, whole: nat)
    requires part <= whole
    ensures IsShare(Share(part, whole), part, whole)
  {
    if whole > 0 {
      ShareIsBelowOne(part as real, whole as real);
    }
  }

  lemma ShareIsBelowOne(x: real, y: real)
    requires 0.0 <= x <= y && y > 0.0
    ensures 0.0 <= x / y <= 1.0
  {
  }

  ghost predicate Report(steps: seq<string>, counts: seq<nat>, rows: seq<FunnelStep>) {
    && |steps| == |counts| == |rows|
    && (forall k :: 0 <= k < |rows| ==> rows[k].name == steps[k] && rows[k].count == counts[k])
    && (forall k :: 0 <= k < |rows| ==> IsShare(rows[k].pctOfFirst, counts[k], counts[0]))
    && (forall k :: 0 < k < |rows| ==> IsShare(rows[k].pctOfPrev, counts[k], counts[k - 1]))
    && (rows != [] ==> rows[0].pctOfPrev == 0.0)
  }

  method BuildRows(steps: seq<string>, counts: seq<nat>) returns (rows: seq<FunnelStep>)
    requires |steps| == |counts| && forall j, k :: 0 <= j <= k < |counts| ==> counts[k] <= counts[j]
    ensures Report(steps, counts, rows)
  {
    rows := [];
    for i := 0 to |steps|
      invariant |rows| == i
      invariant forall k :: 0 <= k < i ==> rows[k].name == steps[k] && rows[k].count == counts[k]
      invariant forall k :: 0 <= k < i ==> IsShare(rows[k].pctOfFirst, counts[k], counts[0])
      invariant forall k :: 0 < k < i ==> IsShare(rows[k].pctOfPrev, counts[k], counts[k - 1])
      invariant i > 0 ==> rows[0].pctOfPrev == 0.0
    {
      assert counts[i] <= counts[0];
      ShareOfAPart(counts[i], counts[0]);
      var ofPrev := 0.0;
      if i > 0 {
        assert counts[i] <= counts[i - 1];
        ShareOfAPart(counts[i], counts[i - 1]);
        ofPrev := Share(counts[i], counts[i - 1]);
      }
      rows := rows + [FunnelStep(steps[i], counts[i], Share(counts[i], counts[0]), ofPrev)];
    }
  }

  /** The report of the last `days` Iran days up to and including today; the counts never increase. */
  method FunnelReport(evs: seq<Event>, steps: seq<string>, vocabulary: set<string>, days: int, now: int)
    returns (r: Result, ghost counts: seq<nat>)
    ensures r.Invalid? <==>
      |steps| < 2 || |steps| > 6 || days < 1 || days > 90 ||
      exists s :: s in steps && s !in vocabulary
    ensures r.Steps? ==> Report(steps, counts, r.rows)
    ensures r.Steps? ==> forall k :: 0 <= k < |steps| ==>
      counts[k] == Reached(evs, steps, k + 1, DayStart(IranDay(now) - (days - 1)), DayStart(IranDay(now) + 1))
    ensures r.Steps? ==> forall j, k :: 0 <= j <= k < |steps| ==> counts[k] <= counts[j]
  {
    counts := [];
    if |steps| < 2 || |steps| > MAX_FUNNEL_STEPS {
      r := Invalid;
      return;
    }
    for i := 0 to |steps|
      invariant forall j :: 0 <= j < i ==> steps[j] in vocabulary
    {
      if steps[i] !in vocabulary {
        r := Invalid;
        return;
      }
    }
    if days < 1 || days > MAX_DAYS {
      r := Invalid;
      return;
    }
    var lo, hi := DayStart(IranDay(now) - (days - 1)), DayStart(IranDay(now) + 1);
    var read := AnalyticsFunnel(evs, steps, lo, hi);
    forall j, k | 0 <= j <= k < |read|
      ensures read[k] <= read[j]
    {
      CountsNeverIncrease(evs, steps, lo, hi, j + 1, k + 1);
    }
    var rows := BuildRows(steps, read);
    r, counts := Steps(rows), read;
  }
}
