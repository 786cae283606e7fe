/** The monthly partitions of the event table (repository/analytics.go). */
module Partitions {
  import opened Calendar

  /** The partitions whose whole month ended by the cutoff. */
  function Expired(partitions: set<int>, cutoff: int): set<int> {
    set m | m in partitions && MonthStart(m + 1) <= cutoff
  }

  /** Scans the partition names in catalogue order and keeps those whose month ended by the cutoff. */
  method ExpiredNames(partitions: set<int>, cutoff: int) returns (expired: set<int>)
    ensures expired == Expired(partitions, cutoff)
  {
    expired := {};
    var todo := partitions;
    while exists m :: m in todo
      invariant todo <= partitions
      invariant expired == Expired(partitions - todo, cutoff)
      decreases todo
    {
      var m :| m in todo;
      todo := todo - {m};
      if MonthStart(m + 1) <= cutoff {
        expired := expired + {m};
      }
    }
    assert todo == {};
  }

  /** The n months from `first` on. */
  function Months(first: int, n: nat): set<int> {
    if n == 0 then {} else Months(first, n - 1) + {first + n - 1}
  }

  /** A partition has expired exactly if every instant of its month is past at the cutoff. */
  lemma ExpiredExactly(partitions: set<int>, cutoff: int, m: int)
    ensures m in Expired(partitions, cutoff) <==> m in partitions && forall t :: InMonth(t, m) ==> t < cutoff
  {
    MonthLength(m);
    if forall t :: InMonth(t, m) ==> t < cutoff {
      assert InMonth(MonthStart(m + 1) - 1, m);
    }
  }

  lemma {:induction false} MonthsAreInARow(first: int, n: nat, m: int)
    ensures m in Months(first, n) <==> first <= m < first + n
  {
    if n > 0 {
      MonthsAreInARow(first, n - 1, m);
    }
  }
}
