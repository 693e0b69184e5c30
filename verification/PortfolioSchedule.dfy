/** The search for entry days: when its dictionary lookup fails, and why the order in which signals arrive
    does not matter. */
module PortfolioSchedule {
  import opened Ordering
  import opened Backtest
  import opened Portfolio

  // ---- the failing lookup ----

  /** Day `k` of the calendar, no earlier than `i`, comes after the signal and has no bar of any signalled
      symbol, and the signal's own symbol has none between the two. */
  ghost predicate FailsAt(m: Market, s: Signal, i: int, k: int) {
    && 0 <= i <= k < |m.dates| && s.date < m.dates[k] && m.dates[k] !in m.byDate
    && forall j :: i <= j < k && s.date < m.dates[j] ==> s.symbol !in m.Bars(j)
  }

  /** The search meets such a day exactly when there is one. */
  lemma {:induction false} LookupFailsExactly(m: Market, s: Signal, i: int)
    requires 0 <= i <= |m.dates|
    ensures FindEntry(m, s, i) == MissingDay <==> exists k :: FailsAt(m, s, i, k)
    decreases |m.dates| - i
  {
    if i < |m.dates| {
      var next := i + 1;
      LookupFailsExactly(m, s, next);
      if s.date < m.dates[i] && m.dates[i] !in m.byDate {
        assert FailsAt(m, s, i, i);
      } else if s.date < m.dates[i] && s.symbol in m.Bars(i) {
        assert forall k :: !FailsAt(m, s, i, k);
      } else {
        assert forall k :: FailsAt(m, s, i, k) <==> FailsAt(m, s, next, k);
      }
    }
  }

  /** No signal meets a blank day before the first bar of its own symbol. */
  lemma LookedExactly(m: Market, signals: seq<Signal>)
    ensures Looked(m, signals) <==> forall s, k :: s in signals ==> !FailsAt(m, s, 0, k)
  {
    hide FindEntry, FailsAt;
    forall s ensures FindEntry(m, s, 0) == MissingDay <==> exists k :: FailsAt(m, s, 0, k) {
      LookupFailsExactly(m, s, 0);
    }
    if Looked(m, signals) {
      forall s, k | s in signals ensures !FailsAt(m, s, 0, k) { assert FindEntry(m, s, 0) != MissingDay; }
    }
  }

  /** A market-wide calendar with a day on which only other stocks have bars. */
  lemma SuspendedStock() returns (m: Market, s: Signal)
    ensures m.Valid() && FailsAt(m, s, 0, 0) && !Looked(m, [s])
    ensures m.dates == [2, 3] && s.date == 1 && m.byDate.Keys == {3} && s.symbol in m.byDate[3]
  {
    s := Signal("A", 1);
    m := Market([2, 3], map[3 := map["A" := Bar(1.0, 1.0, 1.0, 1.0)]]);
    assert s in [s];
  }

  // ---- the order of the signals ----

  lemma SignalOrder()
    ensures TotalPreorder(SignalLeq)
    ensures forall a, b :: SignalLeq(a, b) && SignalLeq(b, a) ==> a == b
  {
    forall a: Signal, b: Signal
      ensures SignalLeq(a, b) || SignalLeq(b, a)
      ensures SignalLeq(a, b) && SignalLeq(b, a) ==> a == b
    {
      StrLeqTotal(a.symbol, b.symbol);
      if StrLeq(a.symbol, b.symbol) && StrLeq(b.symbol, a.symbol) { StrLeqAntisymmetric(a.symbol, b.symbol); }
    }
    forall a: Signal, b: Signal, c: Signal | SignalLeq(a, b) && SignalLeq(b, c) ensures SignalLeq(a, c) {
      if StrLeq(a.symbol, b.symbol) && StrLeq(b.symbol, c.symbol) {
        StrLeqTransitive(a.symbol, b.symbol, c.symbol);
      }
    }
  }

  /** The entry events of a day are in order, so sorting them again before the day's entries changes nothing. */
  lemma EventsSorted(m: Market, signals: seq<Signal>, d: int)
    requires Sorted(signals, SignalLeq) && 0 <= d < |m.dates|
    ensures Sort(Events(m, signals, d), SignalLeq) == Events(m, signals, d)
  {
    FilterSorted(signals, HasEntry(m, At(d)), SignalLeq);
    SortOfSorted(Events(m, signals, d), SignalLeq);
  }

  /** Signals are handled by date, and those of one date by symbol. */
  lemma SignalsInOrder(generated: seq<Signal>)
    ensures var s := Sort(generated, SignalLeq);
      && (forall i, j :: 0 <= i < j < |s| ==> s[i].date <= s[j].date)
      && (forall i, j :: 0 <= i < j < |s| && s[i].date == s[j].date ==> StrLeq(s[i].symbol, s[j].symbol))
  {
    SignalOrder();
    SortSorts(generated, SignalLeq);
  }

  /** Sorting gives one list whatever the order in which the signals were generated. */
  lemma SignalsIgnoreOrder(x: seq<Signal>, y: seq<Signal>)
    requires multiset(x) == multiset(y)
    ensures Sort(x, SignalLeq) == Sort(y, SignalLeq) && Sorted(Sort(x, SignalLeq), SignalLeq)
  {
    hide SignalLeq;
    SignalOrder();
    SortPermutation(x, y, SignalLeq);
    SortSorts(x, SignalLeq);
  }
}
