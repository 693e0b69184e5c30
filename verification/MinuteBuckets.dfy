/** Which bars of a bucket its aggregated bar is made of, and what the average price is made of. */
module MinuteBuckets {
  import opened Ordering
  import opened Decimals
  import opened MinuteBars

  // ---- a stable sort keeps the order of ties ----

  lemma {:induction false} FilterOfInsert<T(!new)>(x: T, s: seq<T>, leq: (T, T) -> bool, p: T -> bool)
    requires TotalPreorder(leq) && Sorted(s, leq)
    ensures Filter(Insert(x, s, leq), p) == if p(x) then Insert(x, Filter(s, p), leq) else Filter(s, p)
  {
    if s != [] {
      var y, rest := s[0], s[1..];
      assert s == [y] + rest;
      if leq(x, y) {
        assert ([x] + s)[1..] == s;
        assert Filter(s, p) == [] || leq(x, Filter(s, p)[0]) by {
          if Filter(s, p) != [] { assert Filter(s, p)[0] in s; }
        }
      } else {
        FilterOfInsert(x, rest, leq, p);
        assert ([y] + Insert(x, rest, leq))[1..] == Insert(x, rest, leq);
      }
    }
  }

  lemma {:induction false} FilterOfStableSort<T(!new)>(s: seq<T>, leq: (T, T) -> bool, p: T -> bool)
    requires TotalPreorder(leq)
    ensures Filter(Sort(s, leq), p) == Sort(Filter(s, p), leq)
  {
    if s != [] {
      FilterOfStableSort(s[1..], leq, p);
      SortSorts(s[1..], leq);
      FilterOfInsert(s[0], Sort(s[1..], leq), leq, p);
    }
  }

  /** `g[f]` is the earliest bar of `g`, the first one among those of the same time. */
  ghost predicate IsEarliest(g: seq<MinuteBar>, f: int) {
    && 0 <= f < |g|
    && forall j :: 0 <= j < |g| ==> g[f].timestamp < g[j].timestamp || (g[f].timestamp == g[j].timestamp && f <= j)
  }

  /** `g[l]` is the latest bar of `g`, the last one among those of the same time. */
  ghost predicate IsLatest(g: seq<MinuteBar>, l: int) {
    && 0 <= l < |g|
    && forall j :: 0 <= j < |g| ==> g[j].timestamp < g[l].timestamp || (g[j].timestamp == g[l].timestamp && j <= l)
  }

  lemma {:induction false} StartOfSort(g: seq<MinuteBar>) returns (f: int)
    requires g != []
    ensures IsEarliest(g, f) && Sort(g, TimeLeq)[0] == g[f]
  {
    if |g| == 1 {
      f := 0;
    } else {
      var rest, x := Sort(g[1..], TimeLeq), g[0];
      var a := StartOfSort(g[1..]);
      TimeLeqTotal();
      SortSorts(g[1..], TimeLeq);
      InsertEnds(x, rest);
      assert Sort(g, TimeLeq) == Insert(x, rest, TimeLeq);
      hide Sort, Insert;
      f := if TimeLeq(x, rest[0]) then 0 else a + 1;
      EarliestCons(g, a, f);
    }
  }

  lemma EarliestCons(g: seq<MinuteBar>, a: int, f: int)
    requires |g| > 1 && IsEarliest(g[1..], a) && f == if g[0].timestamp <= g[a + 1].timestamp then 0 else a + 1
    ensures IsEarliest(g, f)
  {
    assert forall j :: 0 < j < |g| ==> g[j] == g[1..][j - 1];
  }

  lemma {:induction false} EndOfSort(g: seq<MinuteBar>) returns (l: int)
    requires g != []
    ensures IsLatest(g, l) && Sort(g, TimeLeq)[|g| - 1] == g[l]
  {
    if |g| == 1 {
      l := 0;
    } else {
      var rest, x := Sort(g[1..], TimeLeq), g[0];
      var a := EndOfSort(g[1..]);
      TimeLeqTotal();
      SortSorts(g[1..], TimeLeq);
      InsertEnds(x, rest);
      assert Sort(g, TimeLeq) == Insert(x, rest, TimeLeq);
      hide Sort, Insert;
      l := if TimeLeq(x, rest[|rest| - 1]) then a + 1 else 0;
      LatestCons(g, a, l);
    }
  }

  lemma LatestCons(g: seq<MinuteBar>, a: int, l: int)
    requires |g| > 1 && IsLatest(g[1..], a) && l == if g[0].timestamp <= g[a + 1].timestamp then a + 1 else 0
    ensures IsLatest(g, l)
  {
    assert forall j :: 0 < j < |g| ==> g[j] == g[1..][j - 1];
  }

  lemma {:induction false} InsertEnds(x: MinuteBar, s: seq<MinuteBar>)
    requires s != [] && Sorted(s, TimeLeq)
    ensures var r := Insert(x, s, TimeLeq);
      && |r| == |s| + 1
      && r[0] == (if TimeLeq(x, s[0]) then x else s[0])
      && r[|r| - 1] == if TimeLeq(x, s[|s| - 1]) then s[|s| - 1] else x
  {
    if !TimeLeq(x, s[0]) && |s| > 1 { InsertEnds(x, s[1..]); }
  }

  // ---- the bar of a bucket ----

  ghost predicate IsHighest(x: real, g: seq<MinuteBar>) {
    (exists b :: b in g && b.high == x) && forall b :: b in g ==> b.high <= x
  }

  ghost predicate IsLowest(x: real, g: seq<MinuteBar>) {
    (exists b :: b in g && b.low == x) && forall b :: b in g ==> x <= b.low
  }

  ghost predicate IsNewest(x: int, g: seq<MinuteBar>) {
    (exists b :: b in g && b.asOf == x) && forall b :: b in g ==> b.asOf <= x
  }

  lemma {:induction false} CombineEnds(v: seq<MinuteBar>)
    requires v != []
    ensures var c := Combine(v);
      && c.open == v[0].open && c.symbol == v[0].symbol && c.currency == v[0].currency && c.source == v[0].source
      && c.close == v[|v| - 1].close && c.volume == Volume(v)
  {
    if |v| > 1 { CombineEnds(v[1..]); } else { assert Volume(v[1..]) == 0; }
  }

  lemma {:induction false} CombineExtremes(v: seq<MinuteBar>)
    requires v != []
    ensures var c := Combine(v); IsHighest(c.high, v) && IsLowest(c.low, v) && IsNewest(c.asOf, v)
  {
    assert v == [v[0]] + v[1..];
    if |v| == 1 {
      assert v[0] in v;
    } else {
      CombineExtremes(v[1..]);
      ExtremesCons(v[0], Combine(v[1..]), v[1..]);
    }
  }

  lemma ExtremesCons(a: MinuteBar, c: MinuteBar, rest: seq<MinuteBar>)
    requires IsHighest(c.high, rest) && IsLowest(c.low, rest) && IsNewest(c.asOf, rest)
    ensures var m := Merge(a, c); var v := [a] + rest;
      IsHighest(m.high, v) && IsLowest(m.low, v) && IsNewest(m.asOf, v)
  {
    var h :| h in rest && h.high == c.high;
    var l :| l in rest && l.low == c.low;
    var n :| n in rest && n.asOf == c.asOf;
    var v := [a] + rest;
    assert a == v[0] && forall b :: b in v <==> b == a || b in rest;
    assert a in v && h in v && l in v && n in v;
  }

  lemma ExtremesSame(c: MinuteBar, v: seq<MinuteBar>, g: seq<MinuteBar>)
    requires forall b :: b in v <==> b in g
    requires IsHighest(c.high, v) && IsLowest(c.low, v) && IsNewest(c.asOf, v)
    ensures IsHighest(c.high, g) && IsLowest(c.low, g) && IsNewest(c.asOf, g)
  {}

  /** The bar opens as the earliest of `g`, which also gives symbol, currency and source. */
  ghost predicate OpensAs(c: MinuteBar, g: seq<MinuteBar>) {
    exists f :: IsEarliest(g, f) && c.open == g[f].open && c.symbol == g[f].symbol && c.currency == g[f].currency
      && c.source == g[f].source
  }

  /** The bar closes as the latest of `g`. */
  ghost predicate ClosesAs(c: MinuteBar, g: seq<MinuteBar>) { exists l :: IsLatest(g, l) && c.close == g[l].close }

  /** `c` is the bar of the bars `g` of one bucket, in their input order. */
  ghost predicate IsBarOf(c: MinuteBar, g: seq<MinuteBar>) {
    && OpensAs(c, g) && ClosesAs(c, g)
    && IsHighest(c.high, g) && IsLowest(c.low, g) && IsNewest(c.asOf, g) && c.volume == Volume(g)
  }

  lemma CombineOpensAndCloses(g: seq<MinuteBar>)
    requires g != []
    ensures var s := Sort(g, TimeLeq); s != [] && OpensAs(Combine(s), g) && ClosesAs(Combine(s), g)
  {
    var f := StartOfSort(g);
    var l := EndOfSort(g);
    var s := Sort(g, TimeLeq);
    CombineEnds(s);
    hide Combine, Sort, IsEarliest, IsLatest;
  }

  lemma CombineIsBar(g: seq<MinuteBar>, t: int)
    requires g != []
    ensures Sort(g, TimeLeq) != [] && IsBarOf(Stamped(Combine(Sort(g, TimeLeq)), t), g)
  {
    CombineOpensAndCloses(g);
    var s := Sort(g, TimeLeq);
    SameElements(g, s);
    VolumePermutation(g, s);
    CombineEnds(s);
    CombineExtremes(s);
    ExtremesSame(Combine(s), s, g);
    hide Combine, Sort, IsEarliest, IsLatest, Volume, IsHighest, IsLowest, IsNewest;
  }

  /** Every aggregated bar is the bar of exactly the input bars of its bucket, and every input bar is in one. */
  lemma AggregateMeaning(bars: seq<MinuteBar>, n: int)
    requires 1 < n && Aggregated(bars, n).Ok?
    ensures var r := Aggregated(bars, n).bars;
      && (forall i :: 0 <= i < |r| ==> IsBarOf(r[i], Values(bars, r[i].timestamp, n)))
      && (forall i :: 0 <= i < |bars| ==> exists b :: b in r && b.timestamp == Bucket(bars[i].timestamp, n))
  {
    hide Bucket, Combine, IsBarOf;
    var s, r := Sort(bars, TimeLeq), Aggregated(bars, n).bars;
    TimeLeqTotal();
    SortSorts(bars, TimeLeq);
    SameElements(bars, s);
    forall i | 0 <= i < |r| ensures IsBarOf(r[i], Values(bars, r[i].timestamp, n)) {
      AggIsGroup(s, n, i);
      var t := r[i].timestamp;
      FilterOfStableSort(bars, TimeLeq, InBucket(t, n));
      CombineIsBar(Values(bars, t, n), t);
    }
    forall i | 0 <= i < |bars| ensures exists b :: b in r && b.timestamp == Bucket(bars[i].timestamp, n) {
      assert bars[i] in s;
      var b := AggTarget(s, n, bars[i]);
    }
  }

  /** Two bars of one bucket that differ in symbol or currency. */
  ghost predicate Mixed(bars: seq<MinuteBar>, n: int, i: int, j: int)
    requires 0 < n
  {
    && 0 <= i < |bars| && 0 <= j < |bars| && Bucket(bars[i].timestamp, n) == Bucket(bars[j].timestamp, n)
    && (bars[i].symbol != bars[j].symbol || bars[i].currency != bars[j].currency)
  }

  /** When aggregation is refused, and when it returns its input. */
  lemma AggregateRefusals(bars: seq<MinuteBar>, n: int)
    ensures var r := Aggregated(bars, n);
      && (r == BadMinutes <==> n <= 0)
      && (n == 1 ==> r == Ok(bars))
      && (r == MixedBars <==> 1 < n && exists i, j :: Mixed(bars, n, i, j))
  {
    hide Bucket, Agg;
    if 1 < n {
      var s := Sort(bars, TimeLeq);
      SameElements(bars, s);
      hide Sort;
      if i, j :| Mixed(bars, n, i, j) {
        assert bars[i] in s && bars[j] in s;
      } else {
        forall x, y | x in s && y in s && Bucket(x.timestamp, n) == Bucket(y.timestamp, n)
          ensures x.symbol == y.symbol && x.currency == y.currency
        {
          assert x in bars && y in bars;
          var i :| 0 <= i < |bars| && bars[i] == x;
          var j :| 0 <= j < |bars| && bars[j] == y;
          assert !Mixed(bars, n, i, j);
        }
      }
    }
  }

  // ---- the average price ----

  /** One bar with volume averages to the mean of its high, low and close. */
  lemma VwapOfOne(b: MinuteBar)
    requires 0 < b.volume
    ensures Vwap([b]).Some? && 3.0 * Vwap([b]).value == b.high + b.low + b.close
  {
    assert Volume([b][1..]) == 0 && Weighted([b][1..]) == 0.0;
    var v := b.volume as real;
    QuotientUnique(Typical(b) * v, v, Typical(b));
  }

  lemma VwapTimes(s: seq<MinuteBar>)
    requires Vwap(s).Some?
    ensures 0 < Volume(s) && Vwap(s).value * Volume(s) as real == Weighted(s)
  {
    hide Weighted, Volume;
    QuotientTimes(Weighted(s), Volume(s) as real);
  }

  /** The average of two stretches of bars is their averages weighted by volume. */
  lemma VwapComposes(s: seq<MinuteBar>, t: seq<MinuteBar>)
    requires Vwap(s).Some? && Vwap(t).Some?
    ensures Vwap(s + t).Some? && Volume(s + t) == Volume(s) + Volume(t)
    ensures Vwap(s + t).value * Volume(s + t) as real
         == Vwap(s).value * Volume(s) as real + Vwap(t).value * Volume(t) as real
  {
    VwapTimes(s);
    VwapTimes(t);
    SumsCompose(s, t);
    assert Vwap(s + t).Some? by { hide Weighted, Volume; }
    hide Vwap, Weighted, Volume;
    VwapTimes(s + t);
  }

  /** Bars without volume do not matter. */
  lemma VwapIgnoresEmpty(s: seq<MinuteBar>, t: seq<MinuteBar>)
    requires forall b :: b in t ==> b.volume == 0
    ensures Vwap(s + t) == Vwap(s)
  {
    SumsCompose(s, t);
    NoVolume(t);
  }

  lemma {:induction false} NoVolume(t: seq<MinuteBar>)
    requires forall b :: b in t ==> b.volume == 0
    ensures Volume(t) == 0 && Weighted(t) == 0.0
  {
    if t != [] {
      assert t[0] in t;
      NoVolume(t[1..]);
    }
  }

  lemma {:induction false} SumsCompose(s: seq<MinuteBar>, t: seq<MinuteBar>)
    ensures Volume(s + t) == Volume(s) + Volume(t) && Weighted(s + t) == Weighted(s) + Weighted(t)
  {
    if s == [] {
      assert s + t == t;
    } else {
      SumsCompose(s[1..], t);
      assert (s + t)[1..] == s[1..] + t;
    }
  }
}
