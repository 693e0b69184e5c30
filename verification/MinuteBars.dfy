/** Aggregation of minute bars into longer buckets, and the volume-weighted average price. */
module MinuteBars {
  import opened Options
  import opened Ordering
  import opened Decimals

  const MINUTE := 60000000
  const HOUR := 60 * MINUTE

  /** A bar; `timestamp` and `asOf` are instants in microseconds on the Korean clock. */
  datatype MinuteBar = MinuteBar(
    symbol: string,
    timestamp: int,
    open: real,
    high: real,
    low: real,
    close: real,
    volume: int,
    currency: string,
    source: string,
    asOf: int)

  /** What constructing a bar validates. */
  predicate Valid(b: MinuteBar) {
    && 0.0 <= b.open && 0.0 <= b.high && 0.0 <= b.low && 0.0 <= b.close && 0 <= b.volume
    && b.open <= b.high && b.close <= b.high && b.low <= b.high
    && b.low <= b.open && b.low <= b.close
  }

  /** The instant with the minute rounded down to a multiple of `n` inside its hour, seconds dropped. */
  function Bucket(t: int, n: int): int
    requires 0 < n
  {
    var minute := t % HOUR / MINUTE;
    t - t % HOUR + minute / n * n * MINUTE
  }

  function At(b: MinuteBar, n: int): MinuteBar
    requires 0 < n
  {
    b.(timestamp := Bucket(b.timestamp, n))
  }

  predicate TimeLeq(a: MinuteBar, b: MinuteBar) { a.timestamp <= b.timestamp }

  /** Two adjacent stretches of one bucket, the earlier first. */
  function Merge(a: MinuteBar, b: MinuteBar): MinuteBar {
    MinuteBar(a.symbol, a.timestamp, a.open, Max(a.high, b.high), Min(a.low, b.low), b.close, a.volume + b.volume,
              a.currency, a.source, MaxInt(a.asOf, b.asOf))
  }

  /** The bar of a bucket: first open, highest high, lowest low, last close, summed volume. */
  function Combine(values: seq<MinuteBar>): MinuteBar
    requires values != []
  {
    if |values| == 1 then values[0] else Merge(values[0], Combine(values[1..]))
  }

  /** Puts a bar in front of aggregated bars, merging it if it falls into the first bucket. */
  function Prepend(b: MinuteBar, rest: seq<MinuteBar>): seq<MinuteBar> {
    if rest != [] && rest[0].timestamp == b.timestamp then [Merge(b, rest[0])] + rest[1..] else [b] + rest
  }

  /** Aggregation as one pass over bars in time order. */
  function Agg(s: seq<MinuteBar>, n: int): seq<MinuteBar>
    requires 0 < n
  {
    if s == [] then [] else Prepend(At(s[0], n), Agg(s[1..], n))
  }

  /** No bucket mixes symbols or currencies. */
  ghost predicate Uniform(s: seq<MinuteBar>, n: int)
    requires 0 < n
  {
    forall x, y :: x in s && y in s && Bucket(x.timestamp, n) == Bucket(y.timestamp, n) ==>
      x.symbol == y.symbol && x.currency == y.currency
  }

  datatype Outcome = Ok(bars: seq<MinuteBar>) | BadMinutes | MixedBars

  /** The aggregation with its refusals; one minute returns the input as it is. */
  ghost function Aggregated(bars: seq<MinuteBar>, n: int): Outcome {
    if n <= 0 then BadMinutes
    else if n == 1 then Ok(bars)
    else
      var s := Sort(bars, TimeLeq);
      if Uniform(s, n) then Ok(Agg(s, n)) else MixedBars
  }

  // ---- buckets ----

  /** The whole minutes of `t` since its hour began, and the hour itself, determine every bucket. */
  lemma BucketParts(t: int, n: int)
    requires 0 < n
    ensures var b := Bucket(t, n); var minute := t % HOUR / MINUTE;
      0 <= minute < 60 && b % HOUR == minute / n * n * MINUTE && b - b % HOUR == t - t % HOUR && b <= t
  {
    var minute := t % HOUR / MINUTE;
    RoundDown(minute, n);
    var down := minute / n * n;
    assert 0 <= down * MINUTE < HOUR;
    HourOf(t / HOUR, down * MINUTE);
    assert t == t / HOUR * HOUR + t % HOUR;
  }

  lemma HourOf(h: int, r: int)
    requires 0 <= r < HOUR
    ensures (h * HOUR + r) % HOUR == r
  {}

  lemma RoundDown(x: int, n: int)
    requires 0 <= x && 0 < n
    ensures 0 <= x / n * n <= x < x / n * n + n
  {}

  /** Rounding down to multiples of `k` first does not change the multiple of `n`. */
  lemma RoundDownTwice(x: int, k: int, n: int)
    requires 0 <= x && 0 < k && 0 < n && n % k == 0
    ensures x / k * k / n == x / n
  {
    var m := n / k;
    assert n == m * k;
    RoundDown(x, k);
    RoundDown(x, n);
    var q, y := x / n, x / k * k;
    assert q * n == q * m * k;
    if y < q * n { MultiplesApart(x / k, q * m, k); }
    QuotientIs(y, q, n);
  }

  lemma ProductMonotone(a: int, b: int, k: int)
    requires 0 <= k && a <= b
    ensures a * k <= b * k
  {
    var d := b - a;
    assert 0 <= d * k;
    assert d * k == b * k - a * k;
  }

  lemma MultiplesApart(a: int, b: int, k: int)
    requires 0 < k && a * k < b * k
    ensures a * k + k <= b * k
  {
    if a >= b { ProductMonotone(b, a, k); } else { MultiplesOrdered(a, b, k); }
  }

  lemma QuotientIs(y: int, q: int, n: int)
    requires 0 < n && q * n <= y < q * n + n
    ensures y / n == q
  {
    var p := y / n;
    assert p * n <= y < p * n + n;
    if p < q { MultiplesOrdered(p, q, n); }
    if q < p { MultiplesOrdered(q, p, n); }
  }

  lemma BucketTwice(t: int, k: int, n: int)
    requires 0 < k && 0 < n && n % k == 0
    ensures Bucket(Bucket(t, k), n) == Bucket(t, n)
  {
    BucketParts(t, k);
    var minute := t % HOUR / MINUTE;
    var down := minute / k * k;
    RoundDownTwice(minute, k, n);
    assert down * MINUTE / MINUTE == down;
  }

  lemma BucketMonotone(t: int, u: int, n: int)
    requires 0 < n && t <= u
    ensures Bucket(t, n) <= Bucket(u, n)
  {
    BucketParts(t, n);
    BucketParts(u, n);
    var a, b := t % HOUR / MINUTE, u % HOUR / MINUTE;
    if t / HOUR == u / HOUR {
      assert t % HOUR <= u % HOUR;
      assert a <= b;
      QuotientMonotone(a, b, n);
    } else {
      assert t / HOUR + 1 <= u / HOUR;
      RoundDown(a, n);
      RoundDown(b, n);
    }
  }

  lemma QuotientMonotone(a: int, b: int, n: int)
    requires 0 < n && 0 <= a <= b
    ensures a / n * n <= b / n * n
  {
    RoundDown(a, n);
    RoundDown(b, n);
    if a / n > b / n { MultiplesOrdered(b / n, a / n, n); }
  }

  lemma MultiplesOrdered(a: int, b: int, n: int)
    requires 0 < n && a < b
    ensures a * n + n <= b * n
  {
    ProductMonotone(a + 1, b, n);
    assert (a + 1) * n == a * n + n;
  }

  // ---- aggregating twice ----

  lemma MergeAssociative(a: MinuteBar, b: MinuteBar, c: MinuteBar)
    ensures Merge(Merge(a, b), c) == Merge(a, Merge(b, c))
  {}

  /** Aggregating to `k` minutes and then to a multiple `n` is aggregating to `n` at once. */
  lemma {:induction false} AggTwice(s: seq<MinuteBar>, k: int, n: int)
    requires 0 < k && 0 < n && n % k == 0
    ensures Agg(Agg(s, k), n) == Agg(s, n)
  {
    hide Bucket;
    if s != [] {
      AggTwice(s[1..], k, n);
      var h, a := At(s[0], k), Agg(s[1..], k);
      BucketTwice(s[0].timestamp, k, n);
      if a != [] && a[0].timestamp == h.timestamp {
        var rest := Agg(a[1..], n);
        assert Agg(s, k)[1..] == a[1..];
        MergeAssociative(At(h, n), At(a[0], n), if rest == [] then h else rest[0]);
      } else {
        assert Agg(s, k)[1..] == a;
      }
    }
  }

  /** Every aggregated bar carries the symbol and currency of a bar of its bucket. */
  lemma {:induction false} AggSource(s: seq<MinuteBar>, k: int, a: MinuteBar) returns (x: MinuteBar)
    requires 0 < k && a in Agg(s, k)
    ensures x in s && Bucket(x.timestamp, k) == a.timestamp && x.symbol == a.symbol && x.currency == a.currency
  {
    hide Bucket;
    if a == Agg(s, k)[0] {
      x := s[0];
    } else {
      x := AggSource(s[1..], k, a);
    }
  }

  /** No bucket is lost. */
  lemma {:induction false} AggTarget(s: seq<MinuteBar>, k: int, x: MinuteBar) returns (a: MinuteBar)
    requires 0 < k && x in s
    ensures a in Agg(s, k) && a.timestamp == Bucket(x.timestamp, k)
  {
    hide Bucket;
    var all := Agg(s, k);
    a := all[0];
    if x != s[0] {
      var later := AggTarget(s[1..], k, x);
      if a.timestamp != later.timestamp { a := later; }
    }
  }

  lemma UniformFiner(s: seq<MinuteBar>, k: int, n: int)
    requires 0 < k && 0 < n && n % k == 0 && Uniform(s, n)
    ensures Uniform(s, k)
  {
    hide Bucket;
    forall x, y | x in s && y in s && Bucket(x.timestamp, k) == Bucket(y.timestamp, k)
      ensures x.symbol == y.symbol && x.currency == y.currency
    {
      BucketTwice(x.timestamp, k, n);
      BucketTwice(y.timestamp, k, n);
    }
  }

  lemma PairDown(s: seq<MinuteBar>, k: int, n: int, a: MinuteBar, b: MinuteBar)
    requires 0 < k && 0 < n && n % k == 0 && Uniform(s, n)
    requires a in Agg(s, k) && b in Agg(s, k) && Bucket(a.timestamp, n) == Bucket(b.timestamp, n)
    ensures a.symbol == b.symbol && a.currency == b.currency
  {
    hide Bucket, Agg;
    var x := AggSource(s, k, a);
    var y := AggSource(s, k, b);
    BucketTwice(x.timestamp, k, n);
    BucketTwice(y.timestamp, k, n);
  }

  lemma UniformDown(s: seq<MinuteBar>, k: int, n: int)
    requires 0 < k && 0 < n && n % k == 0 && Uniform(s, n)
    ensures Uniform(s, k) && Uniform(Agg(s, k), n)
  {
    hide Bucket, Agg;
    UniformFiner(s, k, n);
    forall a, b | a in Agg(s, k) && b in Agg(s, k) && Bucket(a.timestamp, n) == Bucket(b.timestamp, n)
      ensures a.symbol == b.symbol && a.currency == b.currency
    {
      PairDown(s, k, n, a, b);
    }
  }

  lemma UniformUp(s: seq<MinuteBar>, k: int, n: int)
    requires 0 < k && 0 < n && n % k == 0 && Uniform(s, k) && Uniform(Agg(s, k), n)
    ensures Uniform(s, n)
  {
    hide Bucket;
    forall x, y | x in s && y in s && Bucket(x.timestamp, n) == Bucket(y.timestamp, n)
      ensures x.symbol == y.symbol && x.currency == y.currency
    {
      var a := AggTarget(s, k, x);
      var b := AggTarget(s, k, y);
      BucketTwice(x.timestamp, k, n);
      BucketTwice(y.timestamp, k, n);
      var x' := AggSource(s, k, a);
      var y' := AggSource(s, k, b);
    }
  }

  /** Refusal composes as well: a mixed bucket is found at the first step or at the second. */
  lemma UniformTwice(s: seq<MinuteBar>, k: int, n: int)
    requires 0 < k && 0 < n && n % k == 0
    ensures Uniform(s, n) <==> Uniform(s, k) && Uniform(Agg(s, k), n)
  {
    hide Bucket, Uniform;
    if Uniform(s, n) { UniformDown(s, k, n); }
    if Uniform(s, k) && Uniform(Agg(s, k), n) { UniformUp(s, k, n); }
  }

  lemma TimeLeqTotal()
    ensures TotalPreorder(TimeLeq)
  {}

  /** Bucket times ascend strictly when the bars come in time order. */
  lemma {:induction false} AggTimes(s: seq<MinuteBar>, n: int)
    requires 0 < n && Sorted(s, TimeLeq)
    ensures var r := Agg(s, n);
      (s != [] ==> r != [] && r[0].timestamp == Bucket(s[0].timestamp, n))
      && forall i, j :: 0 <= i < j < |r| ==> r[i].timestamp < r[j].timestamp
  {
    hide Bucket;
    if s != [] {
      AggTimes(s[1..], n);
      if |s| > 1 {
        assert TimeLeq(s[0], s[1]);
        BucketMonotone(s[0].timestamp, s[1].timestamp, n);
      }
    }
  }

  /** Aggregating in two steps equals aggregating in one, refusals included. */
  lemma AggregationComposes(bars: seq<MinuteBar>, k: int, n: int)
    requires 0 < k && 0 < n && n % k == 0
    ensures match Aggregated(bars, k)
      case Ok(mid) => Aggregated(mid, n) == Aggregated(bars, n)
      case BadMinutes => false
      case MixedBars => Aggregated(bars, n) == MixedBars
  {
    if k > 1 {
      hide Bucket;
      assert n > 1;
      var s := Sort(bars, TimeLeq);
      TimeLeqTotal();
      SortSorts(bars, TimeLeq);
      UniformTwice(s, k, n);
      AggTwice(s, k, n);
      AggTimes(s, k);
      SortOfSorted(Agg(s, k), TimeLeq);
    }
  }

  // ---- what an aggregate keeps ----

  function Volume(s: seq<MinuteBar>): int { if s == [] then 0 else s[0].volume + Volume(s[1..]) }

  lemma {:induction false} AggKeepsVolume(s: seq<MinuteBar>, n: int)
    requires 0 < n
    ensures Volume(Agg(s, n)) == Volume(s)
  {
    hide Bucket;
    if s != [] {
      AggKeepsVolume(s[1..], n);
      assert Agg(s, n)[1..] == Agg(s[1..], n) || (Agg(s[1..], n) != [] && Agg(s, n)[1..] == Agg(s[1..], n)[1..]);
    }
  }

  lemma MergeValid(a: MinuteBar, b: MinuteBar)
    requires Valid(a) && Valid(b)
    ensures Valid(Merge(a, b))
  {}

  lemma {:induction false} AggKeepsValidity(s: seq<MinuteBar>, n: int)
    requires 0 < n && forall b :: b in s ==> Valid(b)
    ensures forall b :: b in Agg(s, n) ==> Valid(b)
  {
    hide Bucket;
    if s != [] {
      AggKeepsValidity(s[1..], n);
      var h, rest := At(s[0], n), Agg(s[1..], n);
      assert s[0] in s && Valid(h);
      if rest != [] { assert rest[0] in rest; MergeValid(h, rest[0]); }
      forall b | b in Agg(s, n) ensures Valid(b) {
        if b in rest { assert Valid(b); } else { assert b == Agg(s, n)[0]; }
      }
    }
  }

  lemma {:induction false} VolumeWithout(t: seq<MinuteBar>, i: nat)
    requires i < |t|
    ensures Volume(t) == Volume(Without(t, i)) + t[i].volume
    decreases |t|
  {
    if i == 0 {
      assert Without(t, 0) == t[1..];
    } else {
      VolumeWithout(t[1..], i - 1);
      assert Without(t, i)[1..] == Without(t[1..], i - 1);
    }
  }

  lemma {:induction false} VolumePermutation(s: seq<MinuteBar>, t: seq<MinuteBar>)
    requires multiset(s) == multiset(t)
    ensures Volume(s) == Volume(t)
  {
    SameElements(s, t);
    if s != [] {
      assert s[0] in t;
      var i :| 0 <= i < |t| && t[i] == s[0];
      TailElements(s);
      WithoutElements(t, i);
      VolumePermutation(s[1..], Without(t, i));
      VolumeWithout(t, i);
    }
  }

  /** Any successful aggregation to more than one minute has strictly ascending bucket times, the same
      total volume, and valid bars. */
  lemma AggregateInvariants(bars: seq<MinuteBar>, n: int)
    requires 1 < n && Aggregated(bars, n).Ok? && forall b :: b in bars ==> Valid(b)
    ensures var r := Aggregated(bars, n).bars;
      && (forall i, j :: 0 <= i < j < |r| ==> r[i].timestamp < r[j].timestamp)
      && Volume(r) == Volume(bars)
      && (forall b :: b in r ==> Valid(b))
  {
    hide Bucket;
    var s := Sort(bars, TimeLeq);
    TimeLeqTotal();
    SortSorts(bars, TimeLeq);
    SameElements(bars, s);
    AggTimes(s, n);
    AggKeepsVolume(s, n);
    VolumePermutation(bars, s);
    AggKeepsValidity(s, n);
  }

  // ---- the aggregation as it runs: a dictionary of buckets ----

  function InBucket(b: int, n: int): MinuteBar -> bool
    requires 0 < n
  {
    (x: MinuteBar) => Bucket(x.timestamp, n) == b
  }

  /** The bars of bucket `b`, moved to its start. */
  function Values(s: seq<MinuteBar>, b: int, n: int): seq<MinuteBar>
    requires 0 < n
  {
    Filter(s, InBucket(b, n))
  }

  function Stamped(b: MinuteBar, t: int): MinuteBar { b.(timestamp := t) }

  lemma ValuesCons(s: seq<MinuteBar>, b: int, n: int)
    requires 0 < n && s != []
    ensures Values(s, b, n) ==
      if Bucket(s[0].timestamp, n) == b then [s[0]] + Values(s[1..], b, n) else Values(s[1..], b, n)
  {
    hide Bucket;
  }

  /** If the next aggregated bar is of another bucket, the current bucket has no later bar. */
  lemma NoLaterBar(s: seq<MinuteBar>, n: int)
    requires 0 < n && s != [] && Sorted(s, TimeLeq)
    requires var rest := Agg(s[1..], n); rest == [] || rest[0].timestamp != Bucket(s[0].timestamp, n)
    ensures Values(s[1..], Bucket(s[0].timestamp, n), n) == []
  {
    hide Bucket;
    var b, tail := Bucket(s[0].timestamp, n), s[1..];
    var v := Values(tail, b, n);
    AggTimes(tail, n);
    if tail != [] { BucketMonotone(s[0].timestamp, tail[0].timestamp, n); }
    if v != [] {
      var x := v[0];
      assert x in v && x in tail;
      var a := AggTarget(tail, n, x);
      assert false;
    }
  }

  /** Merging a whole bucket at once is merging its bars one by one in front. */
  lemma {:induction false} AggIsGroup(s: seq<MinuteBar>, n: int, i: int)
    requires 0 < n && Sorted(s, TimeLeq) && 0 <= i < |Agg(s, n)|
    ensures var b := Agg(s, n)[i].timestamp;
      Values(s, b, n) != [] && Agg(s, n)[i] == Stamped(Combine(Values(s, b, n)), b)
  {
    hide Bucket;
    var x, rest, all := s[0], Agg(s[1..], n), Agg(s, n);
    var b0 := Bucket(x.timestamp, n);
    AggTimes(s, n);
    ValuesCons(s, all[i].timestamp, n);
    var merged := rest != [] && rest[0].timestamp == b0;
    if i == 0 && merged {
      AggIsGroup(s[1..], n, 0);
      assert Values(s, b0, n)[1..] == Values(s[1..], b0, n);
    } else if i == 0 {
      NoLaterBar(s, n);
    } else {
      assert all[0].timestamp == b0;
      AggIsGroup(s[1..], n, if merged then i else i - 1);
      assert all[i] == rest[if merged then i else i - 1];
    }
  }

  predicate IntLeq(a: int, b: int) { a <= b }

  /** The dictionary holds exactly the bars of each bucket, and `order` its keys without repetition. */
  ghost predicate Grouped(s: seq<MinuteBar>, n: int, groups: map<int, seq<MinuteBar>>, order: seq<int>)
    requires 0 < n
  {
    && (forall b :: b in order <==> Values(s, b, n) != [])
    && (forall b :: b in order ==> b in groups && groups[b] == Values(s, b, n))
    && (forall b :: b in groups ==> b in order)
    && (forall i, j :: 0 <= i < j < |order| ==> order[i] != order[j])
  }

  lemma NothingGrouped(n: int)
    requires 0 < n
    ensures Grouped([], n, map[], [])
  {}

  lemma GroupedStep(s: seq<MinuteBar>, bar: MinuteBar, n: int, groups: map<int, seq<MinuteBar>>, order: seq<int>)
    requires 0 < n && Grouped(s, n, groups, order)
    ensures var b := Bucket(bar.timestamp, n);
      Grouped(s + [bar], n, groups[b := (if b in groups then groups[b] else []) + [bar]],
        if b in groups then order else order + [b])
  {
    hide Bucket, Filter;
    forall b ensures Values(s + [bar], b, n) ==
      if Bucket(bar.timestamp, n) == b then Values(s, b, n) + [bar] else Values(s, b, n) {
      FilterSnoc(s, bar, InBucket(b, n));
    }
  }

  /** Fills the buckets in time order; `order` is the insertion order of the dictionary. */
  method Buckets(s: seq<MinuteBar>, n: int) returns (groups: map<int, seq<MinuteBar>>, order: seq<int>)
    requires 0 < n
    ensures Grouped(s, n, groups, order)
  {
    hide Bucket, Grouped;
    groups, order := map[], [];
    NothingGrouped(n);
    assert s[..0] == [];
    for i := 0 to |s|
      invariant Grouped(s[..i], n, groups, order)
    {
      var bar := s[i];
      assert s[..i + 1] == s[..i] + [bar];
      GroupedStep(s[..i], bar, n, groups, order);
      var bucket := Bucket(bar.timestamp, n);
      order := if bucket in groups then order else order + [bucket];
      groups := groups[bucket := (if bucket in groups then groups[bucket] else []) + [bar]];
    }
    assert s[..|s|] == s;
  }

  /** Whether one bucket holds a single symbol and a single currency. */
  predicate OneInstrument(values: seq<MinuteBar>) {
    forall i, j :: 0 <= i < |values| && 0 <= j < |values| ==>
      values[i].symbol == values[j].symbol && values[i].currency == values[j].currency
  }

  method AggregateMinuteBars(bars: seq<MinuteBar>, minutes: int) returns (r: Outcome)
    ensures r == Aggregated(bars, minutes)
  {
    if minutes <= 0 {
      return BadMinutes;
    }
    if minutes == 1 {
      return Ok(bars);
    }
    var s := Sort(bars, TimeLeq);
    var groups, order := Buckets(s, minutes);
    var buckets := Sort(order, IntLeq);
    BucketsAscend(order);
    TimeLeqTotal();
    SortSorts(bars, TimeLeq);
    ExpectedBuckets(s, minutes, groups, order, buckets);
    r := CombineBuckets(s, minutes, groups, order, buckets);
  }

  /** The loop over the sorted buckets. */
  method CombineBuckets(s: seq<MinuteBar>, n: int, groups: map<int, seq<MinuteBar>>, order: seq<int>,
                        buckets: seq<int>)
    returns (r: Outcome)
    requires 0 < n && Grouped(s, n, groups, order) && Ascending(order, buckets) &&
      ExpectedAt(Agg(s, n), groups, buckets)
    ensures r == if Uniform(s, n) then Ok(Agg(s, n)) else MixedBars
  {
    hide Bucket, Grouped, Combine, Uniform, Agg, OneInstrument, Ascending;
    ghost var expected := Agg(s, n);
    var aggregated := [];
    for i := 0 to |buckets|
      invariant aggregated == expected[..i]
      invariant SingleUpTo(groups, buckets, i)
    {
      var values := groups[buckets[i]];
      if !OneInstrument(values) {
        MixedIsNotUniform(s, n, groups, order, buckets, i);
        return MixedBars;
      }
      aggregated := aggregated + [Stamped(Combine(values), buckets[i])];
    }
    AllUniform(s, n, groups, order, buckets);
    return Ok(aggregated);
  }

  /** `buckets` is `order` in ascending arrangement. */
  ghost predicate Ascending(order: seq<int>, buckets: seq<int>) {
    (forall x :: x in buckets <==> x in order) && forall i, j :: 0 <= i < j < |buckets| ==> buckets[i] < buckets[j]
  }

  /** The aggregated bars are the combined buckets, one by one. */
  ghost predicate ExpectedAt(expected: seq<MinuteBar>, groups: map<int, seq<MinuteBar>>, buckets: seq<int>) {
    |expected| == |buckets| && forall i :: 0 <= i < |buckets| ==>
      buckets[i] in groups && groups[buckets[i]] != [] &&
        expected[i] == Stamped(Combine(groups[buckets[i]]), buckets[i])
  }

  ghost predicate SingleUpTo(groups: map<int, seq<MinuteBar>>, buckets: seq<int>, n: int) {
    forall j :: 0 <= j < n <= |buckets| ==> buckets[j] in groups && OneInstrument(groups[buckets[j]])
  }

  lemma BucketsAscend(order: seq<int>)
    requires forall i, j :: 0 <= i < j < |order| ==> order[i] != order[j]
    ensures Ascending(order, Sort(order, IntLeq))
  {
    assert TotalPreorder(IntLeq);
    SortSorts(order, IntLeq);
    var b := Sort(order, IntLeq);
    SameElements(order, b);
    SortDistinct(order, b);
  }

  lemma SortDistinct(a: seq<int>, b: seq<int>)
    requires multiset(a) == multiset(b) && forall i, j :: 0 <= i < j < |a| ==> a[i] != a[j]
    ensures forall i, j :: 0 <= i < j < |b| ==> b[i] != b[j]
  {
    forall i, j | 0 <= i < j < |b| ensures b[i] != b[j] {
      if b[i] == b[j] {
        TwiceMeansTwo(b, i, j);
        OnceMeansOne(a, b[i]);
      }
    }
  }

  lemma TwiceMeansTwo(b: seq<int>, i: int, j: int)
    requires 0 <= i < j < |b| && b[i] == b[j]
    ensures multiset(b)[b[i]] >= 2
  {
    assert b == b[..i] + [b[i]] + b[i + 1..j] + [b[j]] + b[j + 1..];
  }

  lemma {:induction false} OnceMeansOne(a: seq<int>, x: int)
    requires forall i, j :: 0 <= i < j < |a| ==> a[i] != a[j]
    ensures multiset(a)[x] <= 1
  {
    if a != [] {
      assert a == [a[0]] + a[1..];
      OnceMeansOne(a[1..], x);
      if a[0] == x { assert x !in a[1..]; assert x !in multiset(a[1..]); }
    }
  }

  lemma ExpectedElement(s: seq<MinuteBar>, n: int, groups: map<int, seq<MinuteBar>>, order: seq<int>, i: int)
    requires 0 < n && Sorted(s, TimeLeq) && Grouped(s, n, groups, order) && 0 <= i < |Agg(s, n)|
    ensures var a := Agg(s, n)[i];
      a.timestamp in order && a.timestamp in groups && groups[a.timestamp] != []
          && a == Stamped(Combine(groups[a.timestamp]), a.timestamp)
  {
    hide Bucket, Combine, Filter;
    AggIsGroup(s, n, i);
  }

  /** The sorted keys of the dictionary are the bucket times of the one-pass aggregation. */
  lemma ExpectedBuckets(s: seq<MinuteBar>, n: int, groups: map<int, seq<MinuteBar>>, order: seq<int>, buckets: seq<int>)
    requires 0 < n && Sorted(s, TimeLeq) && Grouped(s, n, groups, order) && Ascending(order, buckets)
    ensures ExpectedAt(Agg(s, n), groups, buckets)
  {
    hide Combine, Grouped, Agg, Sorted, Ascending;
    var expected := Agg(s, n);
    var times := seq(|expected|, i requires 0 <= i < |expected| => expected[i].timestamp);
    forall i | 0 <= i < |expected|
      ensures times[i] in order && times[i] in groups && groups[times[i]] != []
           && expected[i] == Stamped(Combine(groups[times[i]]), times[i])
    {
      ExpectedElement(s, n, groups, order, i);
    }
    TimesAreBuckets(s, n, groups, order, buckets, times);
  }

  lemma TimesAreBuckets(s: seq<MinuteBar>, n: int, groups: map<int, seq<MinuteBar>>, order: seq<int>,
                        buckets: seq<int>, times: seq<int>)
    requires 0 < n && Sorted(s, TimeLeq) && Grouped(s, n, groups, order) && Ascending(order, buckets)
    requires |times| == |Agg(s, n)| && forall i :: 0 <= i < |times| ==>
      times[i] == Agg(s, n)[i].timestamp && times[i] in order
    ensures times == buckets
  {
    hide Bucket;
    AggTimes(s, n);
    var expected := Agg(s, n);
    forall b | b in buckets ensures b in times {
      var v := Values(s, b, n);
      assert v[0] in v;
      var a := AggTarget(s, n, v[0]);
      var i :| 0 <= i < |expected| && expected[i] == a;
      assert times[i] == b;
    }
    AscendingUnique(times, buckets);
  }

  lemma {:induction false} AscendingUnique(a: seq<int>, b: seq<int>)
    requires forall i, j :: 0 <= i < j < |a| ==> a[i] < a[j]
    requires forall i, j :: 0 <= i < j < |b| ==> b[i] < b[j]
    requires forall x :: x in a <==> x in b
    ensures a == b
  {
    assert b == [] || b[0] in b;
    assert a == [] || a[0] in a;
    if a != [] && b != [] {
      assert a[0] == b[0];
      forall x ensures x in a[1..] <==> x in b[1..] {
        if x in a[1..] { assert x in a && x != a[0]; }
        if x in b[1..] { assert x in b && x != b[0]; }
      }
      AscendingUnique(a[1..], b[1..]);
    }
  }

  lemma MixedIsNotUniform(s: seq<MinuteBar>, n: int, groups: map<int, seq<MinuteBar>>, order: seq<int>,
                          buckets: seq<int>, k: int)
    requires 0 < n && Grouped(s, n, groups, order) && Ascending(order, buckets) && 0 <= k < |buckets|
    requires buckets[k] in groups && !OneInstrument(groups[buckets[k]])
    ensures !Uniform(s, n)
  {
    hide Bucket;
    var v := Values(s, buckets[k], n);
    assert buckets[k] in order;
    var i, j :| 0 <= i < |v| && 0 <= j < |v| && !(v[i].symbol == v[j].symbol && v[i].currency == v[j].currency);
    assert v[i] in v && v[j] in v;
  }

  lemma AllUniform(s: seq<MinuteBar>, n: int, groups: map<int, seq<MinuteBar>>, order: seq<int>, buckets: seq<int>)
    requires 0 < n && Grouped(s, n, groups, order) && Ascending(order, buckets) &&
      SingleUpTo(groups, buckets, |buckets|)
    ensures Uniform(s, n)
  {
    hide Bucket;
    forall x, y | x in s && y in s && Bucket(x.timestamp, n) == Bucket(y.timestamp, n)
      ensures x.symbol == y.symbol && x.currency == y.currency
    {
      var b := Bucket(x.timestamp, n);
      var v := Values(s, b, n);
      assert x in v && y in v;
      assert b in order && b in buckets;
      var j :| 0 <= j < |buckets| && buckets[j] == b;
      assert groups[b] == v && OneInstrument(groups[buckets[j]]);
    }
  }

  // ---- volume-weighted average price ----

  function Typical(b: MinuteBar): real { (b.high + b.low + b.close) / 3.0 }

  function Turnover(b: MinuteBar): real { Typical(b) * (b.volume as real) }

  function Weighted(s: seq<MinuteBar>): real {
    if s == [] then 0.0 else Turnover(s[0]) + Weighted(s[1..])
  }

  function Vwap(s: seq<MinuteBar>): Option<real> {
    if Volume(s) <= 0 then None else Some(Weighted(s) / Volume(s) as real)
  }

  /** A weighted sum `w` over volume `v` of prices between `low` and `high`. */
  predicate Spanned(low: real, high: real, w: real, v: real) { low * v <= w <= high * v }

  lemma WeightedStep(low: real, high: real, t: real, v: real, w: real, rest: real)
    requires low <= t <= high && 0.0 <= v && Spanned(low, high, w, rest)
    ensures Spanned(low, high, t * v + w, v + rest)
  {
    MulMonotone(low, t, v);
    MulMonotone(t, high, v);
    assert low * (v + rest) == low * v + low * rest;
    assert high * (v + rest) == high * v + high * rest;
  }

  lemma NothingSpanned(low: real, high: real)
    ensures Spanned(low, high, 0.0, 0.0)
  {}

  lemma TypicalBetween(b: MinuteBar, low: real, high: real)
    requires Valid(b) && low <= b.low && b.high <= high
    ensures low <= Typical(b) <= high
  {}

  lemma WeightedBar(low: real, high: real, b: MinuteBar, w: real, rest: real)
    requires Valid(b) && low <= b.low && b.high <= high && Spanned(low, high, w, rest)
    ensures Spanned(low, high, Turnover(b) + w, b.volume as real + rest)
  {
    TypicalBetween(b, low, high);
    WeightedStep(low, high, Typical(b), b.volume as real, w, rest);
  }

  /** All bars are valid and inside the price range. */
  ghost predicate Within(s: seq<MinuteBar>, low: real, high: real) {
    forall b :: b in s ==> Valid(b) && low <= b.low && b.high <= high
  }

  lemma {:induction false} WeightedBounds(s: seq<MinuteBar>, low: real, high: real)
    requires Within(s, low, high)
    ensures 0 <= Volume(s)
    ensures Spanned(low, high, Weighted(s), Volume(s) as real)
  {
    hide Turnover, Spanned;
    if s == [] {
      NothingSpanned(low, high);
    } else {
      assert s[0] in s;
      WeightedBounds(s[1..], low, high);
      WeightedBar(low, high, s[0], Weighted(s[1..]), Volume(s[1..]) as real);
      assert Volume(s) as real == s[0].volume as real + Volume(s[1..]) as real;
    }
  }

  /** The average, when there is volume, lies between any bounds of the lows and highs, so between the
      lowest low and the highest high. */
  lemma VwapInRange(s: seq<MinuteBar>, low: real, high: real)
    requires Within(s, low, high)
    ensures Vwap(s).Some? <==> 0 < Volume(s)
    ensures Vwap(s).Some? ==> low <= Vwap(s).value <= high
  {
    hide Within, Weighted;
    WeightedBounds(s, low, high);
    if 0 < Volume(s) { QuotientBetween(Weighted(s), Volume(s) as real, low, high); }
  }

  lemma QuotientBetween(w: real, v: real, low: real, high: real)
    requires 0.0 < v && low * v <= w <= high * v
    ensures low <= w / v <= high
  {
    QuotientTimes(w, v);
    var q := w / v;
    assert q < low ==> q * v < low * v by { if q < low { PositiveProduct(low - q, v); } }
    assert q > high ==> q * v > high * v by { if q > high { PositiveProduct(q - high, v); } }
  }
}
