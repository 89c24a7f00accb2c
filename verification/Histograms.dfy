/** Histograms from OTLP events to stored samples: accumulation in the collector (`forward.go`), the
    cumulative buckets it exposes, and their expansion into series (`Flatten` in `ingest.go`).

    A well-formed event follows sections "Histogram" and "Temporality" of the OpenTelemetry Metrics Data
    Model: ascending bounds, one count per bucket and one for the overflow, and a total that is their sum. */
module Histograms {
  import opened Prelude
  import opened Collector
  import opened Double

  /** The sum of the first `n` counts; missing ones count as zero. */
  function Below(buckets: seq<UInt64>, n: nat): (r: nat) {
    if n == 0 then 0 else Below(buckets, n - 1) + (if n - 1 < |buckets| then buckets[n - 1] else 0)
  }

  ghost predicate WellFormed(ev: Event) {
    && ev.typ.Histogram?
    && |ev.buckets| == |ev.bounds| + 1
    && ev.count == Below(ev.buckets, |ev.buckets|)
    && (forall i, j | 0 <= i < j < |ev.bounds| :: ev.bounds[i] < ev.bounds[j])
  }

  ghost predicate AllWellFormed(evs: seq<Event>) {
    forall i | 0 <= i < |evs| :: WellFormed(evs[i])
  }

  /** One series after a run of events; the time of each does not matter here. */
  ghost function After(evs: seq<Event>): (d: Data) {
    if evs == [] then FRESH else Absorb(After(evs[..|evs| - 1]), evs[|evs| - 1], 0)
  }

  // ---------- the reference: the events since the last reset ----------

  ghost function LastBounds(evs: seq<Event>): (b: seq<real>) {
    if evs == [] then [] else evs[|evs| - 1].bounds
  }

  /** A cumulative event and a change of bucket layout start afresh; a delta event adds on. */
  ghost function SinceReset(evs: seq<Event>): (r: seq<Event>) {
    if evs == [] then [] else
    var before, ev := evs[..|evs| - 1], evs[|evs| - 1];
    if ev.temporality != Delta || LastBounds(before) != ev.bounds then [ev] else SinceReset(before) + [ev]
  }

  /** Observations at or below the `n`-th bound in all of `evs`. */
  ghost function TotalBelow(evs: seq<Event>, n: nat): (r: nat) {
    if evs == [] then 0 else TotalBelow(evs[..|evs| - 1], n) + Below(evs[|evs| - 1].buckets, n)
  }

  ghost function TotalCount(evs: seq<Event>): (r: nat) {
    if evs == [] then 0 else TotalCount(evs[..|evs| - 1]) + evs[|evs| - 1].count
  }

  ghost function TotalSum(evs: seq<Event>): (r: real) {
    if evs == [] then 0.0 else TotalSum(evs[..|evs| - 1]) + evs[|evs| - 1].value
  }

  // ---------- accumulation ----------

  lemma {:induction false} BelowMonotone(b: seq<UInt64>, m: nat, n: nat)
    requires m <= n
    ensures Below(b, m) <= Below(b, n)
  {
    if m < n {
      BelowMonotone(b, m, n - 1);
    }
  }

  lemma {:induction false} TotalBelowCount(evs: seq<Event>, n: nat)
    requires AllWellFormed(evs) && (forall i | 0 <= i < |evs| :: n <= |evs[i].buckets|)
    ensures TotalBelow(evs, n) <= TotalCount(evs)
  {
    if evs != [] {
      var ev := evs[|evs| - 1];
      TotalBelowCount(evs[..|evs| - 1], n);
      BelowMonotone(ev.buckets, n, |ev.buckets|);
    }
  }

  /** Equal as 64-bit counters. */
  predicate SameU64(a: nat, b: nat) {
    a % U64 == b % U64
  }

  lemma SumsU64(a: nat, a': nat, b: nat)
    requires SameU64(a, a')
    ensures SameU64(a + b, a' + b)
  {
  }

  lemma WrapU64(a: nat, b: nat)
    ensures SameU64(a + b % U64, a + b)
  {
  }

  /** One more bucket on both sides. */
  lemma OneMoreU64(sum: nat, total: nat, y: UInt64, z: UInt64)
    requires SameU64(sum, total)
    ensures SameU64(sum + AddU64(y, z), total + y + z)
  {
    WrapU64(sum, y + z);
    SumsU64(sum, total, y + z);
  }

  /** Adding bucket by bucket adds the running sums, as 64-bit counters. */
  lemma {:induction false} BelowAdd(a: seq<UInt64>, b: seq<UInt64>, n: nat)
    requires |a| == |b| && n <= |a|
    ensures SameU64(Below(AddBuckets(a, b), n), Below(a, n) + Below(b, n))
  {
    if n > 0 {
      BelowAdd(a, b, n - 1);
      OneMoreU64(Below(AddBuckets(a, b), n - 1), Below(a, n - 1) + Below(b, n - 1), a[n - 1], b[n - 1]);
    }
  }

  lemma {:induction false} SnocParts(evs: seq<Event>, ev: Event)
    ensures (evs + [ev])[..|evs|] == evs && (evs + [ev])[|evs|] == ev
    ensures forall n: nat :: TotalBelow(evs + [ev], n) == TotalBelow(evs, n) + Below(ev.buckets, n)
    ensures TotalCount(evs + [ev]) == TotalCount(evs) + ev.count
    ensures TotalSum(evs + [ev]) == TotalSum(evs) + ev.value
  {
  }

  /** The events since a reset share the bounds in force. */
  lemma {:induction false} SameLayout(evs: seq<Event>)
    requires AllWellFormed(evs)
    ensures AllWellFormed(SinceReset(evs))
    ensures forall i | 0 <= i < |SinceReset(evs)| :: SinceReset(evs)[i].bounds == LastBounds(evs)
  {
    if evs != [] {
      var before, ev := evs[..|evs| - 1], evs[|evs| - 1];
      SameLayout(before);
      assert || SinceReset(evs) == [ev]
             || (SinceReset(evs) == SinceReset(before) + [ev] && LastBounds(before) == ev.bounds);
    }
  }

  /** The state of a series holds the totals of the events in `since`; the counters are 64 bits wide. */
  ghost predicate HoldsTotals(d: Data, bounds: seq<real>, since: seq<Event>) {
    && d.bounds == bounds && (bounds != [] ==> |d.buckets| == |bounds| + 1)
    && d.count == TotalCount(since) % U64 && d.sum == TotalSum(since)
    && forall n: nat | n <= |bounds| :: SameU64(Below(d.buckets, n), TotalBelow(since, n))
  }

  /** Every state of a series is the sum of the events since its last reset. */
  lemma {:induction false} Accumulates(evs: seq<Event>)
    requires AllWellFormed(evs)
    ensures HoldsTotals(After(evs), LastBounds(evs), SinceReset(evs))
    decreases |evs|
  {
    if evs != [] {
      var before, ev := evs[..|evs| - 1], evs[|evs| - 1];
      Accumulates(before);
      if ev.temporality != Delta || LastBounds(before) != ev.bounds {
        ResetState(After(before), ev);
      } else {
        AddedState(After(before), SinceReset(before), ev);
      }
    }
  }

  lemma {:induction false} ResetState(d: Data, ev: Event)
    requires WellFormed(ev) && (ev.temporality != Delta || d.bounds != ev.bounds)
    ensures HoldsTotals(Absorb(d, ev, 0), ev.bounds, [ev])
  {
    SnocParts([], ev);
    assert [] + [ev] == [ev] && TotalSum([]) == 0.0 && TotalCount([]) == 0;
    assert forall n: nat :: TotalBelow([ev], n) == Below(ev.buckets, n);
  }

  lemma AddedBelow(have: seq<UInt64>, total: nat, add: seq<UInt64>, n: nat)
    requires n <= |add| && |have| == |add| && SameU64(Below(have, n), total)
    ensures SameU64(Below(AddBuckets(have, add), n), total + Below(add, n))
  {
    BelowAdd(have, add, n);
    SumsU64(Below(have, n), total, Below(add, n));
  }

  lemma {:induction false} AddedState(d: Data, since: seq<Event>, ev: Event)
    requires WellFormed(ev) && ev.temporality == Delta && HoldsTotals(d, ev.bounds, since)
    ensures HoldsTotals(Absorb(d, ev, 0), ev.bounds, since + [ev])
  {
    SnocParts(since, ev);
    forall n: nat | n <= |ev.bounds|
      ensures SameU64(Below(AddBuckets(d.buckets, ev.buckets), n), TotalBelow(since + [ev], n))
    {
      assert SameU64(Below(d.buckets, n), TotalBelow(since, n));
      if n > 0 {
        AddedBelow(d.buckets, TotalBelow(since, n), ev.buckets, n);
      }
    }
    AddMod(TotalCount(since), ev.count);
  }

  // ---------- what a scrape shows ----------

  /** Upper bounds as the exposition format knows them. */
  datatype Bound = Finite(v: real) | PosInf

  /** A histogram as the client library hands it on: cumulative counts in order of bound. */
  datatype Exposed = Exposed(buckets: seq<(Bound, UInt64)>, count: UInt64, sum: real)

  ghost function ExposedOf(d: Data): (h: Exposed)
    ensures |h.buckets| == |d.bounds|
  {
    Exposed(seq(|d.bounds|, i requires 0 <= i < |d.bounds| => (Finite(d.bounds[i]), Below(d.buckets, i + 1) % U64)),
            d.count, d.sum)
  }

  /** The histogram branch of `Collect`. */
  method Expose(d: Data) returns (h: Exposed)
    ensures h == ExposedOf(d)
  {
    var cum: UInt64, le: seq<(Bound, UInt64)> := 0, [];
    for i := 0 to |d.bounds|
      invariant |le| == i && cum == Below(d.buckets, i) % U64
      invariant forall k | 0 <= k < i :: le[k].0 == Finite(d.bounds[k]) && le[k].1 == Below(d.buckets, k + 1) % U64
    {
      if i < |d.buckets| {
        AddMod(Below(d.buckets, i), d.buckets[i]);
        cum := AddU64(cum, d.buckets[i]);
      }
      le := le + [(Finite(d.bounds[i]), cum)];
    }
    h := Exposed(le, d.count, d.sum);
  }

  lemma {:induction false} AddMod(a: nat, b: UInt64)
    ensures AddU64(a % U64, b) == (a + b) % U64
  {
  }

  /** A stored sample; its value is a `float64`, which for a count is a rounded integer. */
  datatype Sample = BucketSample(le: Bound, value: nat) | SumSample(total: real) | CountSample(value: nat)

  /** The histogram branch of `Flatten`. */
  method Flatten(h: Exposed) returns (out: seq<Sample>)
    ensures out == Flattened(h)
    ensures |out| == |h.buckets| + if exists k :: 0 <= k < |h.buckets| && h.buckets[k].0 == PosInf then 2 else 3
    ensures forall k | 0 <= k < |h.buckets| :: out[k] == BucketSample(h.buckets[k].0, Rounded(h.buckets[k].1))
    ensures |out| == |h.buckets| + 3 ==> out[|h.buckets|] == BucketSample(PosInf, Rounded(h.count))
    ensures out[|out| - 2..] == [SumSample(h.sum), CountSample(Rounded(h.count))]
  {
    out := [];
    var infSeen := false;
    for i := 0 to |h.buckets|
      invariant out == BucketSamples(h.buckets[..i])
      invariant infSeen <==> exists k :: 0 <= k < i && h.buckets[k].0 == PosInf
    {
      assert h.buckets[..i + 1][..i] == h.buckets[..i];
      out := out + [BucketSample(h.buckets[i].0, Rounded(h.buckets[i].1))];
      if h.buckets[i].0 == PosInf {
        infSeen := true;
      }
    }
    assert h.buckets[..|h.buckets|] == h.buckets;
    if !infSeen {
      out := out + [BucketSample(PosInf, Rounded(h.count))];
    }
    out := out + [SumSample(h.sum), CountSample(Rounded(h.count))];
  }

  function BucketSamples(bs: seq<(Bound, UInt64)>): (r: seq<Sample>)
    ensures |r| == |bs| && forall i | 0 <= i < |bs| :: r[i] == BucketSample(bs[i].0, Rounded(bs[i].1))
  {
    seq(|bs|, i requires 0 <= i < |bs| => BucketSample(bs[i].0, Rounded(bs[i].1)))
  }

  ghost function Flattened(h: Exposed): (r: seq<Sample>) {
    var inf := exists k :: 0 <= k < |h.buckets| && h.buckets[k].0 == PosInf;
    BucketSamples(h.buckets)
    + (if inf then [] else [BucketSample(PosInf, Rounded(h.count))])
    + [SumSample(h.sum), CountSample(Rounded(h.count))]
  }

  /** What becomes of a total on the way: the counters are 64 bits wide, and the sample is a `float64`. */
  function Shown(total: nat): (v: nat) {
    Rounded(total % U64)
  }

  /** The totals by bucket, with that of `+Inf` last. */
  ghost function TotalAt(bounds: seq<real>, since: seq<Event>, i: nat): (t: nat) {
    if i < |bounds| then TotalBelow(since, i + 1) else TotalCount(since)
  }

  ghost function BoundAt(bounds: seq<real>, i: nat): (le: Bound) {
    if i < |bounds| then Finite(bounds[i]) else PosInf
  }

  /** The samples show the totals of the events in `since`. */
  ghost predicate Shows(out: seq<Sample>, bounds: seq<real>, since: seq<Event>) {
    var n := |bounds|;
    && |out| == n + 3
    && (forall i | 0 <= i <= n :: out[i] == BucketSample(BoundAt(bounds, i), Shown(TotalAt(bounds, since, i))))
    && out[n + 1] == SumSample(TotalSum(since))
    && out[n + 2] == CountSample(Shown(TotalCount(since)))
  }

  /** The samples are a Prometheus histogram: buckets by bound that never decrease, `+Inf` equal to the count. */
  ghost predicate Proper(out: seq<Sample>, bounds: seq<real>) {
    var n := |bounds|;
    && |out| == n + 3
    && (forall i | 0 <= i <= n :: out[i].BucketSample? && out[i].le == BoundAt(bounds, i))
    && out[n + 1].SumSample? && out[n + 2].CountSample?
    && (forall i, j | 0 <= i <= j <= n :: out[i].value <= out[j].value)
    && out[n].value == out[n + 2].value
  }

  /** And it is that of the events in `since`. */
  ghost predicate Faithful(out: seq<Sample>, bounds: seq<real>, since: seq<Event>) {
    && Proper(out, bounds)
    && (forall i | 0 <= i <= |bounds| :: out[i].value == TotalAt(bounds, since, i))
    && out[|bounds| + 1].total == TotalSum(since)
  }

  /** Every total that is shown is a `float64`. */
  ghost predicate AllRepresentable(bounds: seq<real>, since: seq<Event>) {
    forall i | 0 <= i <= |bounds| :: Representable(TotalAt(bounds, since, i))
  }

  lemma {:induction false} TotalBelowMonotone(evs: seq<Event>, m: nat, n: nat)
    requires m <= n
    ensures TotalBelow(evs, m) <= TotalBelow(evs, n)
  {
    if evs != [] {
      TotalBelowMonotone(evs[..|evs| - 1], m, n);
      BelowMonotone(evs[|evs| - 1].buckets, m, n);
    }
  }

  /** Exposing and flattening a series shows what it has accumulated. */
  lemma FlattenShows(d: Data, since: seq<Event>)
    requires HoldsTotals(d, d.bounds, since)
    ensures Shows(Flattened(ExposedOf(d)), d.bounds, since)
  {
    var h := ExposedOf(d);
    var n, out := |d.bounds|, Flattened(h);
    assert BucketSamples(h.buckets) + [BucketSample(PosInf, Rounded(h.count))]
         + [SumSample(h.sum), CountSample(Rounded(h.count))] == out;
    forall i | 0 <= i <= n
      ensures out[i] == BucketSample(BoundAt(d.bounds, i), Shown(TotalAt(d.bounds, since, i)))
    {
      if i < n {
        assert SameU64(Below(d.buckets, i + 1), TotalBelow(since, i + 1));
      }
    }
  }

  /** For every run of well-formed events: each bucket is the total of all observations at or below its bound since the
      last reset, and `+Inf` and the count are the total, all cut to 64 bits and rounded. */
  lemma ScrapeShows(evs: seq<Event>)
    requires AllWellFormed(evs)
    ensures Shows(Flattened(ExposedOf(After(evs))), LastBounds(evs), SinceReset(evs))
  {
    Accumulates(evs);
    FlattenShows(After(evs), SinceReset(evs));
  }

  lemma ShownMonotone(a: nat, b: nat)
    requires a <= b < U64
    ensures Shown(a) <= Shown(b)
  {
    assert a % U64 == a && b % U64 == b;
    RoundedMonotone(a, b);
  }

  /** A total is shown as it is if and only if it fits 64 bits and is a `float64`. */
  lemma ShownExactIff(total: nat)
    ensures Shown(total) == total <==> total < U64 && Representable(total)
  {
    if total < U64 {
      RoundedExactIff(total);
    } else {
      RoundedMonotone(total % U64, U64);
      RoundedU64();
      if total == U64 {
        assert Rounded(0) == 0;
      }
    }
  }

  lemma TotalsAscend(bounds: seq<real>, since: seq<Event>, i: nat, j: nat)
    requires AllWellFormed(since) && (forall k | 0 <= k < |since| :: since[k].bounds == bounds) && i <= j
    ensures TotalAt(bounds, since, i) <= TotalAt(bounds, since, j) <= TotalCount(since)
  {
    if j < |bounds| {
      TotalBelowMonotone(since, i + 1, j + 1);
    }
    TotalAtMost(bounds, since, i);
    TotalAtMost(bounds, since, j);
  }

  lemma TotalAtMost(bounds: seq<real>, since: seq<Event>, i: nat)
    requires AllWellFormed(since) && (forall k | 0 <= k < |since| :: since[k].bounds == bounds)
    ensures TotalAt(bounds, since, i) <= TotalCount(since)
  {
    if i < |bounds| {
      forall k | 0 <= k < |since|
        ensures i + 1 <= |since[k].buckets|
      {
        assert WellFormed(since[k]);
      }
      TotalBelowCount(since, i + 1);
    }
  }

  lemma ProperWhenFits(out: seq<Sample>, bounds: seq<real>, since: seq<Event>)
    requires AllWellFormed(since) && (forall k | 0 <= k < |since| :: since[k].bounds == bounds)
    requires Shows(out, bounds, since) && TotalCount(since) < U64
    ensures Proper(out, bounds)
  {
    forall i: nat, j: nat | i <= j <= |bounds|
      ensures out[i].value <= out[j].value
    {
      BucketsAscend(out, bounds, since, i, j);
    }
  }

  lemma BucketsAscend(out: seq<Sample>, bounds: seq<real>, since: seq<Event>, i: nat, j: nat)
    requires AllWellFormed(since) && (forall k | 0 <= k < |since| :: since[k].bounds == bounds)
    requires Shows(out, bounds, since) && TotalCount(since) < U64 && i <= j <= |bounds|
    ensures out[i].value <= out[j].value
  {
    TotalsAscend(bounds, since, i, j);
    ShownMonotone(TotalAt(bounds, since, i), TotalAt(bounds, since, j));
  }

  lemma FaithfulIff(out: seq<Sample>, bounds: seq<real>, since: seq<Event>)
    requires AllWellFormed(since) && (forall k | 0 <= k < |since| :: since[k].bounds == bounds)
    requires Shows(out, bounds, since)
    ensures Faithful(out, bounds, since) <==> TotalCount(since) < U64 && AllRepresentable(bounds, since)
  {
    var n := |bounds|;
    forall i | 0 <= i <= n
      ensures out[i].value == TotalAt(bounds, since, i) <==>
              TotalAt(bounds, since, i) < U64 && Representable(TotalAt(bounds, since, i))
    {
      ShownExactIff(TotalAt(bounds, since, i));
    }
    assert TotalAt(bounds, since, n) == TotalCount(since);
    if TotalCount(since) < U64 {
      ProperWhenFits(out, bounds, since);
      forall i | 0 <= i <= n
        ensures TotalAt(bounds, since, i) < U64
      {
        TotalsAscend(bounds, since, i, i);
      }
    }
  }

  /** As long as the total fits 64 bits the samples are a proper histogram. */
  lemma ScrapeProper(evs: seq<Event>)
    requires AllWellFormed(evs) && TotalCount(SinceReset(evs)) < U64
    ensures Proper(Flattened(ExposedOf(After(evs))), LastBounds(evs))
  {
    ScrapeShows(evs);
    SameLayout(evs);
    ProperWhenFits(Flattened(ExposedOf(After(evs))), LastBounds(evs), SinceReset(evs));
  }

  /** And every sample is the total itself, if and only if also each of the totals is a `float64`. */
  lemma ScrapeFaithfulIff(evs: seq<Event>)
    requires AllWellFormed(evs)
    ensures Faithful(Flattened(ExposedOf(After(evs))), LastBounds(evs), SinceReset(evs)) <==>
            TotalCount(SinceReset(evs)) < U64 && AllRepresentable(LastBounds(evs), SinceReset(evs))
  {
    ScrapeShows(evs);
    SameLayout(evs);
    FaithfulIff(Flattened(ExposedOf(After(evs))), LastBounds(evs), SinceReset(evs));
  }

  /** So up to 2^53 observations since a reset are shown exactly. */
  lemma ScrapeFaithful(evs: seq<Event>)
    requires AllWellFormed(evs) && TotalCount(SinceReset(evs)) <= P53
    ensures Faithful(Flattened(ExposedOf(After(evs))), LastBounds(evs), SinceReset(evs))
  {
    SameLayout(evs);
    SmallIsRepresentable(LastBounds(evs), SinceReset(evs));
    ScrapeFaithfulIff(evs);
  }

  lemma SmallIsRepresentable(bounds: seq<real>, since: seq<Event>)
    requires AllWellFormed(since) && (forall k | 0 <= k < |since| :: since[k].bounds == bounds)
    requires TotalCount(since) <= P53
    ensures AllRepresentable(bounds, since)
  {
    forall i | 0 <= i <= |bounds|
      ensures Representable(TotalAt(bounds, since, i))
    {
      TotalsAscend(bounds, since, i, i);
      UpToP53(TotalAt(bounds, since, i));
    }
  }

  /** One observation more, and the count that is shown is one too low. */
  lemma RoundingLosesOne(ev: Event)
    requires WellFormed(ev) && ev.count == P53 + 1
    ensures var out := Flattened(ExposedOf(After([ev])));
            !Faithful(out, ev.bounds, [ev]) && out[|ev.bounds| + 2] == CountSample(P53)
  {
    OneEvent(ev);
    ScrapeShows([ev]);
    ShownOneLess(Flattened(ExposedOf(After([ev]))), ev.bounds, [ev]);
  }

  lemma ShownOneLess(out: seq<Sample>, bounds: seq<real>, since: seq<Event>)
    requires Shows(out, bounds, since) && TotalCount(since) == P53 + 1
    ensures !Faithful(out, bounds, since) && out[|bounds| + 2] == CountSample(P53)
  {
    ShownFirst(TotalCount(since));
    assert TotalAt(bounds, since, |bounds|) == TotalCount(since);
  }

  lemma ShownFirst(total: nat)
    requires total == P53 + 1
    ensures Shown(total) == P53
  {
    FirstUnrepresentable();
    assert total % U64 == P53 + 1;
  }

  lemma OneEvent(ev: Event)
    ensures SinceReset([ev]) == [ev] && LastBounds([ev]) == ev.bounds && TotalCount([ev]) == ev.count
  {
    SnocParts([], ev);
    assert [] + [ev] == [ev];
  }

  // ---------- counters and gauges ----------

  /** A monotonic delta sum counts on; histograms leave the value alone; every other event sets it. */
  predicate CountsOn(ev: Event) {
    ev.typ == Sum && ev.monotonic && ev.temporality == Delta
  }

  predicate SetsValue(ev: Event) {
    ev.typ != Histogram && !CountsOn(ev)
  }

  /** What the events that count on add up to. */
  ghost function Counted(evs: seq<Event>): (r: real) {
    if evs == [] then 0.0 else
    Counted(evs[..|evs| - 1]) + if CountsOn(evs[|evs| - 1]) then evs[|evs| - 1].value else 0.0
  }

  /** The value of a series: that of the last event that set it, and all that was counted since. */
  lemma {:induction false} ValueSinceSet(evs: seq<Event>, j: nat)
    requires j < |evs| && SetsValue(evs[j]) && forall k | j < k < |evs| :: !SetsValue(evs[k])
    ensures After(evs).value == evs[j].value + Counted(evs[j + 1..])
    decreases |evs|
  {
    var n := |evs| - 1;
    if j == n {
      assert evs[j + 1..] == [];
    } else {
      ValueSinceSet(evs[..n], j);
      assert evs[j + 1..][..n - j - 1] == evs[..n][j + 1..];
    }
  }

  /** And all that was ever counted, if no event has set it. */
  lemma {:induction false} ValueFromZero(evs: seq<Event>)
    requires forall k | 0 <= k < |evs| :: !SetsValue(evs[k])
    ensures After(evs).value == Counted(evs)
  {
    if evs != [] {
      ValueFromZero(evs[..|evs| - 1]);
    }
  }

  /** A series is exposed as what its last event was, and was last seen with it. */
  lemma KindOfLast(evs: seq<Event>, d: Data, now: int)
    requires evs != []
    ensures var ev := evs[|evs| - 1];
            && After(evs).kind == (if ev.typ == Histogram then HistogramKind
                                   else if ev.typ == Sum && ev.monotonic then CounterKind else GaugeKind)
            && Absorb(d, ev, now).lastSeen == now
  {
  }

  ghost function HistogramsOf(evs: seq<Event>): (r: seq<Event>) {
    if evs == [] then [] else
    HistogramsOf(evs[..|evs| - 1]) + if evs[|evs| - 1].typ == Histogram then [evs[|evs| - 1]] else []
  }

  /** Other events leave the histogram of a series alone. */
  lemma {:induction false} OthersLeaveHistogram(evs: seq<Event>)
    ensures var d, h := After(evs), After(HistogramsOf(evs));
            d.count == h.count && d.sum == h.sum && d.bounds == h.bounds && d.buckets == h.buckets
  {
    if evs != [] {
      var before, ev := evs[..|evs| - 1], evs[|evs| - 1];
      OthersLeaveHistogram(before);
      if ev.typ == Histogram {
        AfterSnoc(HistogramsOf(before), ev);
        assert HistogramsOf(evs) == HistogramsOf(before) + [ev];
      } else {
        assert HistogramsOf(evs) == HistogramsOf(before);
      }
    }
  }

  // ---------- the series of the collector ----------

  /** The events a series has taken in since it was last evicted, and when the last of them came. */
  ghost function History(ops: seq<Op>, id: Ident): (r: (seq<Event>, int)) {
    if ops == [] then ([], 0) else HistoryNext(History(ops[..|ops| - 1], id), id, ops[|ops| - 1])
  }

  ghost function HistoryNext(h: (seq<Event>, int), id: Ident, op: Op): (r: (seq<Event>, int)) {
    match op
    case RecordOp(ev, now) => if !IsMeta(ev.name) && IdentOf(ev) == id then (h.0 + [ev], now) else h
    case CollectOp(now) => if h.1 < now - STALE_AFTER then ([], 0) else h
  }

  /** The series is there just if it has a history, and is what its events make of a new series. */
  ghost predicate IsHistory(m: Model, id: Ident, h: (seq<Event>, int)) {
    (id in m <==> h.0 != []) && (id in m ==> m[id] == After(h.0).(lastSeen := h.1))
  }

  ghost function ModelStep(m: Model, op: Op): (m': Model) {
    match op case RecordOp(ev, now) => ModelRecord(m, ev, now) case CollectOp(now) => ModelCollect(m, now)
  }

  lemma {:induction false} ModelRunSnoc(m: Model, ops: seq<Op>)
    requires ops != []
    ensures ModelRun(m, ops) == ModelStep(ModelRun(m, ops[..|ops| - 1]), ops[|ops| - 1])
    decreases |ops|
  {
    var n := |ops| - 1;
    if n > 0 {
      ModelRunSnoc(ModelStep(m, ops[0]), ops[1..]);
      assert ops[1..][..n - 1] == ops[..n][1..];
    } else {
      assert ops[1..] == [] && ops[..0] == [];
    }
  }

  /** The time of an event only sets when the series was last seen. */
  lemma AbsorbTime(d: Data, t: int, ev: Event, now: int)
    ensures Absorb(d.(lastSeen := t), ev, now) == Absorb(d, ev, 0).(lastSeen := now)
  {
  }

  lemma AfterSnoc(evs: seq<Event>, ev: Event)
    ensures After(evs + [ev]) == Absorb(After(evs), ev, 0)
  {
    assert (evs + [ev])[..|evs|] == evs;
  }

  /** In every run of the collector, a series is what the events since its last eviction make of a new one. */
  lemma {:induction false} SeriesIsHistory(ops: seq<Op>, id: Ident)
    ensures IsHistory(ModelRun(map[], ops), id, History(ops, id))
    decreases |ops|
  {
    if ops != [] {
      var n := |ops| - 1;
      SeriesIsHistory(ops[..n], id);
      ModelRunSnoc(map[], ops);
      HistoryStep(ModelRun(map[], ops[..n]), History(ops[..n], id), id, ops[n]);
    }
  }

  lemma HistoryStep(m: Model, h: (seq<Event>, int), id: Ident, op: Op)
    requires IsHistory(m, id, h)
    ensures IsHistory(ModelStep(m, op), id, HistoryNext(h, id, op))
  {
    match op
    case RecordOp(ev, now) => RecordHistory(m, h, id, ev, now);
    case CollectOp(now) => CollectHistory(m, h, id, now);
  }

  lemma RecordHistory(m: Model, h: (seq<Event>, int), id: Ident, ev: Event, now: int)
    requires IsHistory(m, id, h)
    ensures IsHistory(ModelRecord(m, ev, now), id, HistoryNext(h, id, RecordOp(ev, now)))
  {
    if !IsMeta(ev.name) && IdentOf(ev) == id {
      AfterSnoc(h.0, ev);
      AbsorbTime(After(h.0), if h.0 == [] then 0 else h.1, ev, now);
    }
  }

  lemma CollectHistory(m: Model, h: (seq<Event>, int), id: Ident, now: int)
    requires IsHistory(m, id, h)
    ensures IsHistory(ModelCollect(m, now), id, HistoryNext(h, id, CollectOp(now)))
  {
  }

  /** What a scrape of the collector shows of a histogram series after any run: the totals since the later of its last
      eviction and its last reset. */
  lemma CollectedShows(ops: seq<Op>, id: Ident)
    requires id in ModelRun(map[], ops) && AllWellFormed(History(ops, id).0)
    ensures var evs := History(ops, id).0;
            Shows(Flattened(ExposedOf(ModelRun(map[], ops)[id])), LastBounds(evs), SinceReset(evs))
  {
    var evs := History(ops, id).0;
    SeriesIsHistory(ops, id);
    ScrapeShows(evs);
    assert ExposedOf(ModelRun(map[], ops)[id]) == ExposedOf(After(evs));
  }

  /** What it shows of a counter or gauge: the value that was last set since the eviction, or else zero, and all that
      was counted on since; under the kind and at the time of the last event. */
  lemma CollectedValue(ops: seq<Op>, id: Ident)
    requires id in ModelRun(map[], ops)
    ensures var evs, d := History(ops, id).0, ModelRun(map[], ops)[id];
            && evs != [] && d.lastSeen == History(ops, id).1
            && (d.kind == HistogramKind <==> evs[|evs| - 1].typ == Histogram)
            && (d.kind == CounterKind <==> evs[|evs| - 1].typ == Sum && evs[|evs| - 1].monotonic)
            && (forall j | 0 <= j < |evs| && SetsValue(evs[j]) && NoneSetsAfter(evs, j) ::
                  d.value == evs[j].value + Counted(evs[j + 1..]))
            && (NoneSetsAfter(evs, -1) ==> d.value == Counted(evs))
  {
    var evs := History(ops, id).0;
    SeriesIsHistory(ops, id);
    KindOfLast(evs, FRESH, 0);
    forall j | 0 <= j < |evs| && SetsValue(evs[j]) && NoneSetsAfter(evs, j) {
      ValueSinceSet(evs, j);
    }
    if NoneSetsAfter(evs, -1) {
      ValueFromZero(evs);
    }
  }

  ghost predicate NoneSetsAfter(evs: seq<Event>, j: int)
    requires -1 <= j
  {
    forall k | j < k < |evs| :: !SetsValue(evs[k])
  }
}
