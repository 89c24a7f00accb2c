/** Distributed log search: each sink prunes its shards, collects its matches and returns the newest
    `limit` of them (`SearchLogs`); the query server merges the answers, sorts again and cuts again
    (`SearchLogsHandler`).

    `sort.Slice` is not stable, so a sort is any permutation in the right order, and results are compared
    by their timestamps. */
module LogSearch {
  import opened Prelude

  datatype Hit<D> = Hit(ts: Int64, data: D)

  predicate NewestFirst<D>(s: seq<Hit<D>>) {
    forall i, j | 0 <= i < j < |s| :: s[i].ts >= s[j].ts
  }

  /** `out` is a possible result of sorting `s` newest first. */
  ghost predicate IsSort<D>(s: seq<Hit<D>>, out: seq<Hit<D>>) {
    multiset(out) == multiset(s) && NewestFirst(out)
  }

  /** One way to sort, so that `IsSort` always has a solution. */
  function Sorted<D>(s: seq<Hit<D>>): (out: seq<Hit<D>>)
    ensures IsSort(s, out)
  {
    if s == [] then [] else
    assert s == [s[0]] + s[1..];
    Insert(s[0], Sorted(s[1..]))
  }

  function Insert<D>(h: Hit<D>, s: seq<Hit<D>>): (out: seq<Hit<D>>)
    requires NewestFirst(s)
    ensures multiset(out) == multiset{h} + multiset(s) && NewestFirst(out)
    ensures out != [] && out[0] == if s == [] || h.ts >= s[0].ts then h else s[0]
  {
    if s == [] || h.ts >= s[0].ts then [h] + s
    else
      assert s == [s[0]] + s[1..];
      [s[0]] + Insert(h, s[1..])
  }

  function Timestamps<D>(s: seq<Hit<D>>): (ts: seq<int>)
    ensures |ts| == |s|
    ensures forall i | 0 <= i < |s| :: ts[i] == s[i].ts
  {
    seq(|s|, i requires 0 <= i < |s| => s[i].ts)
  }

  /** `matches[:limit]` when there are more. */
  function Cut<D>(s: seq<Hit<D>>, limit: int): (r: seq<Hit<D>>)
    requires limit >= 0
  {
    if |s| > limit then s[..limit] else s
  }

  // ---------- counting ----------

  /** How many hits are at least as new as `v`. */
  function AtLeast<D>(s: seq<Hit<D>>, v: int): (n: nat)
    ensures n <= |s|
  {
    if s == [] then 0 else (if s[0].ts >= v then 1 else 0) + AtLeast(s[1..], v)
  }

  lemma {:induction false} AtLeastConcat<D>(a: seq<Hit<D>>, b: seq<Hit<D>>, v: int)
    ensures AtLeast(a + b, v) == AtLeast(a, v) + AtLeast(b, v)
  {
    if a == [] {
      assert a + b == b;
    } else {
      assert (a + b)[1..] == a[1..] + b;
      AtLeastConcat(a[1..], b, v);
    }
  }

  lemma RemoveOne<D>(b: seq<Hit<D>>, i: nat, v: int)
    requires i < |b|
    ensures var b' := b[..i] + b[i + 1..];
            && multiset(b') == multiset(b) - multiset{b[i]}
            && AtLeast(b, v) == AtLeast([b[i]], v) + AtLeast(b', v)
  {
    var tail := [b[i]] + b[i + 1..];
    assert b == b[..i] + tail;
    AtLeastConcat(b[..i], tail, v);
    AtLeastConcat(b[..i], b[i + 1..], v);
    AtLeastConcat([b[i]], b[i + 1..], v);
  }

  lemma {:induction false} AtLeastPermuted<D>(a: seq<Hit<D>>, b: seq<Hit<D>>, v: int)
    requires multiset(a) == multiset(b)
    ensures |a| == |b| && AtLeast(a, v) == AtLeast(b, v)
    decreases |a|
  {
    if a == [] {
      assert |multiset(b)| == |b|;
    } else {
      assert a[0] in multiset(b);
      var i :| 0 <= i < |b| && b[i] == a[0];
      var a', b' := a[1..], b[..i] + b[i + 1..];
      RemoveOne(b, i, v);
      assert multiset(a') == multiset(b') by {
        assert a == [a[0]] + a';
      }
      AtLeastPermuted(a', b', v);
    }
  }

  /** In a sorted sequence the hits at least as new as `v` come first. */
  lemma {:induction false} SortedPrefix<D>(s: seq<Hit<D>>, v: int, i: nat)
    requires NewestFirst(s) && i < |s|
    ensures s[i].ts >= v <==> i < AtLeast(s, v)
  {
    if s[0].ts < v {
      NoneAtLeast(s, v);
    } else if i > 0 {
      SortedPrefix(s[1..], v, i - 1);
    }
  }

  lemma {:induction false} NoneAtLeast<D>(s: seq<Hit<D>>, v: int)
    requires forall i | 0 <= i < |s| :: s[i].ts < v
    ensures AtLeast(s, v) == 0
  {
    if s != [] {
      NoneAtLeast(s[1..], v);
    }
  }

  lemma {:induction false} AtLeastCut<D>(s: seq<Hit<D>>, limit: int, v: int)
    requires NewestFirst(s) && limit >= 0
    ensures AtLeast(Cut(s, limit), v) == Min(AtLeast(s, v), limit)
    decreases |s|
  {
    if |s| > limit {
      if limit == 0 {
      } else if s[0].ts >= v {
        AtLeastCut(s[1..], limit - 1, v);
        assert s[..limit][1..] == s[1..][..limit - 1];
      } else {
        NoneAtLeast(s, v);
        NoneAtLeast(s[..limit], v);
      }
    }
  }

  function Min(a: int, b: int): int {
    if a <= b then a else b
  }

  /** Sorted sequences with the same length and the same counts have the same timestamps. */
  lemma SameCounts<D>(a: seq<Hit<D>>, b: seq<Hit<D>>)
    requires NewestFirst(a) && NewestFirst(b) && |a| == |b|
    requires forall v :: AtLeast(a, v) == AtLeast(b, v)
    ensures Timestamps(a) == Timestamps(b)
  {
    forall i | 0 <= i < |a|
      ensures a[i].ts == b[i].ts
    {
      SortedPrefix(a, a[i].ts, i);
      SortedPrefix(b, a[i].ts, i);
      SortedPrefix(a, b[i].ts, i);
      SortedPrefix(b, b[i].ts, i);
    }
  }

  // ---------- the two-level cut ----------

  /** Go's `int32(x)`. */
  function ToInt32(x: int): (w: int)
    ensures -0x8000_0000 <= w < 0x8000_0000
    ensures (x - w) % 0x1_0000_0000 == 0
  {
    var m := x % 0x1_0000_0000;
    if m >= 0x8000_0000 then m - 0x1_0000_0000 else m
  }

  /** `out` is a possible answer of a sink whose matches are `hits`, asked for `wire` results: no cut when
      the limit on the wire is not positive. */
  ghost predicate SinkAnswer<D(!new)>(hits: seq<Hit<D>>, wire: int, out: seq<Hit<D>>) {
    exists sorted :: IsSort(hits, sorted) && out == if wire > 0 then Cut(sorted, wire) else sorted
  }

  /** `out` is a possible final result for the collected answers: sort, then cut to `limit`. */
  ghost predicate ServerResult<D(!new)>(answers: seq<Hit<D>>, limit: int, out: seq<Hit<D>>)
    requires limit > 0
  {
    exists sorted :: IsSort(answers, sorted) && out == Cut(sorted, limit)
  }

  /** The limit reaches the sinks unharmed, or as "no limit". */
  predicate LimitSurvives(limit: int) {
    ToInt32(limit) <= 0 || ToInt32(limit) == limit
  }

  lemma SinkCounts<D(!new)>(hits: seq<Hit<D>>, limit: int, out: seq<Hit<D>>, v: int)
    requires limit > 0 && LimitSurvives(limit) && SinkAnswer(hits, ToInt32(limit), out)
    ensures Min(AtLeast(out, v), limit) == Min(AtLeast(hits, v), limit)
  {
    var wire := ToInt32(limit);
    var sorted :| IsSort(hits, sorted) && out == if wire > 0 then Cut(sorted, wire) else sorted;
    AtLeastPermuted(sorted, hits, v);
    if wire > 0 {
      AtLeastCut(sorted, wire, v);
    }
  }

  lemma {:induction false} AllSinkCounts<D(!new)>(sinks: seq<seq<Hit<D>>>, outs: seq<seq<Hit<D>>>, limit: int, v: int)
    requires limit > 0 && LimitSurvives(limit) && |outs| == |sinks|
    requires forall i | 0 <= i < |sinks| ::
               SinkAnswer(sinks[i], ToInt32(limit), outs[i])
    ensures Min(AtLeast(Concat(outs), v), limit) == Min(AtLeast(Concat(sinks), v), limit)
  {
    forall i | 0 <= i < |sinks|
      ensures SameUpTo(outs[i], sinks[i], limit, v)
    {
      SinkCounts(sinks[i], limit, outs[i], v);
    }
    ConcatCounts(outs, sinks, limit, v);
  }

  ghost predicate SameUpTo<D>(a: seq<Hit<D>>, b: seq<Hit<D>>, limit: int, v: int) {
    Min(AtLeast(a, v), limit) == Min(AtLeast(b, v), limit)
  }

  lemma {:induction false} ConcatCounts<D>(a: seq<seq<Hit<D>>>, b: seq<seq<Hit<D>>>, limit: int, v: int)
    requires |a| == |b| && forall i | 0 <= i < |a| :: SameUpTo(a[i], b[i], limit, v)
    ensures SameUpTo(Concat(a), Concat(b), limit, v)
  {
    if a != [] {
      var n := |a| - 1;
      forall i | 0 <= i < n
        ensures SameUpTo(a[..n][i], b[..n][i], limit, v)
      {
        assert SameUpTo(a[i], b[i], limit, v);
      }
      ConcatCounts(a[..n], b[..n], limit, v);
      AtLeastConcat(Concat(a[..n]), a[n], v);
      AtLeastConcat(Concat(b[..n]), b[n], v);
      assert SameUpTo(a[n], b[n], limit, v);
      MinSum(AtLeast(Concat(a[..n]), v), AtLeast(Concat(b[..n]), v), AtLeast(a[n], v), AtLeast(b[n], v), limit);
    }
  }

  lemma MinSum(a: nat, a': nat, b: nat, b': nat, limit: int)
    requires Min(a, limit) == Min(a', limit) && Min(b, limit) == Min(b', limit)
    ensures Min(a + b, limit) == Min(a' + b', limit)
  {
  }

  lemma {:induction false} CountBelowAll<D>(s: seq<Hit<D>>, v: int)
    requires forall i | 0 <= i < |s| :: s[i].ts >= v
    ensures AtLeast(s, v) == |s|
  {
    if s != [] {
      CountBelowAll(s[1..], v);
    }
  }

  /** A value no newer than anything in `s`. */
  ghost function Floor<D>(s: seq<Hit<D>>): (v: int)
    ensures forall i | 0 <= i < |s| :: s[i].ts >= v
  {
    if s == [] then 0 else Min(s[0].ts, Floor(s[1..]))
  }

  lemma ServerCounts<D(!new)>(answers: seq<Hit<D>>, limit: int, out: seq<Hit<D>>, v: int)
    requires limit > 0 && ServerResult(answers, limit, out)
    ensures AtLeast(out, v) == Min(AtLeast(answers, v), limit)
    ensures |out| == Min(|answers|, limit) && NewestFirst(out)
  {
    var sorted :| IsSort(answers, sorted) && out == Cut(sorted, limit);
    AtLeastPermuted(sorted, answers, v);
    AtLeastCut(sorted, limit, v);
  }

  /** Cutting at every sink loses nothing: the result has the timestamps of one sort over all matches. */
  lemma DistributedTopK<D(!new)>(
    sinks: seq<seq<Hit<D>>>, outs: seq<seq<Hit<D>>>, merged: seq<Hit<D>>, limit: int,
    result: seq<Hit<D>>, reference: seq<Hit<D>>)
    requires limit > 0 && LimitSurvives(limit) && |outs| == |sinks|
    requires forall i | 0 <= i < |sinks| ::
               SinkAnswer(sinks[i], ToInt32(limit), outs[i])
    requires multiset(merged) == multiset(Concat(outs))
    requires ServerResult(merged, limit, result)
    requires ServerResult(Concat(sinks), limit, reference)
    ensures Timestamps(result) == Timestamps(reference)
  {
    var v0 := Min(Floor(Concat(sinks)), Floor(Concat(outs)));
    forall v
      ensures AtLeast(result, v) == AtLeast(reference, v)
    {
      ServerCounts(merged, limit, result, v);
      ServerCounts(Concat(sinks), limit, reference, v);
      AllSinkCounts(sinks, outs, limit, v);
      AtLeastPermuted(merged, Concat(outs), v);
    }
    ServerCounts(merged, limit, result, v0);
    ServerCounts(Concat(sinks), limit, reference, v0);
    AllSinkCounts(sinks, outs, limit, v0);
    AtLeastPermuted(merged, Concat(outs), v0);
    CountBelowAll(Concat(sinks), v0);
    CountBelowAll(Concat(outs), v0);
    SameCounts(result, reference);
  }

  /** The condition is exact: any other limit reaches the sinks as a smaller positive number, and one sink
      with one match more than that number loses it. */
  lemma LimitLostOnTheWire<D(!new)>(limit: int, d: D, out: seq<Hit<D>>, result: seq<Hit<D>>, reference: seq<Hit<D>>)
    requires limit > 0 && !LimitSurvives(limit)
    requires SinkAnswer(Repeat(Hit(0, d), ToInt32(limit) + 1), ToInt32(limit), out)
    requires ServerResult(out, limit, result)
    requires ServerResult(Repeat(Hit(0, d), ToInt32(limit) + 1), limit, reference)
    ensures |result| == ToInt32(limit) && |reference| == ToInt32(limit) + 1
  {
    var hits := Repeat(Hit(0, d), ToInt32(limit) + 1);
    var sorted :| IsSort(hits, sorted) && out == Cut(sorted, ToInt32(limit));
    AtLeastPermuted(sorted, hits, 0);
    ServerCounts(out, limit, result, 0);
    ServerCounts(hits, limit, reference, 0);
    assert ToInt32(limit) < limit;
  }

  function Repeat<T>(x: T, n: nat): (s: seq<T>)
    ensures |s| == n
  {
    seq(n, _ => x)
  }

  // ---------- shard pruning ----------

  /** Five minutes in nanoseconds. */
  const SLACK: Int64 := 300_000_000_000

  /** A shard file: its start time and the records in it, as (timestamp, record). */
  datatype Shard<R> = Shard(nanos: Int64, recs: seq<Hit<R>>)

  /** The two reasons to skip a shard; `shards` is in order of start time.  The sums are 64 bits wide. */
  predicate Skipped<R>(shards: seq<Shard<R>>, i: nat, start: Int64, end: Int64)
    requires i < |shards|
  {
    || shards[i].nanos > AddI64(end, SLACK)
    || (i + 1 < |shards| && AddI64(shards[i + 1].nanos, SLACK) < start)
  }

  /** The matching records of one shard: in the time window and accepted by the query's other filters. */
  function Matches<R>(recs: seq<Hit<R>>, start: Int64, end: Int64, accept: Hit<R> -> bool): (r: seq<Hit<R>>) {
    if recs == [] then []
    else (if start <= recs[0].ts <= end && accept(recs[0]) then [recs[0]] else [])
         + Matches(recs[1..], start, end, accept)
  }

  function MatchesFrom<R>(shards: seq<Shard<R>>, i: nat, start: Int64, end: Int64, accept: Hit<R> -> bool)
    : (r: seq<Hit<R>>)
    requires i <= |shards|
    decreases |shards| - i
  {
    if i == |shards| then []
    else Matches(shards[i].recs, start, end, accept) + MatchesFrom(shards, i + 1, start, end, accept)
  }

  /** The end of the query is so late that five minutes more are past the last moment an `int64` can name. */
  predicate LateEnd(end: Int64) {
    end + SLACK >= I64
  }

  /** The record lies within five minutes of its shard's interval. */
  ghost predicate Near<R>(shards: seq<Shard<R>>, i: nat, k: nat)
    requires i < |shards| && k < |shards[i].recs|
  {
    && shards[i].nanos - SLACK <= shards[i].recs[k].ts
    && (i + 1 < |shards| ==> shards[i].recs[k].ts <= AddI64(shards[i + 1].nanos, SLACK))
  }

  /** So do all, but for those that only a query with a late end asks for. */
  ghost predicate NearInterval<R>(shards: seq<Shard<R>>) {
    forall i, k | 0 <= i < |shards| && 0 <= k < |shards[i].recs| && !LateEnd(shards[i].recs[k].ts) :: Near(shards, i, k)
  }

  /** The names of the shards are times since 1970. */
  ghost predicate Dated<R>(shards: seq<Shard<R>>) {
    forall i | 0 <= i < |shards| :: 0 <= shards[i].nanos
  }

  /** The query asks for the record. */
  predicate Wanted<R>(h: Hit<R>, start: Int64, end: Int64, accept: Hit<R> -> bool) {
    start <= h.ts <= end && accept(h)
  }

  /** `r` has the records of `recs` that the query asks for, in order: they are at the places `at`. */
  ghost predicate Selects<R>(recs: seq<Hit<R>>, start: Int64, end: Int64, accept: Hit<R> -> bool, r: seq<Hit<R>>,
                             at: seq<nat>) {
    Picks(recs, r, at) && forall i | 0 <= i < |recs| :: i in at <==> Wanted(recs[i], start, end, accept)
  }

  /** What matches in one shard: every record that the query asks for, in order, and nothing else. */
  lemma {:induction false} MatchesMean<R>(recs: seq<Hit<R>>, start: Int64, end: Int64, accept: Hit<R> -> bool)
    returns (at: seq<nat>)
    ensures Selects(recs, start, end, accept, Matches(recs, start, end, accept), at)
  {
    if recs == [] {
      at := [];
    } else {
      var n := |recs| - 1;
      at := MatchesMean(recs[..n], start, end, accept);
      PicksSnoc(recs[..n], Matches(recs[..n], start, end, accept), at, recs[n]);
      MatchesSnoc(recs[..n], recs[n], start, end, accept);
      assert recs[..n] + [recs[n]] == recs;
      if Wanted(recs[n], start, end, accept) {
        at := at + [n];
      }
    }
  }

  lemma {:induction false} MatchesSnoc<R>(recs: seq<Hit<R>>, h: Hit<R>, start: Int64, end: Int64,
                                          accept: Hit<R> -> bool)
    ensures Matches(recs + [h], start, end, accept) ==
            Matches(recs, start, end, accept) + if Wanted(h, start, end, accept) then [h] else []
  {
    if recs == [] {
      assert (recs + [h])[1..] == [];
    } else {
      assert (recs + [h])[0] == recs[0] && (recs + [h])[1..] == recs[1..] + [h];
      MatchesSnoc(recs[1..], h, start, end, accept);
    }
  }

  lemma {:induction false} MatchesConcat<R>(a: seq<Hit<R>>, b: seq<Hit<R>>, start: Int64, end: Int64,
                                            accept: Hit<R> -> bool)
    ensures Matches(a + b, start, end, accept) == Matches(a, start, end, accept) + Matches(b, start, end, accept)
  {
    if a == [] {
      assert a + b == b;
    } else {
      assert (a + b)[0] == a[0] && (a + b)[1..] == a[1..] + b;
      MatchesConcat(a[1..], b, start, end, accept);
    }
  }

  /** How often a record is among the matches. */
  lemma {:induction false} MatchesCount<R>(recs: seq<Hit<R>>, start: Int64, end: Int64, accept: Hit<R> -> bool,
                                           h: Hit<R>)
    ensures multiset(Matches(recs, start, end, accept))[h] ==
            if Wanted(h, start, end, accept) then multiset(recs)[h] else 0
  {
    if recs != [] {
      MatchesCount(recs[1..], start, end, accept, h);
      assert recs == [recs[0]] + recs[1..];
    }
  }

  /** The records of all shards, and those of the shards that are not skipped, in order. */
  function RecordsFrom<R>(shards: seq<Shard<R>>, i: nat): (recs: seq<Hit<R>>)
    requires i <= |shards|
    decreases |shards| - i
  {
    if i == |shards| then [] else shards[i].recs + RecordsFrom(shards, i + 1)
  }

  function CandidatesFrom<R>(shards: seq<Shard<R>>, i: nat, start: Int64, end: Int64): (recs: seq<Hit<R>>)
    requires i <= |shards|
    decreases |shards| - i
  {
    if i == |shards| then []
    else (if Skipped(shards, i, start, end) then [] else shards[i].recs) + CandidatesFrom(shards, i + 1, start, end)
  }

  lemma {:induction false} FromIsMatches<R>(shards: seq<Shard<R>>, i: nat, start: Int64, end: Int64,
                                            accept: Hit<R> -> bool)
    requires i <= |shards|
    ensures MatchesFrom(shards, i, start, end, accept) == Matches(RecordsFrom(shards, i), start, end, accept)
    ensures KeptFrom(shards, i, start, end, accept) ==
            Matches(CandidatesFrom(shards, i, start, end), start, end, accept)
    decreases |shards| - i
  {
    if i < |shards| {
      FromIsMatches(shards, i + 1, start, end, accept);
      MatchesConcat(shards[i].recs, RecordsFrom(shards, i + 1), start, end, accept);
      KeptIsMatches(shards, i, start, end, accept);
    }
  }

  lemma KeptIsMatches<R>(shards: seq<Shard<R>>, i: nat, start: Int64, end: Int64, accept: Hit<R> -> bool)
    requires i < |shards|
    requires KeptFrom(shards, i + 1, start, end, accept) ==
             Matches(CandidatesFrom(shards, i + 1, start, end), start, end, accept)
    ensures KeptFrom(shards, i, start, end, accept) ==
            Matches(CandidatesFrom(shards, i, start, end), start, end, accept)
  {
    var rest := CandidatesFrom(shards, i + 1, start, end);
    if Skipped(shards, i, start, end) {
      assert [] + rest == rest && [] + Matches(rest, start, end, accept) == Matches(rest, start, end, accept);
    } else {
      MatchesConcat(shards[i].recs, rest, start, end, accept);
    }
  }

  lemma {:induction false} NoMatches<R>(recs: seq<Hit<R>>, start: Int64, end: Int64, accept: Hit<R> -> bool)
    requires forall k | 0 <= k < |recs| :: !(start <= recs[k].ts <= end)
    ensures Matches(recs, start, end, accept) == []
  {
    if recs != [] {
      NoMatches(recs[1..], start, end, accept);
    }
  }

  /** The matches in the shards that are not skipped. */
  function KeptFrom<R>(shards: seq<Shard<R>>, i: nat, start: Int64, end: Int64, accept: Hit<R> -> bool)
    : (r: seq<Hit<R>>)
    requires i <= |shards|
    decreases |shards| - i
  {
    if i == |shards| then []
    else (if Skipped(shards, i, start, end) then [] else Matches(shards[i].recs, start, end, accept))
         + KeptFrom(shards, i + 1, start, end, accept)
  }

  /** Pruning finds fewer matches exactly when a skipped shard held one. */
  lemma {:induction false} PruningIff<R>(
    shards: seq<Shard<R>>, i: nat, start: Int64, end: Int64, accept: Hit<R> -> bool)
    requires i <= |shards|
    ensures |KeptFrom(shards, i, start, end, accept)| <= |MatchesFrom(shards, i, start, end, accept)|
    ensures KeptFrom(shards, i, start, end, accept) == MatchesFrom(shards, i, start, end, accept) <==>
            forall k | i <= k < |shards| && Skipped(shards, k, start, end) ::
              Matches(shards[k].recs, start, end, accept) == []
    decreases |shards| - i
  {
    if i < |shards| {
      PruningIff(shards, i + 1, start, end, accept);
      var first := Matches(shards[i].recs, start, end, accept);
      var kept, all := KeptFrom(shards, i + 1, start, end, accept), MatchesFrom(shards, i + 1, start, end, accept);
      if Skipped(shards, i, start, end) {
        SkippedPart(first, kept, all);
      } else {
        KeptPart(first, kept, all);
      }
    }
  }

  lemma SkippedPart<T>(first: seq<T>, kept: seq<T>, all: seq<T>)
    requires |kept| <= |all|
    ensures |[] + kept| <= |first + all|
    ensures [] + kept == first + all <==> first == [] && kept == all
  {
    assert [] + kept == kept;
    if first == [] {
      assert first + all == all;
    } else {
      assert |first + all| > |kept|;
    }
  }

  lemma KeptPart<T>(first: seq<T>, kept: seq<T>, all: seq<T>)
    requires |kept| <= |all|
    ensures |first + kept| <= |first + all|
    ensures first + kept == first + all <==> kept == all
  {
    assert kept == (first + kept)[|first|..] && all == (first + all)[|first|..];
  }

  predicate Anything<R>(h: Hit<R>) {
    true
  }

  lemma {:induction false} Found<R>(recs: seq<Hit<R>>, k: nat, start: Int64, end: Int64, accept: Hit<R> -> bool)
    requires k < |recs| && start <= recs[k].ts <= end && accept(recs[k])
    ensures Matches(recs, start, end, accept) != []
  {
    if k > 0 {
      Found(recs[1..], k - 1, start, end, accept);
    }
  }

  lemma StrayIsLost<R>(shards: seq<Shard<R>>, i: nat, k: nat)
    requires i < |shards| && k < |shards[i].recs| && !LateEnd(shards[i].recs[k].ts) && !Near(shards, i, k)
    ensures var ts := shards[i].recs[k].ts;
            KeptFrom(shards, 0, ts, ts, Anything) != MatchesFrom(shards, 0, ts, ts, Anything)
  {
    var ts := shards[i].recs[k].ts;
    assert Skipped(shards, i, ts, ts);
    Found(shards[i].recs, k, ts, ts, Anything);
    PruningIff(shards, 0, ts, ts, Anything);
  }

  /** Five minutes are exactly what the pruning allows for: it changes the result of no query, other than those with a
      late end, if and only if each record lies within five minutes of its shard's interval. */
  lemma PruningExactIff<R>(shards: seq<Shard<R>>)
    ensures (forall start: Int64, end: Int64, accept: Hit<R> -> bool | !LateEnd(end) ::
               KeptFrom(shards, 0, start, end, accept) == MatchesFrom(shards, 0, start, end, accept))
            <==> NearInterval(shards)
  {
    if NearInterval(shards) {
      forall start: Int64, end: Int64, accept: Hit<R> -> bool | !LateEnd(end)
        ensures KeptFrom(shards, 0, start, end, accept) == MatchesFrom(shards, 0, start, end, accept)
      {
        PruningIsSafe(shards, start, end, accept);
      }
    } else {
      var i, k :| 0 <= i < |shards| && 0 <= k < |shards[i].recs| &&
                  !LateEnd(shards[i].recs[k].ts) && !Near(shards, i, k);
      StrayIsLost(shards, i, k);
    }
  }

  /** With records near their shard's interval, pruning changes nothing. */
  lemma PruningIsSafe<R>(shards: seq<Shard<R>>, start: Int64, end: Int64, accept: Hit<R> -> bool)
    requires NearInterval(shards) && !LateEnd(end)
    ensures KeptFrom(shards, 0, start, end, accept) == MatchesFrom(shards, 0, start, end, accept)
  {
    forall i | 0 <= i < |shards| && Skipped(shards, i, start, end)
      ensures Matches(shards[i].recs, start, end, accept) == []
    {
      forall k | 0 <= k < |shards[i].recs|
        ensures !(start <= shards[i].recs[k].ts <= end)
      {
        if shards[i].recs[k].ts <= end {
          assert Near(shards, i, k);
        }
      }
      NoMatches(shards[i].recs, start, end, accept);
    }
    PruningIff(shards, 0, start, end, accept);
  }

  /** With a late end the sum wraps around, and every shard is skipped. */
  lemma {:induction false} LateEndKeepsNothing<R>(
    shards: seq<Shard<R>>, i: nat, start: Int64, end: Int64, accept: Hit<R> -> bool)
    requires Dated(shards) && LateEnd(end) && i <= |shards|
    ensures KeptFrom(shards, i, start, end, accept) == []
    decreases |shards| - i
  {
    if i < |shards| {
      assert Skipped(shards, i, start, end);
      LateEndKeepsNothing(shards, i + 1, start, end, accept);
    }
  }

  /** Such as a record at the start of its own shard, in a query up to the last moment. */
  lemma LateEndLosesARecord<R>(nanos: Int64, data: R)
    requires 0 <= nanos
    ensures var shards, end := [Shard(nanos, [Hit(nanos, data)])], I64 - 1;
            && NearInterval(shards) && Dated(shards)
            && MatchesFrom(shards, 0, nanos, end, Anything) != [] && KeptFrom(shards, 0, nanos, end, Anything) == []
  {
    var shards, end: Int64 := [Shard(nanos, [Hit(nanos, data)])], I64 - 1;
    LateEndKeepsNothing(shards, 0, nanos, end, Anything);
    Found(shards[0].recs, 0, nanos, end, Anything);
  }

  /** So, with records near their shard's interval, pruning is harmless if and only if the end is not late, or nothing
      matches anyway. */
  lemma PruningByEndIff<R>(shards: seq<Shard<R>>, start: Int64, end: Int64, accept: Hit<R> -> bool)
    requires NearInterval(shards) && Dated(shards)
    ensures KeptFrom(shards, 0, start, end, accept) == MatchesFrom(shards, 0, start, end, accept) <==>
            !LateEnd(end) || MatchesFrom(shards, 0, start, end, accept) == []
  {
    if LateEnd(end) {
      LateEndKeepsNothing(shards, 0, start, end, accept);
    } else {
      PruningIsSafe(shards, start, end, accept);
    }
  }

  /** `SearchLogs` over a sink's shards, up to the sort: the records of the shards that are not skipped that the query
      asks for, in order; and with records near their shard's interval, all that it asks for. */
  method CollectMatches<R>(shards: seq<Shard<R>>, start: Int64, end: Int64, accept: Hit<R> -> bool)
    returns (matches: seq<Hit<R>>, ghost at: seq<nat>, ghost all: seq<nat>)
    ensures matches == KeptFrom(shards, 0, start, end, accept)
    ensures Selects(CandidatesFrom(shards, 0, start, end), start, end, accept, matches, at)
    ensures NearInterval(shards) && !LateEnd(end) ==>
              Selects(RecordsFrom(shards, 0), start, end, accept, matches, all)
  {
    matches := [];
    ghost var whole := KeptFrom(shards, 0, start, end, accept);
    assert Completes([], whole, whole);
    for i := 0 to |shards|
      invariant Completes(matches, KeptFrom(shards, i, start, end, accept), whole)
    {
      KeptStep(matches, shards, i, start, end, accept, whole);
      if Skipped(shards, i, start, end) {
        continue;
      }
      matches := matches + Matches(shards[i].recs, start, end, accept);
    }
    NothingLeft(matches, whole);
    FromIsMatches(shards, 0, start, end, accept);
    at := MatchesMean(CandidatesFrom(shards, 0, start, end), start, end, accept);
    all := MatchesMean(RecordsFrom(shards, 0), start, end, accept);
    if NearInterval(shards) && !LateEnd(end) {
      PruningIsSafe(shards, start, end, accept);
    }
  }

  ghost predicate Completes<T>(done: seq<T>, rest: seq<T>, whole: seq<T>) {
    done + rest == whole
  }

  lemma NothingLeft<T>(done: seq<T>, whole: seq<T>)
    requires Completes(done, [], whole)
    ensures done == whole
  {
    assert done + [] == done;
  }

  lemma KeptStep<R>(matches: seq<Hit<R>>, shards: seq<Shard<R>>, i: nat, start: Int64, end: Int64,
                    accept: Hit<R> -> bool, whole: seq<Hit<R>>)
    requires i < |shards| && Completes(matches, KeptFrom(shards, i, start, end, accept), whole)
    ensures var found := if Skipped(shards, i, start, end) then [] else Matches(shards[i].recs, start, end, accept);
            Completes(matches + found, KeptFrom(shards, i + 1, start, end, accept), whole)
    ensures matches + [] == matches
  {
    var found := if Skipped(shards, i, start, end) then [] else Matches(shards[i].recs, start, end, accept);
    var rest := KeptFrom(shards, i + 1, start, end, accept);
    assert matches + (found + rest) == (matches + found) + rest;
  }

  function AllMatches<R>(sinks: seq<seq<Shard<R>>>, start: Int64, end: Int64, accept: Hit<R> -> bool)
    : (r: seq<seq<Hit<R>>>)
    ensures |r| == |sinks|
    ensures forall i | 0 <= i < |sinks| :: r[i] == MatchesFrom(sinks[i], 0, start, end, accept)
  {
    seq(|sinks|, i requires 0 <= i < |sinks| => MatchesFrom(sinks[i], 0, start, end, accept))
  }

  /** How often the shards hold a record, at one sink and at all. */
  ghost function CopiesIn<R>(shards: seq<Shard<R>>, h: Hit<R>): (n: nat) {
    if shards == [] then 0 else CopiesIn(shards[..|shards| - 1], h) + multiset(shards[|shards| - 1].recs)[h]
  }

  ghost function Copies<R>(sinks: seq<seq<Shard<R>>>, h: Hit<R>): (n: nat) {
    if sinks == [] then 0 else Copies(sinks[..|sinks| - 1], h) + CopiesIn(sinks[|sinks| - 1], h)
  }

  /** `all` has exactly the records of all sinks that the query asks for, each as often as the sinks hold it. */
  ghost predicate AllWanted<R(!new)>(sinks: seq<seq<Shard<R>>>, start: Int64, end: Int64, accept: Hit<R> -> bool,
                                     all: seq<Hit<R>>) {
    forall h :: multiset(all)[h] == if start <= h.ts <= end && accept(h) then Copies(sinks, h) else 0
  }

  lemma {:induction false} RecordsCopies<R>(shards: seq<Shard<R>>, i: nat, h: Hit<R>)
    requires i <= |shards|
    ensures CopiesIn(shards, h) == CopiesIn(shards[..i], h) + multiset(RecordsFrom(shards, i))[h]
    decreases |shards| - i
  {
    if i == |shards| {
      assert shards[..i] == shards;
    } else {
      RecordsCopies(shards, i + 1, h);
      assert shards[..i + 1][..i] == shards[..i];
    }
  }

  lemma {:induction false} MatchCopies<R>(sinks: seq<seq<Shard<R>>>, start: Int64, end: Int64, accept: Hit<R> -> bool,
                                          h: Hit<R>)
    ensures multiset(Concat(AllMatches(sinks, start, end, accept)))[h] ==
            if Wanted(h, start, end, accept) then Copies(sinks, h) else 0
  {
    if sinks != [] {
      var n := |sinks| - 1;
      MatchCopies(sinks[..n], start, end, accept, h);
      var ms := AllMatches(sinks, start, end, accept);
      assert ms[..n] == AllMatches(sinks[..n], start, end, accept);
      FromIsMatches(sinks[n], 0, start, end, accept);
      MatchesCount(RecordsFrom(sinks[n], 0), start, end, accept, h);
      RecordsCopies(sinks[n], 0, h);
      assert sinks[n][..0] == [];
    }
  }

  lemma WantedBag<R(!new)>(sinks: seq<seq<Shard<R>>>, start: Int64, end: Int64, accept: Hit<R> -> bool,
                           all: seq<Hit<R>>)
    requires AllWanted(sinks, start, end, accept, all)
    ensures multiset(Concat(AllMatches(sinks, start, end, accept))) == multiset(all)
  {
    forall h
      ensures multiset(Concat(AllMatches(sinks, start, end, accept)))[h] == multiset(all)[h]
    {
      MatchCopies(sinks, start, end, accept, h);
    }
  }

  lemma SameServerResult<D(!new)>(a: seq<Hit<D>>, b: seq<Hit<D>>, limit: int, out: seq<Hit<D>>)
    requires limit > 0 && multiset(a) == multiset(b) && ServerResult(a, limit, out)
    ensures ServerResult(b, limit, out)
  {
    var sorted :| IsSort(a, sorted) && out == Cut(sorted, limit);
    assert IsSort(b, sorted);
  }

  /** The whole search: pruning at every sink, a cut at every sink, a merge in any order and a final cut
      show the same timestamps as one sort over `all`, the records of every responding sink that the query asks for. */
  lemma SearchEndToEnd<R(!new)>(
    sinks: seq<seq<Shard<R>>>, start: Int64, end: Int64, accept: Hit<R> -> bool, limit: int,
    outs: seq<seq<Hit<R>>>, merged: seq<Hit<R>>, result: seq<Hit<R>>, all: seq<Hit<R>>, reference: seq<Hit<R>>)
    requires limit > 0 && LimitSurvives(limit) && |outs| == |sinks| && !LateEnd(end)
    requires forall i | 0 <= i < |sinks| :: NearInterval(sinks[i])
    requires forall i | 0 <= i < |sinks| ::
               SinkAnswer(KeptFrom(sinks[i], 0, start, end, accept), ToInt32(limit), outs[i])
    requires multiset(merged) == multiset(Concat(outs))
    requires ServerResult(merged, limit, result)
    requires AllWanted(sinks, start, end, accept, all) && ServerResult(all, limit, reference)
    ensures Timestamps(result) == Timestamps(reference)
  {
    var ms := AllMatches(sinks, start, end, accept);
    forall i | 0 <= i < |sinks|
      ensures SinkAnswer(ms[i], ToInt32(limit), outs[i])
    {
      PruningIsSafe(sinks[i], start, end, accept);
    }
    WantedBag(sinks, start, end, accept, all);
    SameServerResult(all, Concat(ms), limit, reference);
    DistributedTopK(ms, outs, merged, limit, result, reference);
  }

  /** With a late end it shows nothing: so it shows what it should if and only if the end is not late, or there is
      nothing to show. */
  lemma SearchExactIff<R(!new)>(
    sinks: seq<seq<Shard<R>>>, start: Int64, end: Int64, accept: Hit<R> -> bool, limit: int,
    outs: seq<seq<Hit<R>>>, merged: seq<Hit<R>>, result: seq<Hit<R>>, all: seq<Hit<R>>, reference: seq<Hit<R>>)
    requires limit > 0 && LimitSurvives(limit) && |outs| == |sinks|
    requires forall i | 0 <= i < |sinks| :: NearInterval(sinks[i]) && Dated(sinks[i])
    requires forall i | 0 <= i < |sinks| ::
               SinkAnswer(KeptFrom(sinks[i], 0, start, end, accept), ToInt32(limit), outs[i])
    requires multiset(merged) == multiset(Concat(outs))
    requires ServerResult(merged, limit, result)
    requires AllWanted(sinks, start, end, accept, all) && ServerResult(all, limit, reference)
    ensures Timestamps(result) == Timestamps(reference) <==> !LateEnd(end) || all == []
  {
    if !LateEnd(end) {
      SearchEndToEnd(sinks, start, end, accept, limit, outs, merged, result, all, reference);
    } else {
      LateEndShowsNothing(sinks, start, end, accept, limit, outs, merged, result);
      ServerCounts(all, limit, reference, 0);
      assert |Timestamps(result)| == 0 && |Timestamps(reference)| == |reference|;
    }
  }

  lemma LateEndShowsNothing<R(!new)>(
    sinks: seq<seq<Shard<R>>>, start: Int64, end: Int64, accept: Hit<R> -> bool, limit: int,
    outs: seq<seq<Hit<R>>>, merged: seq<Hit<R>>, result: seq<Hit<R>>)
    requires limit > 0 && |outs| == |sinks| && LateEnd(end)
    requires forall i | 0 <= i < |sinks| :: Dated(sinks[i])
    requires forall i | 0 <= i < |sinks| ::
               SinkAnswer(KeptFrom(sinks[i], 0, start, end, accept), ToInt32(limit), outs[i])
    requires multiset(merged) == multiset(Concat(outs)) && ServerResult(merged, limit, result)
    ensures result == []
  {
    forall i | 0 <= i < |outs|
      ensures outs[i] == []
    {
      LateEndKeepsNothing(sinks[i], 0, start, end, accept);
      NothingAnswered(ToInt32(limit), outs[i]);
    }
    ConcatNothing(outs);
    assert |multiset(merged)| == 0;
    ServerCounts(merged, limit, result, 0);
  }

  lemma NothingAnswered<D(!new)>(wire: int, out: seq<Hit<D>>)
    requires SinkAnswer([], wire, out)
    ensures out == []
  {
    var sorted :| IsSort([], sorted) && out == if wire > 0 then Cut(sorted, wire) else sorted;
    assert |multiset(sorted)| == 0;
  }

  lemma {:induction false} ConcatNothing<T>(parts: seq<seq<T>>)
    requires forall i | 0 <= i < |parts| :: parts[i] == []
    ensures Concat(parts) == []
  {
    if parts != [] {
      ConcatNothing(parts[..|parts| - 1]);
    }
  }
}
