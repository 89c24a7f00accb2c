/** One run of `Compact`, step by step on the bucket, and the parts it plans: rows are grouped by hour partition,
    sorted, and split where the part file has grown too large. */
module CompactionRun {
  import opened Prelude
  import opened Compaction
  import opened Labels
  import opened Text

  /** Rows written between two looks at the size of the part file. */
  const FLUSH_EVERY: nat := 5000

  /** A part of `n` rows was closed because the file had reached its limit. */
  predicate AtLimit(full: (nat, nat) -> bool, part: nat, n: nat) {
    n % FLUSH_EVERY == 0 && full(part, n)
  }

  /** ... and not later than it should have been. */
  ghost predicate NoLater(full: (nat, nat) -> bool, part: nat, n: nat) {
    forall m | 0 < m < n :: !AtLimit(full, part, m)
  }

  /** The inner loop of `writePartitionData`: how many rows go into part `part`, which starts at `start`.
      `full(part, n)` says that the file has reached the size limit after `n` rows. */
  method FillPart(rows: seq<Row>, start: nat, part: nat, full: (nat, nat) -> bool) returns (end: nat)
    requires start < |rows|
    ensures start < end <= |rows|
    ensures (end < |rows| ==> AtLimit(full, part, end - start)) && NoLater(full, part, end - start)
    ensures end < |rows| ==> (end - start) % 5000 == 0 && full(part, end - start)
    ensures forall m | 0 < m < end - start && m % 5000 == 0 :: !full(part, m)
  {
    var i := start;
    while i < |rows|
      invariant start <= i <= |rows| && NoLater(full, part, i - start + 1)
      invariant forall m | 0 < m < i - start + 1 && m % 5000 == 0 :: !full(part, m)
    {
      if (i - start + 1) % FLUSH_EVERY == 0 && full(part, i - start + 1) {
        return i + 1;
      }
      i := i + 1;
    }
    return i;
  }

  /** `writePartitionData`: the parts are the rows, in order, and each is closed at the size limit. */
  method SplitParts(rows: seq<Row>, full: (nat, nat) -> bool) returns (parts: seq<seq<Row>>)
    ensures Concat(parts) == rows
    ensures forall i | 0 <= i < |parts| :: parts[i] != [] && NoLater(full, i, |parts[i]|)
    ensures forall i | 0 <= i < |parts| - 1 :: AtLimit(full, i, |parts[i]|)
  {
    parts := [];
    var start := 0;
    while start < |rows|
      invariant 0 <= start <= |rows| && Concat(parts) == rows[..start]
      invariant forall i | 0 <= i < |parts| :: parts[i] != [] && NoLater(full, i, |parts[i]|)
      invariant forall i | 0 <= i < |parts| && (i < |parts| - 1 || start < |rows|) :: AtLimit(full, i, |parts[i]|)
    {
      var end := FillPart(rows, start, |parts|, full);
      var part := rows[start..end];
      assert (parts + [part])[..|parts|] == parts;
      assert rows[..start] + part == rows[..end];
      parts := parts + [part];
      start := end;
    }
    assert rows[..start] == rows;
  }

  // ---------- the plan of a run ----------

  /** The rows of one partition, in order. */
  function InPartition(rows: seq<Row>, p: Partition): (r: seq<Row>) {
    if rows == [] then [] else
    var n := |rows| - 1;
    InPartition(rows[..n], p) + if Belongs(rows[n], p) then [rows[n]] else []
  }

  predicate GroupAt(rows: seq<Row>, groups: map<Partition, seq<Row>>, p: Partition) {
    InPartition(rows, p) == if p in groups then groups[p] else []
  }

  ghost predicate Grouped(rows: seq<Row>, groups: map<Partition, seq<Row>>) {
    forall p :: GroupAt(rows, groups, p)
  }

  function AddRow(groups: map<Partition, seq<Row>>, r: Row): (groups': map<Partition, seq<Row>>) {
    var p := PartitionOf(r);
    groups[p := (if p in groups then groups[p] else []) + [r]]
  }

  lemma GroupedSnoc(rows: seq<Row>, groups: map<Partition, seq<Row>>, r: Row)
    requires Grouped(rows, groups)
    ensures Grouped(rows + [r], AddRow(groups, r))
  {
    forall p
      ensures GroupAt(rows + [r], AddRow(groups, r), p)
    {
      assert GroupAt(rows, groups, p);
      assert (rows + [r])[..|rows|] == rows;
      BelongsIff(r, p);
    }
  }

  /** Step 5 of `Compact`: group by partition. */
  method GroupRows(rows: seq<Row>) returns (groups: map<Partition, seq<Row>>)
    ensures Grouped(rows, groups)
  {
    groups := map[];
    for i := 0 to |rows|
      invariant Grouped(rows[..i], groups)
    {
      GroupedSnoc(rows[..i], groups, rows[i]);
      assert rows[..i] + [rows[i]] == rows[..i + 1];
      var p := PartitionOf(rows[i]);
      groups := groups[p := (if p in groups then groups[p] else []) + [rows[i]]];
    }
    assert rows[..|rows|] == rows;
  }

  lemma {:induction false} InPartitionAt(rows: seq<Row>, p: Partition, r: Row)
    ensures multiset(InPartition(rows, p))[r] == if Belongs(r, p) then multiset(rows)[r] else 0
  {
    if rows != [] {
      var n := |rows| - 1;
      InPartitionAt(rows[..n], p, r);
      assert rows == rows[..n] + [rows[n]];
      assert multiset(rows) == multiset(rows[..n]) + multiset{rows[n]};
    }
  }

  /** The group of a partition holds, in order, the rows that belong to it. */
  lemma {:induction false} InPartitionMeans(rows: seq<Row>, p: Partition) returns (at: seq<nat>)
    ensures Picks(rows, InPartition(rows, p), at)
    ensures forall i | 0 <= i < |rows| :: i in at <==> Belongs(rows[i], p)
  {
    if rows == [] {
      at := [];
    } else {
      var n := |rows| - 1;
      at := InPartitionMeans(rows[..n], p);
      PicksSnoc(rows[..n], InPartition(rows[..n], p), at, rows[n]);
      assert rows[..n] + [rows[n]] == rows;
      if Belongs(rows[n], p) {
        at := at + [n];
      }
    }
  }

  lemma InPartitionInPlace(rows: seq<Row>, p: Partition)
    ensures InPlace(InPartition(rows, p), p)
  {
  }

  // ---------- the parts of one partition ----------

  function Chunks(p: Partition, parts: seq<seq<Row>>): (cs: seq<Chunk>)
    ensures |cs| == |parts| && forall i | 0 <= i < |cs| :: cs[i] == Chunk(Slot(p, i), parts[i])
  {
    seq(|parts|, i requires 0 <= i < |parts| => Chunk(Slot(p, i), parts[i]))
  }

  lemma {:induction false} PlannedSnoc(plan: seq<Chunk>, c: Chunk)
    ensures Planned(plan + [c]) == Planned(plan) + multiset(c.rows)
  {
    if plan == [] {
      assert [c][1..] == [];
    } else {
      assert (plan + [c])[1..] == plan[1..] + [c];
      PlannedSnoc(plan[1..], c);
    }
  }

  lemma {:induction false} PlannedJoin(a: seq<Chunk>, b: seq<Chunk>)
    ensures Planned(a + b) == Planned(a) + Planned(b)
  {
    if a == [] {
      assert a + b == b;
    } else {
      assert (a + b)[1..] == a[1..] + b;
      PlannedJoin(a[1..], b);
    }
  }

  lemma {:induction false} ChunksPlanned(p: Partition, parts: seq<seq<Row>>)
    ensures Planned(Chunks(p, parts)) == multiset(Concat(parts))
  {
    if parts != [] {
      var n := |parts| - 1;
      ChunksPlanned(p, parts[..n]);
      assert Chunks(p, parts) == Chunks(p, parts[..n]) + [Chunk(Slot(p, n), parts[n])];
      PlannedSnoc(Chunks(p, parts[..n]), Chunk(Slot(p, n), parts[n]));
    }
  }

  /** The rows of chunks, one after the other. */
  function ChunkRows(cs: seq<Chunk>): (rows: seq<Row>) {
    if cs == [] then [] else ChunkRows(cs[..|cs| - 1]) + cs[|cs| - 1].rows
  }

  lemma {:induction false} ChunksInOrder(p: Partition, parts: seq<seq<Row>>)
    ensures ChunkRows(Chunks(p, parts)) == Concat(parts)
  {
    if parts != [] {
      var n := |parts| - 1;
      ChunksInOrder(p, parts[..n]);
      assert Chunks(p, parts)[..n] == Chunks(p, parts[..n]);
    }
  }

  /** Chunks of one partition, holding the given rows. */
  ghost predicate PartitionPlan(cs: seq<Chunk>, p: Partition, rows: multiset<Row>) {
    && Planned(cs) == rows
    && (forall i | 0 <= i < |cs| :: cs[i].slot == Slot(p, i) && InPlace(cs[i].rows, p))
  }

  lemma {:induction false} PartOfConcat<T>(parts: seq<seq<T>>, i: nat, x: T)
    requires i < |parts| && x in parts[i]
    ensures x in Concat(parts)
  {
    var n := |parts| - 1;
    if i < n {
      assert parts[..n][i] == parts[i];
      PartOfConcat(parts[..n], i, x);
    }
  }

  /** Step 6 for one partition.  `sorted` stands for the library's sort. */
  method PlanPartition(p: Partition, rows: seq<Row>, full: (Partition, nat, nat) -> bool, sorted: seq<Row> -> seq<Row>)
    returns (cs: seq<Chunk>)
    requires InPlace(rows, p) && multiset(sorted(rows)) == multiset(rows)
    ensures PartitionPlan(cs, p, multiset(rows)) && ChunkRows(cs) == sorted(rows)
  {
    var ordered := sorted(rows);
    var parts := SplitParts(ordered, (part: nat, n: nat) => full(p, part, n));
    cs := Chunks(p, parts);
    ChunksPlanned(p, parts);
    ChunksInOrder(p, parts);
    forall i | 0 <= i < |cs|
      ensures InPlace(cs[i].rows, p)
    {
      forall r | r in cs[i].rows
        ensures Belongs(r, p)
      {
        PartOfConcat(parts, i, r);
        assert r in multiset(ordered);
      }
    }
  }

  predicate PlannedAt(m: multiset<Row>, rows: seq<Row>, done: set<Partition>, r: Row) {
    m[r] == if PartitionOf(r) in done then multiset(rows)[r] else 0
  }

  /** The partitions in `done` are planned. */
  ghost predicate PlannedFor(plan: seq<Chunk>, rows: seq<Row>, done: set<Partition>) {
    && (forall r :: PlannedAt(Planned(plan), rows, done, r))
    && (forall i | 0 <= i < |plan| :: plan[i].slot.partition in done && InPlace(plan[i].rows, plan[i].slot.partition))
    && (forall i, j | 0 <= i < j < |plan| :: plan[i].slot != plan[j].slot)
  }

  lemma PlannedForNext(plan: seq<Chunk>, rows: seq<Row>, done: set<Partition>, cs: seq<Chunk>, p: Partition)
    requires PlannedFor(plan, rows, done) && p !in done && PartitionPlan(cs, p, multiset(InPartition(rows, p)))
    ensures PlannedFor(plan + cs, rows, done + {p})
  {
    PlannedJoin(plan, cs);
    forall r
      ensures PlannedAt(Planned(plan + cs), rows, done + {p}, r)
    {
      assert PlannedAt(Planned(plan), rows, done, r);
      InPartitionAt(rows, p, r);
      BelongsIff(r, p);
      SumAt(Planned(plan), Planned(cs), r);
    }
  }

  /** Steps 5 and 6 of `Compact` plan what the protocol asks for. */
  method PlanRun(rows: seq<Row>, full: (Partition, nat, nat) -> bool, sorted: seq<Row> -> seq<Row>)
    returns (plan: seq<Chunk>)
    requires forall s :: multiset(sorted(s)) == multiset(s)
    ensures IsPlan(plan, multiset(rows))
  {
    var groups := GroupRows(rows);
    plan := [];
    var todo := groups.Keys;
    ghost var done: set<Partition> := {};
    while todo != {}
      invariant todo <= groups.Keys && forall p | p in groups :: p in todo <==> p !in done
      invariant PlannedFor(plan, rows, done)
      decreases |todo|
    {
      var p :| p in todo;
      assert GroupAt(rows, groups, p);
      InPartitionInPlace(rows, p);
      var cs := PlanPartition(p, groups[p], full, sorted);
      PlannedForNext(plan, rows, done, cs, p);
      plan, todo, done := plan + cs, todo - {p}, done + {p};
    }
    AllGrouped(rows, groups, plan, done);
  }

  lemma AllGrouped(rows: seq<Row>, groups: map<Partition, seq<Row>>, plan: seq<Chunk>, done: set<Partition>)
    requires Grouped(rows, groups) && PlannedFor(plan, rows, done) && forall p | p in groups :: p in done
    ensures Planned(plan) == multiset(rows)
  {
    forall r
      ensures Planned(plan)[r] == multiset(rows)[r]
    {
      var p := PartitionOf(r);
      assert GroupAt(rows, groups, p) && PlannedAt(Planned(plan), rows, done, r);
      InPartitionAt(rows, p, r);
      BelongsIff(r, p);
    }
  }

  // ---------- a whole run ----------

  /** Step 3 of `Compact`: the settled shards without a marker, in order, and no more than `max` of them. */
  method SelectKeys(raw: set<string>, times: string -> int, marks: set<string>, cutoff: int, max: nat)
    returns (keys: seq<string>)
    ensures StrictlySorted(keys) && |keys| <= max
    ensures forall k | k in keys :: k in raw && k !in marks && times(k) < cutoff
    ensures |keys| < max ==> forall k | k in raw && k !in marks && times(k) < cutoff :: k in keys
    ensures forall k, other | k in keys && other in raw && other !in marks && times(other) < cutoff && other !in keys ::
              Less(k, other)
  {
    var eligible: seq<string> := [];
    var todo := raw;
    while todo != {}
      invariant todo <= raw
      invariant forall k :: k in eligible <==> k in raw && k !in todo && k !in marks && times(k) < cutoff
      invariant forall i, j | 0 <= i < j < |eligible| :: eligible[i] != eligible[j]
      decreases |todo|
    {
      var k :| k in todo;
      todo := todo - {k};
      if k !in marks && times(k) < cutoff {
        eligible := eligible + [k];
      }
    }
    var sorted := SortStrings(eligible);
    keys := sorted;
    if |keys| > max {
      keys := keys[..max];
    }
    forall k, other | k in keys && other in sorted && other !in keys
      ensures Less(k, other)
    {
      var i :| 0 <= i < |keys| && keys[i] == k;
      var j :| 0 <= j < |sorted| && sorted[j] == other;
      assert sorted[i] == k && i < j;
    }
  }

  /** Step 4: unparseable shards are skipped. */
  method CollectRows(raw: map<string, Shard>, keys: seq<string>) returns (rows: seq<Row>)
    requires forall k | k in keys :: k in raw
    ensures multiset(rows) == RowsOf(raw, keys)
  {
    rows := [];
    for i := 0 to |keys|
      invariant multiset(rows) == RowsOf(raw, keys[..i])
    {
      assert keys[..i + 1][..i] == keys[..i];
      match raw[keys[i]]
      case Unparseable =>
      case Parsed(more) => rows := rows + more;
    }
    assert keys[..|keys|] == keys;
  }

  /** The bucket.  A bucket operation that fails, or a crash, is a run that gets no further: `writes` bounds how many
      succeed. */
  class Archive {
    var raw: map<string, Shard>
    var parts: map<PartKey, seq<Row>>
    var marks: set<string>
    ghost var phase: Phase
    ghost var now: int
    ghost var log: seq<Entry>
    ghost var fails: map<string, nat>
    ghost var start: int

    ghost function State(): (st: Sys)
      reads this
    {
      Sys(raw, parts, marks, phase, now, log, fails, start)
    }

    constructor (ghost now: int)
      ensures State() == Initial(now) && Inv(State())
    {
      raw, parts, marks := map[], map[], {};
      phase, this.now, log, fails, start := Idle, now, [], map[], now;
    }

    method PutPart(chunk: Chunk, time: int)
      requires Inv(State()) && phase.Writing? && phase.pending != [] && chunk == phase.pending[0] && now <= time
      modifies this
      ensures Inv(State()) && State() == Next(old(State()), WritePart(time))
    {
      WritePartKeeps(State(), time);
      parts := parts[PartKey(chunk.slot, time) := chunk.rows];
      log := log + [Entry(PartKey(chunk.slot, time), chunk.rows)];
      now, phase := time, Writing(phase.keys, phase.pending[1..]);
    }

    method PutMarker(key: string)
      requires Inv(State()) && phase.Marking? && phase.todo != [] && key == phase.todo[0]
      modifies this
      ensures Inv(State()) && State() == Next(old(State()), WriteMarker)
    {
      MarkKeeps(State(), WriteMarker);
      marks := marks + {key};
      phase := Marking(phase.keys, phase.todo[1..]);
    }

    /** Only history changes when a run stops: the bucket is as it is. */
    ghost method StopRun()
      requires Inv(State()) && !phase.Idle?
      modifies this
      ensures Inv(State()) && State() == Next(old(State()), Stop)
    {
      StopKeeps(State());
      fails, phase := Failed(fails, phase.keys), Idle;
    }

    ghost method BeginRun(keys: seq<string>, plan: seq<Chunk>, time: int)
      requires Inv(State()) && phase.Idle? && now < time && Selectable(State(), keys) && IsPlan(plan, RowsOf(raw, keys))
      modifies this
      ensures Inv(State()) && State() == Next(old(State()), Begin(keys, plan, time))
    {
      BeginKeeps(State(), keys, plan, time);
      phase, now, start := Writing(keys, plan), time, time;
    }

    method PutNext(plan: seq<Chunk>, i: nat, time: int, ghost keys: seq<string>)
      requires i < |plan| && Inv(State()) && phase == Writing(keys, plan[i..]) && now <= time
      modifies this
      ensures Inv(State()) && phase == Writing(keys, plan[i + 1..]) && now == time
      ensures raw == old(raw) && marks == old(marks) && fails == old(fails)
    {
      assert plan[i..][1..] == plan[i + 1..];
      PutPart(plan[i], time);
    }

    /** Step 6: the parts, one after the other. */
    method WriteParts(plan: seq<Chunk>, clock: nat -> int, writes: nat) returns (ok: bool, left: nat)
      requires Inv(State()) && phase.Writing? && phase.pending == plan && now == clock(0)
      requires forall i: nat, j: nat | i <= j :: clock(i) <= clock(j)
      modifies this
      ensures Inv(State()) && phase.Writing? && phase.keys == old(phase.keys) && (ok ==> phase.pending == [])
      ensures raw == old(raw) && marks == old(marks) && fails == old(fails)
    {
      ok, left := true, writes;
      for i := 0 to |plan|
        invariant Inv(State()) && phase == Writing(old(phase.keys), plan[i..]) && now <= clock(i)
        invariant raw == old(raw) && marks == old(marks) && fails == old(fails)
      {
        if left == 0 {
          return false, 0;
        }
        left := left - 1;
        PutNext(plan, i, clock(i), old(phase.keys));
        assert clock(i) <= clock(i + 1);
      }
    }

    /** Step 7: the markers commit the run. */
    method WriteMarkers(keys: seq<string>, writes: nat) returns (ok: bool)
      requires Inv(State()) && phase == Marking(keys, keys)
      modifies this
      ensures Inv(State()) && phase.Marking? && phase.keys == keys && (ok ==> phase.todo == [])
      ensures raw == old(raw) && fails == old(fails) && old(marks) <= marks
      ensures forall k | k in marks :: k in old(marks) || k in keys
    {
      ok := true;
      var left := writes;
      for i := 0 to |keys|
        invariant Inv(State()) && phase == Marking(keys, keys[i..])
        invariant raw == old(raw) && fails == old(fails)
        invariant old(marks) <= marks && forall k | k in marks :: k in old(marks) || k in keys
      {
        if left == 0 {
          return false;
        }
        left := left - 1;
        assert keys[i..][1..] == keys[i + 1..];
        PutMarker(keys[i]);
      }
    }

    method Commit(keys: seq<string>, writes: nat) returns (ok: bool)
      requires Inv(State()) && phase == Writing(keys, [])
      modifies this
      ensures Inv(State()) && phase.Idle? && raw == old(raw) && old(marks) <= marks
      ensures forall k | k in marks :: k in old(marks) || k in keys
      ensures ok ==> fails == old(fails) && forall k | k in keys :: k in marks
      ensures !ok ==> fails == Failed(old(fails), keys)
    {
      MarkKeeps(State(), BeginMarks);
      phase := Marking(keys, keys);
      ok := WriteMarkers(keys, writes);
      if !ok {
        StopRun();
        return;
      }
      MarkKeeps(State(), Finish);
      phase := Idle;
    }

    /** Steps 4 to 7 of `Compact`. */
    method Compact(keys: seq<string>, full: (Partition, nat, nat) -> bool, sorted: seq<Row> -> seq<Row>,
                   clock: nat -> int, writes: nat)
      returns (ok: bool)
      requires Inv(State()) && phase.Idle? && Selectable(State(), keys)
      requires forall s :: multiset(sorted(s)) == multiset(s)
      requires now < clock(0) && forall i: nat, j: nat | i <= j :: clock(i) <= clock(j)
      modifies this
      ensures Inv(State()) && phase.Idle? && raw == old(raw) && old(marks) <= marks
      ensures forall k | k in marks :: k in old(marks) || k in keys
      ensures ok ==> fails == old(fails) && forall k | k in keys :: k in marks
      ensures !ok ==> fails == Failed(old(fails), keys)
    {
      var rows := CollectRows(raw, keys);
      var plan := PlanRun(rows, full, sorted);
      BeginRun(keys, plan, clock(0));
      var left;
      ok, left := WriteParts(plan, clock, writes);
      if !ok {
        StopRun();
        return;
      }
      ok := Commit(keys, left);
    }
  }
}
