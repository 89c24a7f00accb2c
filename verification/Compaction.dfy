/** The compactor (compactor.go): raw shards become Parquet parts of hour partitions, and a marker per shard commits
    the run.  A run may stop at any moment, on an error or in a crash, and the next one starts from the bucket alone.

    Rows are named by where they come from, so that copies of one row can be counted. */
module Compaction {

  datatype Signal = Logs | Traces | Metrics

  datatype Row = Row(shard: string, index: nat, signal: Signal, service: string, time: int)

  const HOUR: int := 3_600_000_000_000

  /** `date=…/hour=…` of a signal. */
  datatype Partition = Partition(signal: Signal, hour: int)

  function PartitionOf(r: Row): (p: Partition) {
    Partition(r.signal, r.time / HOUR)
  }

  /** The row is of the partition's signal and lies within its hour: the hours are counted from 1970 in UTC, so that
      each of them is one `date=` and `hour=`. */
  predicate Belongs(r: Row, p: Partition) {
    r.signal == p.signal && p.hour * 3_600_000_000_000 <= r.time < (p.hour + 1) * 3_600_000_000_000
  }

  /** Each row belongs to one partition. */
  lemma BelongsIff(r: Row, p: Partition)
    ensures Belongs(r, p) <==> PartitionOf(r) == p
  {
  }

  /** Two rows go to the same partition just if they have the same signal and the same hour. */
  lemma SamePartitionIff(r: Row, r': Row)
    ensures PartitionOf(r) == PartitionOf(r') <==>
            r.signal == r'.signal && exists hour :: SameHour(r.time, r'.time, hour)
  {
    if PartitionOf(r) == PartitionOf(r') {
      assert SameHour(r.time, r'.time, PartitionOf(r).hour);
    }
    if hour :| SameHour(r.time, r'.time, hour) {
      BelongsIff(r, Partition(r.signal, hour));
      BelongsIff(r', Partition(r'.signal, hour));
    }
  }

  predicate SameHour(t: int, t': int, hour: int) {
    && hour * 3_600_000_000_000 <= t < (hour + 1) * 3_600_000_000_000
    && hour * 3_600_000_000_000 <= t' < (hour + 1) * 3_600_000_000_000
  }

  /** A raw shard as `parseShard` sees it. */
  datatype Shard = Unparseable | Parsed(rows: seq<Row>)

  predicate OwnRows(key: string, s: Shard) {
    s.Parsed? ==> forall i | 0 <= i < |s.rows| :: s.rows[i].shard == key && s.rows[i].index == i
  }

  /** A part's place in the run, and its key in the bucket. */
  datatype Slot = Slot(partition: Partition, idx: nat)
  datatype PartKey = PartKey(slot: Slot, stamp: int)

  datatype Chunk = Chunk(slot: Slot, rows: seq<Row>)
  datatype Entry = Entry(key: PartKey, rows: seq<Row>)

  // ---------- counting rows ----------

  function RowsOf(raw: map<string, Shard>, keys: seq<string>): (m: multiset<Row>)
    requires forall k | k in keys :: k in raw
  {
    if keys == [] then multiset{} else
    var n := |keys| - 1;
    RowsOf(raw, keys[..n]) + ShardRows(raw[keys[n]])
  }

  function ShardRows(s: Shard): (m: multiset<Row>) {
    if s.Parsed? then multiset(s.rows) else multiset{}
  }

  function Planned(plan: seq<Chunk>): (m: multiset<Row>) {
    if plan == [] then multiset{} else multiset(plan[0].rows) + Planned(plan[1..])
  }

  function Stored(log: seq<Entry>): (m: multiset<Row>) {
    if log == [] then multiset{} else Stored(log[..|log| - 1]) + multiset(log[|log| - 1].rows)
  }

  // ---------- the system ----------

  datatype Phase =
    | Idle
    | Writing(keys: seq<string>, pending: seq<Chunk>)
    | Marking(keys: seq<string>, todo: seq<string>)

  /** `parts` and `marks` are the bucket's.  History: `log` lists the parts as they were written, `fails` counts the
      runs that selected a shard and stopped early, `start` is when the current run began. */
  datatype Sys = Sys(
    raw: map<string, Shard>, parts: map<PartKey, seq<Row>>, marks: set<string>, phase: Phase, now: int,
    log: seq<Entry>, fails: map<string, nat>, start: int)

  datatype Action =
    | Upload(key: string, shard: Shard)
    | Begin(keys: seq<string>, plan: seq<Chunk>, time: int)
    | WritePart(time: int)
    | BeginMarks
    | WriteMarker
    | Finish
    | Stop

  /** What a run writes: the rows of its shards, each to its own partition, in slots of their own. */
  ghost predicate IsPlan(plan: seq<Chunk>, rows: multiset<Row>) {
    && Planned(plan) == rows
    && (forall i | 0 <= i < |plan| :: InPlace(plan[i].rows, plan[i].slot.partition))
    && (forall i, j | 0 <= i < j < |plan| :: plan[i].slot != plan[j].slot)
  }

  predicate InPlace(rows: seq<Row>, p: Partition) {
    forall r | r in rows :: Belongs(r, p)
  }

  ghost predicate Selectable(st: Sys, keys: seq<string>) {
    && (forall k | k in keys :: k in st.raw && k !in st.marks)
    && (forall i, j | 0 <= i < j < |keys| :: keys[i] != keys[j])
  }

  ghost predicate Enabled(st: Sys, a: Action) {
    match a
    case Upload(key, shard) => key !in st.raw && OwnRows(key, shard)
    case Begin(keys, plan, time) =>
      st.phase.Idle? && st.now < time && Selectable(st, keys) && IsPlan(plan, RowsOf(st.raw, keys))
    case WritePart(time) => st.phase.Writing? && st.phase.pending != [] && st.now <= time
    case BeginMarks => st.phase.Writing? && st.phase.pending == []
    case WriteMarker => st.phase.Marking? && st.phase.todo != []
    case Finish => st.phase.Marking? && st.phase.todo == []
    case Stop => !st.phase.Idle?
  }

  function Fails(fails: map<string, nat>, key: string): (n: nat) {
    if key in fails then fails[key] else 0
  }

  function Failed(fails: map<string, nat>, keys: seq<string>): (fails': map<string, nat>) {
    map k | k in fails.Keys + (set x | x in keys) :: if k in keys then Fails(fails, k) + 1 else fails[k]
  }

  ghost function Next(st: Sys, a: Action): (st': Sys)
    requires Enabled(st, a)
  {
    match a
    case Upload(key, shard) => st.(raw := st.raw[key := shard])
    case Begin(keys, plan, time) => st.(phase := Writing(keys, plan), now := time, start := time)
    case WritePart(time) =>
      var chunk := st.phase.pending[0];
      var key := PartKey(chunk.slot, time);
      st.(parts := st.parts[key := chunk.rows], log := st.log + [Entry(key, chunk.rows)], now := time,
          phase := Writing(st.phase.keys, st.phase.pending[1..]))
    case BeginMarks => st.(phase := Marking(st.phase.keys, st.phase.keys))
    case WriteMarker =>
      st.(marks := st.marks + {st.phase.todo[0]}, phase := Marking(st.phase.keys, st.phase.todo[1..]))
    case Finish => st.(phase := Idle)
    case Stop => st.(phase := Idle, fails := Failed(st.fails, st.phase.keys))
  }

  // ---------- the invariant ----------

  function Busy(st: Sys): (keys: seq<string>) {
    if st.phase.Idle? then [] else st.phase.keys
  }

  function Pending(st: Sys): (plan: seq<Chunk>) {
    if st.phase.Writing? then st.phase.pending else []
  }

  /** Its rows are in the bucket, or on their way there. */
  predicate Underway(st: Sys, key: string) {
    key in st.marks || key in Busy(st)
  }

  /** A row of a raw shard that can be parsed. */
  predicate FromRaw(raw: map<string, Shard>, r: Row) {
    r.shard in raw && raw[r.shard].Parsed? && r in raw[r.shard].rows
  }

  /** How often a row may and must be found. */
  ghost predicate RowOk(st: Sys, r: Row) {
    var n := Stored(st.log)[r] + Planned(Pending(st))[r];
    n <= Fails(st.fails, r.shard) + (if Underway(st, r.shard) then 1 else 0) && (Underway(st, r.shard) ==> 1 <= n)
  }

  ghost predicate Counted(st: Sys) {
    && (forall r | FromRaw(st.raw, r) :: RowOk(st, r))
    && (forall r | 0 < Stored(st.log)[r] + Planned(Pending(st))[r] :: FromRaw(st.raw, r))
  }

  predicate EntryOk(parts: map<PartKey, seq<Row>>, e: Entry, now: int) {
    && e.key in parts && parts[e.key] == e.rows && InPlace(e.rows, e.key.slot.partition) && e.key.stamp <= now
  }

  ghost predicate Logged(log: seq<Entry>, key: PartKey) {
    exists i | 0 <= i < |log| :: log[i].key == key
  }

  /** The bucket holds the parts of the log, each under a key of its own, with rows of its own partition. */
  ghost predicate BucketOk(parts: map<PartKey, seq<Row>>, log: seq<Entry>, now: int) {
    && (forall i | 0 <= i < |log| :: EntryOk(parts, log[i], now))
    && (forall i, j | 0 <= i < j < |log| :: log[i].key != log[j].key)
    && (forall key | key in parts :: Logged(log, key))
  }

  /** What is still to be written goes to its own partitions, in places not used since `start`. */
  ghost predicate PlanOk(plan: seq<Chunk>, log: seq<Entry>, start: int) {
    && (forall i | 0 <= i < |plan| :: InPlace(plan[i].rows, plan[i].slot.partition))
    && (forall i, j | 0 <= i < j < |plan| :: plan[i].slot != plan[j].slot)
    && (forall i, j | 0 <= i < |log| && 0 <= j < |plan| :: Apart(log[i], plan[j], start))
  }

  predicate Apart(e: Entry, c: Chunk, start: int) {
    start <= e.key.stamp ==> e.key.slot != c.slot
  }

  ghost predicate OnlyOf(plan: seq<Chunk>, keys: seq<string>) {
    forall r | 0 < Planned(plan)[r] :: r.shard in keys
  }

  ghost predicate RunOk(st: Sys) {
    match st.phase
    case Idle => true
    case Writing(keys, pending) => Selectable(st, keys) && OnlyOf(pending, keys)
    case Marking(keys, todo) =>
      (forall k | k in keys :: k in st.raw && (k in todo || k in st.marks)) && (forall k | k in todo :: k in keys)
  }

  ghost predicate Inv(st: Sys) {
    && (forall k | k in st.raw :: OwnRows(k, st.raw[k]))
    && st.marks <= st.raw.Keys
    && Counted(st) && BucketOk(st.parts, st.log, st.now) && PlanOk(Pending(st), st.log, st.start) && RunOk(st)
    && (!st.phase.Idle? ==> st.start <= st.now)
  }

  // ---------- what every step keeps ----------

  /** A row is among the rows of some shards, once, just if its own shard is one of them. */
  lemma {:induction false} RowsOfAt(raw: map<string, Shard>, keys: seq<string>, r: Row)
    requires forall k | k in keys :: k in raw && OwnRows(k, raw[k])
    requires forall i, j | 0 <= i < j < |keys| :: keys[i] != keys[j]
    ensures RowsOf(raw, keys)[r] == if r.shard in keys && FromRaw(raw, r) then 1 else 0
  {
    if keys != [] {
      var n := |keys| - 1;
      RowsOfAt(raw, keys[..n], r);
      ShardRowsAt(keys[n], raw[keys[n]], r);
      assert r.shard in keys <==> r.shard in keys[..n] || r.shard == keys[n];
    }
  }

  lemma ShardRowsAt(key: string, s: Shard, r: Row)
    requires OwnRows(key, s)
    ensures ShardRows(s)[r] == if s.Parsed? && r in s.rows then 1 else 0
    ensures ShardRows(s)[r] > 0 ==> r.shard == key
  {
    if s.Parsed? {
      Once(s.rows, r);
    }
  }

  lemma {:induction false} Once(rows: seq<Row>, r: Row)
    requires forall i, j | 0 <= i < j < |rows| :: rows[i] != rows[j]
    ensures multiset(rows)[r] == if r in rows then 1 else 0
  {
    if rows != [] {
      var n := |rows| - 1;
      assert rows == rows[..n] + [rows[n]];
      Once(rows[..n], r);
      assert multiset(rows) == multiset(rows[..n]) + multiset{rows[n]};
    }
  }

  /** A new shard has no rows in the bucket yet, and other rows are as they were. */
  lemma UploadRow(st: Sys, st': Sys, key: string, r: Row)
    requires key !in st.raw && key in st'.raw && st' == st.(raw := st.raw[key := st'.raw[key]])
    requires key !in st.marks && key !in Busy(st)
    requires FromRaw(st.raw, r) ==> RowOk(st, r)
    requires 0 < Stored(st.log)[r] + Planned(Pending(st))[r] ==> FromRaw(st.raw, r)
    ensures FromRaw(st'.raw, r) ==> RowOk(st', r)
    ensures FromRaw(st.raw, r) ==> FromRaw(st'.raw, r)
  {
    assert r.shard != key ==> (FromRaw(st'.raw, r) <==> FromRaw(st.raw, r));
  }

  lemma UploadCounts(st: Sys, st': Sys, key: string)
    requires Counted(st) && key !in st.raw && key in st'.raw && st' == st.(raw := st.raw[key := st'.raw[key]])
    requires key !in st.marks && key !in Busy(st)
    ensures Counted(st')
  {
    forall r
      ensures FromRaw(st'.raw, r) ==> RowOk(st', r)
      ensures FromRaw(st.raw, r) ==> FromRaw(st'.raw, r)
    {
      UploadRow(st, st', key, r);
    }
  }

  lemma UploadKeeps(st: Sys, key: string, shard: Shard)
    requires Inv(st) && Enabled(st, Upload(key, shard))
    ensures Inv(Next(st, Upload(key, shard)))
  {
    UploadCounts(st, Next(st, Upload(key, shard)), key);
  }

  lemma BeginKeeps(st: Sys, keys: seq<string>, plan: seq<Chunk>, time: int)
    requires Inv(st) && Enabled(st, Begin(keys, plan, time))
    ensures Inv(Next(st, Begin(keys, plan, time)))
  {
    forall r
      ensures Planned(plan)[r] == if r.shard in keys && FromRaw(st.raw, r) then 1 else 0
    {
      RowsOfAt(st.raw, keys, r);
    }
    BeginCounts(st, Next(st, Begin(keys, plan, time)), keys, plan);
    LaterBucket(st.parts, st.log, st.now, plan, time);
  }

  /** No part of an earlier run is as young as a run that begins now. */
  lemma LaterBucket(parts: map<PartKey, seq<Row>>, log: seq<Entry>, now: int, plan: seq<Chunk>, time: int)
    requires BucketOk(parts, log, now) && now < time
    ensures BucketOk(parts, log, time)
    ensures forall i, j | 0 <= i < |log| && 0 <= j < |plan| :: Apart(log[i], plan[j], time)
  {
  }

  lemma BeginCounts(st: Sys, st': Sys, keys: seq<string>, plan: seq<Chunk>)
    requires Counted(st) && st.phase.Idle?
    requires st' == st.(phase := Writing(keys, plan), now := st'.now, start := st'.start)
    requires forall k | k in keys :: k !in st.marks
    requires forall r :: Planned(plan)[r] == if r.shard in keys && FromRaw(st.raw, r) then 1 else 0
    ensures Counted(st') && OnlyOf(plan, keys)
  {
    forall r | FromRaw(st'.raw, r)
      ensures RowOk(st', r)
    {
      assert RowOk(st, r);
    }
  }

  lemma WritePartKeeps(st: Sys, time: int)
    requires Inv(st) && Enabled(st, WritePart(time))
    ensures Inv(Next(st, WritePart(time)))
  {
    var st' := Next(st, WritePart(time));
    BucketSnoc(st.parts, st.log, st.now, st.phase.pending, st.start, time);
    OneOver(st.log, st.phase.pending, time);
    SameCounts(st, st');
    OnlyOfTail(st.phase.pending, st.phase.keys);
  }

  /** Writing a part moves its rows from the plan to the log. */
  lemma OneOver(log: seq<Entry>, plan: seq<Chunk>, time: int)
    requires plan != []
    ensures Stored(log + [Entry(PartKey(plan[0].slot, time), plan[0].rows)]) + Planned(plan[1..]) ==
            Stored(log) + Planned(plan)
  {
  }

  lemma OnlyOfTail(plan: seq<Chunk>, keys: seq<string>)
    requires plan != [] && OnlyOf(plan, keys)
    ensures OnlyOf(plan[1..], keys)
  {
  }

  lemma SameCounts(st: Sys, st': Sys)
    requires Counted(st) && st'.raw == st.raw && st'.marks == st.marks && st'.fails == st.fails && Busy(st') == Busy(st)
    requires Stored(st'.log) + Planned(Pending(st')) == Stored(st.log) + Planned(Pending(st))
    ensures Counted(st')
  {
    forall r
      ensures RowOk(st', r) <==> RowOk(st, r)
      ensures Stored(st'.log)[r] + Planned(Pending(st'))[r] == Stored(st.log)[r] + Planned(Pending(st))[r]
    {
      SumAt(Stored(st.log), Planned(Pending(st)), r);
      SumAt(Stored(st'.log), Planned(Pending(st')), r);
    }
  }

  lemma SumAt(a: multiset<Row>, b: multiset<Row>, r: Row)
    ensures (a + b)[r] == a[r] + b[r]
  {
  }

  /** A new part: its key is new, since the clock has moved on from earlier runs and this run has not used the slot. */
  lemma BucketSnoc(parts: map<PartKey, seq<Row>>, log: seq<Entry>, now: int, plan: seq<Chunk>, start: int, time: int)
    requires BucketOk(parts, log, now) && PlanOk(plan, log, start) && plan != [] && start <= now <= time
    ensures var key := PartKey(plan[0].slot, time);
            var log' := log + [Entry(key, plan[0].rows)];
            BucketOk(parts[key := plan[0].rows], log', time) && PlanOk(plan[1..], log', start)
  {
    var key := PartKey(plan[0].slot, time);
    var e := Entry(key, plan[0].rows);
    var log', parts' := log + [e], parts[key := plan[0].rows];
    forall i | 0 <= i < |log|
      ensures log[i].key != key
    {
      assert Apart(log[i], plan[0], start);
    }
    forall i | 0 <= i < |log'|
      ensures EntryOk(parts', log'[i], time)
    {
      assert i < |log| ==> EntryOk(parts, log[i], now);
    }
    forall k | k in parts'
      ensures Logged(log', k)
    {
      LoggedSnoc(log, e, k);
    }
    forall i, j | 0 <= i < |log'| && 0 <= j < |plan[1..]|
      ensures Apart(log'[i], plan[1..][j], start)
    {
      assert i < |log| ==> Apart(log[i], plan[j + 1], start);
    }
  }

  lemma LoggedSnoc(log: seq<Entry>, e: Entry, k: PartKey)
    requires Logged(log, k) || k == e.key
    ensures Logged(log + [e], k)
  {
    var log' := log + [e];
    if k == e.key {
      assert log'[|log|].key == k;
    } else {
      var i :| 0 <= i < |log| && log[i].key == k;
      assert log'[i].key == k;
    }
  }

  lemma StopKeeps(st: Sys)
    requires Inv(st) && Enabled(st, Stop)
    ensures Inv(Next(st, Stop))
  {
    var st' := Next(st, Stop);
    forall r
      ensures FromRaw(st'.raw, r) ==> RowOk(st', r)
      ensures 0 < Stored(st'.log)[r] + Planned(Pending(st'))[r] ==> FromRaw(st'.raw, r)
    {
      if FromRaw(st.raw, r) {
        assert RowOk(st, r);
        StopRow(st, r);
      }
    }
  }

  /** What was still to be written is not, and the shard has failed once more. */
  lemma StopRow(st: Sys, r: Row)
    requires Enabled(st, Stop) && RunOk(st) && RowOk(st, r)
    ensures RowOk(Next(st, Stop), r)
  {
  }

  /** Marking only names shards whose rows are all in the bucket. */
  lemma MarkCounts(st: Sys, a: Action)
    requires Counted(st) && RunOk(st) && Enabled(st, a) && (a.BeginMarks? || a.WriteMarker? || a.Finish?)
    ensures Counted(Next(st, a))
  {
    var st' := Next(st, a);
    forall r
      ensures RowOk(st, r) ==> RowOk(st', r)
    {
      assert Underway(st', r.shard) <==> Underway(st, r.shard);
    }
  }

  lemma MarkKeeps(st: Sys, a: Action)
    requires Inv(st) && Enabled(st, a) && (a.BeginMarks? || a.WriteMarker? || a.Finish?)
    ensures Inv(Next(st, a))
  {
    MarkCounts(st, a);
  }

  lemma StepKeeps(st: Sys, a: Action)
    requires Inv(st) && Enabled(st, a)
    ensures Inv(Next(st, a))
  {
    match a
    case Upload(key, shard) => UploadKeeps(st, key, shard);
    case Begin(keys, plan, time) => BeginKeeps(st, keys, plan, time);
    case WritePart(time) => WritePartKeeps(st, time);
    case BeginMarks => MarkKeeps(st, a);
    case WriteMarker => MarkKeeps(st, a);
    case Finish => MarkKeeps(st, a);
    case Stop => StopKeeps(st);
  }

  // ---------- all runs ----------

  function Initial(now: int): (st: Sys) {
    Sys(map[], map[], {}, Idle, now, [], map[], now)
  }

  ghost predicate IsRun(st: Sys, run: seq<Action>)
    decreases |run|
  {
    run == [] || (Enabled(st, run[0]) && IsRun(Next(st, run[0]), run[1..]))
  }

  ghost function RunTo(st: Sys, run: seq<Action>): (st': Sys)
    requires IsRun(st, run)
    decreases |run|
  {
    if run == [] then st else RunTo(Next(st, run[0]), run[1..])
  }

  lemma {:induction false} RunKeeps(st: Sys, run: seq<Action>)
    requires Inv(st) && IsRun(st, run)
    ensures Inv(RunTo(st, run))
    decreases |run|
  {
    if run != [] {
      StepKeeps(st, run[0]);
      RunKeeps(Next(st, run[0]), run[1..]);
    }
  }

  /** A part in the bucket that holds the row. */
  ghost predicate HasPart(st: Sys, r: Row) {
    exists key | key in st.parts && Belongs(r, key.slot.partition) :: r in st.parts[key]
  }

  lemma {:induction false} StoredHasPart(parts: map<PartKey, seq<Row>>, log: seq<Entry>, now: int, r: Row)
    requires (forall i | 0 <= i < |log| :: EntryOk(parts, log[i], now)) && 0 < Stored(log)[r]
    ensures exists key | key in parts && Belongs(r, key.slot.partition) :: r in parts[key]
  {
    var n := |log| - 1;
    if r in log[n].rows {
      assert EntryOk(parts, log[n], now);
      assert log[n].key in parts && r in parts[log[n].key];
    } else {
      StoredHasPart(parts, log[..n], now, r);
    }
  }

  /** The law of the compactor, over every sequence of runs that may stop anywhere: each row of a marked shard that can
      be parsed is in a part of its own hour partition, and no row is found more often than once and once more for
      each run that selected its shard and stopped early. */
  lemma CompactedOnce(now: int, run: seq<Action>, r: Row)
    requires IsRun(Initial(now), run) && FromRaw(RunTo(Initial(now), run).raw, r)
    ensures var st := RunTo(Initial(now), run);
            && (r.shard in st.marks ==> HasPart(st, r))
            && Stored(st.log)[r] <= 1 + Fails(st.fails, r.shard)
            && (r.shard !in st.marks && st.phase.Idle? ==> Stored(st.log)[r] <= Fails(st.fails, r.shard))
            && BucketOk(st.parts, st.log, st.now)
  {
    RunKeeps(Initial(now), run);
    var st := RunTo(Initial(now), run);
    assert RowOk(st, r);
    if r.shard in st.marks {
      StoredHasPart(st.parts, st.log, st.now, r);
    }
  }
}
