/** Local shards, the archive and the retention cleanup (writer.go, archive.go).

    Shards are rotated, uploaded by background tasks that retry, and removed from disk once the archive is seen to
    hold them; the process may die at any moment and starts over with an empty cache.  `Next` takes the tasks and
    the cleanup apart into the steps between which the others can act. */
module Retention {
  import opened Prelude

  type Bytes = seq<nat>

  // ---------- the archive bucket ----------

  /** The remote objects and the sizes remembered for them. */
  datatype Remote = Remote(objects: map<string, Bytes>, cache: map<string, nat>)

  /** `checkUploaded`: from the cache, or else from the object's attributes, which are then remembered.  `reachable`
      says whether the bucket answers. */
  function Check(r: Remote, name: string, size: nat, reachable: bool): (res: (Remote, Option<bool>)) {
    if name in r.cache then (r, Some(r.cache[name] == size))
    else if !reachable || name !in r.objects then (r, None)
    else (r.(cache := r.cache[name := |r.objects[name]|]), Some(|r.objects[name]| == size))
  }

  /** Every remembered size is the size of the archived object. */
  ghost predicate CacheTrue(r: Remote) {
    forall name | name in r.cache :: name in r.objects && r.cache[name] == |r.objects[name]|
  }

  // ---------- the system ----------

  /** An upload task: waiting or backing off; about to read; about to write; written, about to remember the size. */
  datatype Task =
    | Queued(name: string, retry: bool)
    | Reading(name: string, size: nat)
    | Sending(name: string, size: nat, data: Bytes)
    | Noting(name: string, size: nat)

  /** The cleanup walks with the open shard's name as it was when it began; `doomed` has been checked. */
  datatype Cleanup = Off | Walking(current: string) | Removing(current: string, doomed: string)

  /** `final` is history: what each closed shard contained when it was closed. */
  datatype Sys = Sys(
    local: map<string, Bytes>, open: string, remote: Remote, tasks: map<nat, Task>, cleanup: Cleanup,
    final: map<string, Bytes>)

  datatype Action =
    | Write(data: Bytes)
    | Rotate(name: string, header: Bytes, task: nat)
    | TaskCheck(task: nat, reachable: bool)
    | TaskRead(task: nat)
    | TaskSend(task: nat, arrives: bool, reported: bool)
    | TaskNote(task: nat)
    | BeginCleanup
    | Visit(name: string, expired: bool, reachable: bool)
    | Remove
    | EndCleanup
    | Restart(name: string, header: Bytes, kept: nat, tasks: map<nat, Task>)

  /** A name no shard has had: shards are named by the clock. */
  predicate FreshName(st: Sys, name: string) {
    name != st.open && name !in st.local && name !in st.final && name !in st.remote.objects
  }

  ghost predicate Enabled(st: Sys, a: Action) {
    match a
    case Write(_) => st.open in st.local
    case Rotate(name, _, task) => st.open in st.local && FreshName(st, name) && task !in st.tasks
    case TaskCheck(task, _) => task in st.tasks && st.tasks[task].Queued?
    case TaskRead(task) => task in st.tasks && st.tasks[task].Reading?
    case TaskSend(task, _, _) => task in st.tasks && st.tasks[task].Sending?
    case TaskNote(task) => task in st.tasks && st.tasks[task].Noting?
    case BeginCleanup => st.cleanup.Off?
    case Visit(name, _, _) => st.cleanup.Walking? && name in st.local
    case Remove => st.cleanup.Removing?
    case EndCleanup => st.cleanup.Walking?
    case Restart(name, _, kept, tasks) =>
      && st.open in st.local && FreshName(st, name) && kept <= |st.local[st.open]|
      && CatchUp(st.local[st.open := st.local[st.open][..kept]], tasks)
  }

  /** `Upload` up to reading the file. */
  function Checked(st: Sys, task: nat, reachable: bool): (st': Sys)
    requires task in st.tasks && st.tasks[task].Queued?
  {
    var name := st.tasks[task].name;
    if name !in st.local then (if st.tasks[task].retry then st else st.(tasks := st.tasks - {task})) else
    var size := |st.local[name]|;
    var (remote, answer) := Check(st.remote, name, size, reachable);
    if answer == Some(true) then st.(remote := remote, tasks := st.tasks - {task})
    else st.(remote := remote, tasks := st.tasks[task := Reading(name, size)])
  }

  /** The cleanup looks at one file. */
  function Visited(st: Sys, name: string, expired: bool, reachable: bool): (st': Sys)
    requires st.cleanup.Walking? && name in st.local
  {
    if name == st.cleanup.current || !expired then st else
    var (remote, answer) := Check(st.remote, name, |st.local[name]|, reachable);
    if answer == Some(true) then st.(remote := remote, cleanup := Removing(st.cleanup.current, name))
    else st.(remote := remote)
  }

  /** An upload may take effect and still be reported as failed. */
  function SentOff(st: Sys, task: nat, arrives: bool, reported: bool): (st': Sys)
    requires task in st.tasks && st.tasks[task].Sending?
  {
    var t := st.tasks[task];
    var objects := if arrives then st.remote.objects[t.name := t.data] else st.remote.objects;
    st.(remote := st.remote.(objects := objects),
        tasks := st.tasks[task := if arrives && reported then Noting(t.name, t.size) else Queued(t.name, true)])
  }

  /** Startup: a new open shard, an empty cache, and an upload for every shard found on disk. */
  ghost predicate CatchUp(local: map<string, Bytes>, tasks: map<nat, Task>) {
    && (forall i | i in tasks :: tasks[i].Queued? && tasks[i].name in local)
    && (forall name | name in local :: exists i :: i in tasks && tasks[i] == Queued(name, false))
  }

  ghost function Next(st: Sys, a: Action): (st': Sys)
    requires Enabled(st, a)
  {
    match a
    case Write(data) => st.(local := st.local[st.open := st.local[st.open] + data])
    case Rotate(name, header, task) =>
      st.(final := st.final[st.open := st.local[st.open]], open := name, local := st.local[name := header],
          tasks := st.tasks[task := Queued(st.open, false)])
    case TaskCheck(task, reachable) => Checked(st, task, reachable)
    case TaskRead(task) =>
      var t := st.tasks[task];
      st.(tasks := st.tasks[task := if t.name in st.local then Sending(t.name, t.size, st.local[t.name])
                                    else Queued(t.name, true)])
    case TaskSend(task, arrives, reported) => SentOff(st, task, arrives, reported)
    case TaskNote(task) =>
      var t := st.tasks[task];
      st.(remote := st.remote.(cache := st.remote.cache[t.name := t.size]), tasks := st.tasks - {task})
    case BeginCleanup => st.(cleanup := Walking(st.open))
    case Visit(name, expired, reachable) => Visited(st, name, expired, reachable)
    case Remove =>
      st.(local := st.local - {st.cleanup.doomed}, cleanup := Walking(st.cleanup.current))
    case EndCleanup => st.(cleanup := Off)
    case Restart(name, header, kept, tasks) =>
      var bytes := st.local[st.open][..kept];
      Sys(st.local[st.open := bytes][name := header], name, Remote(st.remote.objects, map[]), tasks, Off,
          st.final[st.open := bytes])
  }

  // ---------- the invariant ----------

  predicate TaskOk(st: Sys, t: Task) {
    && t.name in st.final
    && (!t.Queued? ==> t.size == |st.final[t.name]|)
    && (t.Sending? ==> t.data == st.final[t.name])
    && (t.Noting? ==> t.name in st.remote.objects)
  }

  /** What the archive has of a shard is all of it. */
  ghost predicate ArchiveOk(st: Sys) {
    forall n | n in st.remote.objects :: n in st.final && st.remote.objects[n] == st.final[n]
  }

  ghost predicate LocalOk(st: Sys) {
    && st.open in st.local && st.open !in st.final
    && (forall n | n in st.local && n != st.open :: n in st.final && st.local[n] == st.final[n])
  }

  /** A closed shard is on disk or in the archive. */
  ghost predicate Kept(st: Sys, n: string)
    requires n in st.final
  {
    || (n in st.local && st.local[n] == st.final[n])
    || (n in st.remote.objects && st.remote.objects[n] == st.final[n])
  }

  ghost predicate Inv(st: Sys) {
    && ArchiveOk(st) && LocalOk(st) && CacheTrue(st.remote)
    && (forall n | n in st.final :: Kept(st, n))
    && (forall i | i in st.tasks :: TaskOk(st, st.tasks[i]))
    && (st.cleanup.Removing? ==> st.cleanup.doomed in st.remote.objects)
  }

  lemma CheckEffect(r: Remote, name: string, size: nat, reachable: bool)
    requires CacheTrue(r)
    ensures var (r', answer) := Check(r, name, size, reachable);
            && r'.objects == r.objects && CacheTrue(r')
            && (answer == Some(true) ==> name in r.objects && |r.objects[name]| == size)
  {
  }

  lemma TaskStepKeeps(st: Sys, a: Action)
    requires Inv(st) && Enabled(st, a) && (a.TaskCheck? || a.TaskRead? || a.TaskSend? || a.TaskNote?)
    ensures Inv(Next(st, a))
  {
    var st' := Next(st, a);
    assert TaskOk(st, st.tasks[a.task]);
    if a.TaskCheck? && st.tasks[a.task].name in st.local {
      CheckEffect(st.remote, st.tasks[a.task].name, |st.local[st.tasks[a.task].name]|, a.reachable);
    }
    forall i | i in st'.tasks
      ensures TaskOk(st', st'.tasks[i])
    {
      assert TaskOk(st, st.tasks[i]);
    }
    forall n | n in st'.final
      ensures Kept(st', n)
    {
      assert Kept(st, n);
    }
  }

  lemma CleanupStepKeeps(st: Sys, a: Action)
    requires Inv(st) && Enabled(st, a) && (a.BeginCleanup? || a.Visit? || a.Remove? || a.EndCleanup?)
    ensures Inv(Next(st, a))
  {
    var st' := Next(st, a);
    if a.Visit? {
      CheckEffect(st.remote, a.name, |st.local[a.name]|, a.reachable);
    }
    forall i | i in st'.tasks
      ensures TaskOk(st', st'.tasks[i])
    {
      assert TaskOk(st, st.tasks[i]);
    }
    forall n | n in st'.final
      ensures Kept(st', n)
    {
      assert Kept(st, n);
    }
  }

  lemma WriterStepKeeps(st: Sys, a: Action)
    requires Inv(st) && Enabled(st, a) && (a.Write? || a.Rotate? || a.Restart?)
    ensures Inv(Next(st, a))
  {
    var st' := Next(st, a);
    forall i | i in st'.tasks
      ensures TaskOk(st', st'.tasks[i])
    {
      if i in st.tasks {
        assert TaskOk(st, st.tasks[i]);
      }
    }
    forall n | n in st'.final
      ensures Kept(st', n)
    {
      if n in st.final {
        assert Kept(st, n);
      }
    }
  }

  lemma StepKeeps(st: Sys, a: Action)
    requires Inv(st) && Enabled(st, a)
    ensures Inv(Next(st, a))
  {
    if a.TaskCheck? || a.TaskRead? || a.TaskSend? || a.TaskNote? {
      TaskStepKeeps(st, a);
    } else if a.BeginCleanup? || a.Visit? || a.Remove? || a.EndCleanup? {
      CleanupStepKeeps(st, a);
    } else {
      WriterStepKeeps(st, a);
    }
  }

  // ---------- all runs ----------

  function Initial(name: string, header: Bytes): (st: Sys) {
    Sys(map[name := header], name, Remote(map[], map[]), map[], Off, map[])
  }

  ghost predicate IsRun(st: Sys, run: seq<Action>)
    decreases |run|
  {
    run == [] || (Enabled(st, run[0]) && IsRun(Next(st, run[0]), run[1..]))
  }

  ghost function RunTo(st: Sys, run: seq<Action>): (st': Sys)
    requires IsRun(st, run)
    decreases |run|
  {
    if run == [] then st else RunTo(Next(st, run[0]), run[1..])
  }

  lemma {:induction false} RunKeeps(st: Sys, run: seq<Action>)
    requires Inv(st) && IsRun(st, run)
    ensures Inv(RunTo(st, run))
    decreases |run|
  {
    if run != [] {
      StepKeeps(st, run[0]);
      RunKeeps(Next(st, run[0]), run[1..]);
    }
  }

  /** No shard is ever lost: in every reachable state a closed shard is on disk or in the archive, byte for byte; the
      open shard is on disk and not in the archive, whatever name the cleanup took it to have; what is about to be
      removed is archived and not the open shard; and remembered sizes are true. */
  lemma NothingLost(name: string, header: Bytes, run: seq<Action>)
    requires IsRun(Initial(name, header), run)
    ensures var st := RunTo(Initial(name, header), run);
            && (forall n | n in st.final :: Kept(st, n))
            && st.open in st.local && st.open !in st.remote.objects
            && (st.cleanup.Removing? ==>
                  && st.cleanup.doomed != st.open && st.cleanup.doomed in st.final
                  && st.cleanup.doomed in st.remote.objects
                  && st.remote.objects[st.cleanup.doomed] == st.final[st.cleanup.doomed])
            && CacheTrue(st.remote)
  {
    RunKeeps(Initial(name, header), run);
  }

  /** Once a shard is closed its bytes never change, and once archived they stay archived. */
  lemma StepMonotone(st: Sys, a: Action)
    requires Inv(st) && Enabled(st, a)
    ensures forall n | n in st.final :: n in Next(st, a).final && Next(st, a).final[n] == st.final[n]
    ensures forall n | n in st.remote.objects ::
              n in Next(st, a).remote.objects && Next(st, a).remote.objects[n] == st.remote.objects[n]
  {
    if a.TaskSend? {
      assert TaskOk(st, st.tasks[a.task]);
    } else if a.TaskCheck? && st.tasks[a.task].name in st.local {
      CheckEffect(st.remote, st.tasks[a.task].name, |st.local[st.tasks[a.task].name]|, a.reachable);
    } else if a.Visit? {
      CheckEffect(st.remote, a.name, |st.local[a.name]|, a.reachable);
    }
  }

  // ---------- no shard is forgotten ----------

  ghost predicate HasTask(tasks: map<nat, Task>, n: string) {
    exists i :: i in tasks && tasks[i].name == n
  }

  ghost predicate Owed(st: Sys, n: string) {
    n in st.remote.objects || HasTask(st.tasks, n)
  }

  /** A closed shard that is not archived has an upload task. */
  ghost predicate NoneForgotten(st: Sys) {
    forall n | n in st.final :: Owed(st, n)
  }

  /** A step of one task leaves the others, and its own shard has a task still or is archived. */
  lemma TaskStepOwes(st: Sys, a: Action)
    requires Inv(st) && NoneForgotten(st) && Enabled(st, a)
    requires a.TaskCheck? || a.TaskRead? || a.TaskSend? || a.TaskNote?
    ensures NoneForgotten(Next(st, a))
  {
    var st' := Next(st, a);
    assert TaskOk(st, st.tasks[a.task]);
    assert Kept(st, st.tasks[a.task].name);
    if a.TaskCheck? && st.tasks[a.task].name in st.local {
      CheckEffect(st.remote, st.tasks[a.task].name, |st.local[st.tasks[a.task].name]|, a.reachable);
    }
    forall n | n in st'.final
      ensures Owed(st', n)
    {
      assert Owed(st, n);
      if n !in st.remote.objects {
        var i :| i in st.tasks && st.tasks[i].name == n;
        if i != a.task {
          assert i in st'.tasks && st'.tasks[i] == st.tasks[i];
        } else if n !in st'.remote.objects {
          assert i in st'.tasks && st'.tasks[i].name == n;
        }
      }
    }
  }

  lemma WriterStepOwes(st: Sys, a: Action)
    requires Inv(st) && Enabled(st, a) && (a.Write? || a.Rotate? || a.Restart?) && NoneForgotten(st)
    ensures NoneForgotten(Next(st, a))
  {
    var st' := Next(st, a);
    forall n | n in st'.final
      ensures Owed(st', n)
    {
      if n in st.final {
        assert Owed(st, n) && Kept(st, n);
      }
      if a.Rotate? {
        assert st'.tasks[a.task].name == st.open;
        if n in st.final && n !in st.remote.objects {
          var i :| i in st.tasks && st.tasks[i].name == n;
          assert st'.tasks[i].name == n;
        }
      } else if a.Restart? && n !in st.remote.objects {
        var i :| i in a.tasks && a.tasks[i] == Queued(n, false);
        assert st'.tasks[i].name == n;
      }
    }
  }

  lemma CleanupStepOwes(st: Sys, a: Action)
    requires Inv(st) && NoneForgotten(st) && Enabled(st, a)
    requires a.BeginCleanup? || a.Visit? || a.Remove? || a.EndCleanup?
    ensures NoneForgotten(Next(st, a))
  {
    if a.Visit? {
      CheckEffect(st.remote, a.name, |st.local[a.name]|, a.reachable);
    }
    forall n | n in st.final
      ensures Owed(Next(st, a), n)
    {
      assert Owed(st, n);
    }
  }

  lemma {:induction false} RunOwes(st: Sys, run: seq<Action>)
    requires Inv(st) && IsRun(st, run) && NoneForgotten(st)
    ensures NoneForgotten(RunTo(st, run))
    decreases |run|
  {
    if run != [] {
      var a := run[0];
      StepKeeps(st, a);
      if a.TaskCheck? || a.TaskRead? || a.TaskSend? || a.TaskNote? {
        TaskStepOwes(st, a);
      } else if a.BeginCleanup? || a.Visit? || a.Remove? || a.EndCleanup? {
        CleanupStepOwes(st, a);
      } else {
        WriterStepOwes(st, a);
      }
      RunOwes(Next(st, a), run[1..]);
    }
  }

  /** In every reachable state, after any failures and restarts, a closed shard is archived or an upload task for it is
      there. */
  lemma EveryShardUploads(name: string, header: Bytes, run: seq<Action>, n: string)
    requires IsRun(Initial(name, header), run) && n in RunTo(Initial(name, header), run).final
    ensures var st := RunTo(Initial(name, header), run);
            n in st.remote.objects || exists i :: i in st.tasks && st.tasks[i].name == n
  {
    RunOwes(Initial(name, header), run);
    assert Owed(RunTo(Initial(name, header), run), n);
  }

  lemma RunCons(st: Sys, a: Action, run: seq<Action>)
    requires Enabled(st, a) && IsRun(Next(st, a), run)
    ensures IsRun(st, [a] + run) && RunTo(st, [a] + run) == RunTo(Next(st, a), run)
  {
    assert ([a] + run)[1..] == run;
  }

  /** What a task does when nothing goes wrong. */
  function Uploading(st: Sys, i: nat): (run: seq<Action>)
    requires i in st.tasks && st.tasks[i].name in st.local
  {
    var name := st.tasks[i].name;
    if name in st.remote.objects && |st.remote.objects[name]| == |st.local[name]| then [TaskCheck(i, true)] + []
    else [TaskCheck(i, true)] + ([TaskRead(i)] + ([TaskSend(i, true, true)] + ([TaskNote(i)] + [])))
  }

  /** And then it is done: the shard is archived byte for byte, and nothing else has changed but the cache. */
  lemma UploadCompletes(st: Sys, i: nat)
    requires Inv(st) && i in st.tasks && st.tasks[i].Queued? && st.tasks[i].name in st.local
    ensures IsRun(st, Uploading(st, i))
    ensures var st', name := RunTo(st, Uploading(st, i)), st.tasks[i].name;
            && st'.tasks == st.tasks - {i} && st'.local == st.local && st'.final == st.final && st'.open == st.open
            && st'.cleanup == st.cleanup && st'.remote.objects == st.remote.objects[name := st.local[name]]
            && name in st'.remote.cache && st'.remote.cache[name] == |st.local[name]|
  {
    var name := st.tasks[i].name;
    assert TaskOk(st, st.tasks[i]);
    var st1 := Next(st, TaskCheck(i, true));
    if name in st.remote.objects && |st.remote.objects[name]| == |st.local[name]| {
      RunCons(st, TaskCheck(i, true), []);
      assert st.remote.objects[name := st.local[name]] == st.remote.objects;
    } else {
      var st2 := Next(st1, TaskRead(i));
      var st3 := Next(st2, TaskSend(i, true, true));
      RunCons(st3, TaskNote(i), []);
      RunCons(st2, TaskSend(i, true, true), [TaskNote(i)] + []);
      RunCons(st1, TaskRead(i), [TaskSend(i, true, true)] + ([TaskNote(i)] + []));
      RunCons(st, TaskCheck(i, true), [TaskRead(i)] + ([TaskSend(i, true, true)] + ([TaskNote(i)] + [])));
    }
  }

  /** The cleanup decides to remove a shard if and only if it is not the one it takes to be open, has expired, and is
      archived, as far as the cache or the bucket tells. */
  lemma VisitDooms(st: Sys, name: string, expired: bool, reachable: bool)
    requires Inv(st) && Enabled(st, Visit(name, expired, reachable))
    ensures var st' := Next(st, Visit(name, expired, reachable));
            && (st'.cleanup == Removing(st.cleanup.current, name) <==>
                && name != st.cleanup.current && expired && (name in st.remote.cache || reachable)
                && name in st.remote.objects && |st.remote.objects[name]| == |st.local[name]|)
            && (st'.cleanup.Removing? || st'.cleanup == st.cleanup)
            && st'.local == st.local && st'.tasks == st.tasks
  {
  }

  /** And then removes it, and it alone. */
  lemma RemoveRemoves(st: Sys)
    requires Enabled(st, Remove)
    ensures var st' := Next(st, Remove);
            && (forall n :: n in st'.local <==> n in st.local && n != st.cleanup.doomed)
            && (forall n | n in st'.local :: st'.local[n] == st.local[n])
            && st'.cleanup == Walking(st.cleanup.current) && st'.tasks == st.tasks && st'.remote == st.remote
  {
  }

  /** Writes append to the open shard, and leave everything else alone. */
  lemma {:induction false} WritesAppend(st: Sys, datas: seq<Bytes>)
    requires st.open in st.local
    ensures IsRun(st, Writes(datas))
    ensures RunTo(st, Writes(datas)) == st.(local := st.local[st.open := st.local[st.open] + Joined(datas)])
    decreases |datas|
  {
    if datas == [] {
      assert st.local[st.open] + Joined(datas) == st.local[st.open];
      assert st.local[st.open := st.local[st.open]] == st.local;
    } else {
      var st1 := Next(st, Write(datas[0]));
      WritesAppend(st1, datas[1..]);
      RunCons(st, Write(datas[0]), Writes(datas[1..]));
      var all := (st.local[st.open] + datas[0]) + Joined(datas[1..]);
      assert all == st.local[st.open] + Joined(datas);
      assert st1.local[st.open := all] == st.local[st.open := all];
    }
  }

  /** A rotation closes the open shard as it is, opens the new one and asks for the upload of the old one. */
  lemma RotateCloses(st: Sys, name: string, header: Bytes, task: nat)
    requires Enabled(st, Rotate(name, header, task))
    ensures var st' := Next(st, Rotate(name, header, task));
            && (forall n :: n in st'.final <==> n in st.final || n == st.open)
            && st'.final[st.open] == st.local[st.open] && st'.open == name
            && name in st'.local && st'.local[name] == header && (forall n | n in st.local :: n in st'.local)
            && task in st'.tasks && st'.tasks[task].Queued? && st'.tasks[task].name == st.open
  {
  }

  function Writes(datas: seq<Bytes>): (run: seq<Action>) {
    if datas == [] then [] else [Write(datas[0])] + Writes(datas[1..])
  }

  function Joined(datas: seq<Bytes>): (b: Bytes) {
    if datas == [] then [] else datas[0] + Joined(datas[1..])
  }

  // ---------- the objects ----------

  class ArchiveBucket {
    var objects: map<string, Bytes>
    var cache: map<string, nat>

    ghost function State(): (r: Remote)
      reads this
    {
      Remote(objects, cache)
    }

    constructor (objects: map<string, Bytes>)
      ensures State() == Remote(objects, map[]) && CacheTrue(State())
    {
      this.objects, cache := objects, map[];
    }

    method CheckUploaded(name: string, expected: nat, reachable: bool) returns (uploaded: Option<bool>)
      requires CacheTrue(State())
      modifies this`cache
      ensures CacheTrue(State()) && (State(), uploaded) == Check(old(State()), name, expected, reachable)
      ensures uploaded.Some? <==> name in old(cache) || (reachable && name in objects)
      ensures uploaded.Some? ==> name in objects && uploaded.value == (|objects[name]| == expected)
      ensures cache == if uploaded.Some? then old(cache)[name := |objects[name]|] else old(cache)
    {
      if name in cache {
        return Some(cache[name] == expected);
      }
      if !reachable || name !in objects {
        return None;
      }
      cache := cache[name := |objects[name]|];
      return Some(|objects[name]| == expected);
    }

    /** `file` is the local file, if it is there.  When `Upload` reports success the archive has an object of the file's
        size: the file itself, unless one of that size was there already.  Remembered sizes stay true unless an upload
        that is reported as failed has replaced an object of another size whose size is remembered. */
    method Upload(name: string, file: Option<Bytes>, reachable: bool, arrives: bool, reported: bool) returns (ok: bool)
      requires CacheTrue(State())
      modifies this
      ensures ok ==> file.Some? && name in objects && |objects[name]| == |file.value|
      ensures ok && !(name in old(objects) && |old(objects)[name]| == |file.value|) ==> objects[name] == file.value
      ensures objects == old(objects) || (file.Some? && objects == old(objects)[name := file.value])
      ensures CacheTrue(State()) <==>
              !(&& file.Some? && arrives && !reported && name in old(objects) && (name in old(cache) || reachable)
                && |old(objects)[name]| != |file.value|)
    {
      if file.None? {
        return false;
      }
      var uploaded := CheckUploaded(name, |file.value|, reachable);
      if uploaded == Some(true) {
        return true;
      }
      if arrives {
        objects := objects[name := file.value];
      }
      if !arrives || !reported {
        return false;
      }
      cache := cache[name := |file.value|];
      return true;
    }

    method IsUploaded(name: string, file: Option<Bytes>, reachable: bool) returns (uploaded: Option<bool>)
      requires CacheTrue(State())
      modifies this`cache
      ensures CacheTrue(State())
      ensures uploaded.Some? <==> file.Some? && (name in old(cache) || (reachable && name in objects))
      ensures uploaded.Some? ==> name in objects && uploaded.value == (|objects[name]| == |file.value|)
      ensures file.Some? ==> (State(), uploaded) == Check(old(State()), name, |file.value|, reachable)
    {
      if file.None? {
        return None;
      }
      uploaded := CheckUploaded(name, |file.value|, reachable);
    }
  }

  class LocalStore {
    var local: map<string, Bytes>
    const archive: ArchiveBucket

    constructor (local: map<string, Bytes>, archive: ArchiveBucket)
      ensures this.local == local && this.archive == archive
    {
      this.local, this.archive := local, archive;
    }

    /** One pass of the loop: the shard `n`. */
    method CleanUp(n: string, current: string, expired: bool, reachable: bool)
      requires CacheTrue(archive.State()) && n in local
      modifies this`local, archive`cache
      ensures CacheTrue(archive.State()) && forall x | x != n :: SameSize(archive.State(), old(archive.State()), x)
      ensures local == if Goes(old(archive.State()), n, |old(local)[n]|, current, expired, reachable)
                       then old(local) - {n} else old(local)
    {
      if n == current || !expired {
        return;
      }
      var uploaded := archive.IsUploaded(n, Some(local[n]), reachable);
      if uploaded == Some(true) {
        local := local - {n};
      }
    }

    /** `runRetentionCleanup`: exactly those shards go that are not the current one, have expired, and are seen to be in
        the archive with the right size. */
    method RunRetentionCleanup(current: string, expired: string -> bool, reachable: string -> bool)
      requires CacheTrue(archive.State())
      modifies this`local, archive`cache
      ensures CacheTrue(archive.State())
      ensures local.Keys <= old(local).Keys && forall n | n in local :: local[n] == old(local[n])
      ensures forall n | n in old(local) ::
                n !in local <==> && n != current && expired(n) && (n in old(archive.cache) || reachable(n))
                                 && n in archive.objects && |archive.objects[n]| == |old(local[n])|
    {
      var todo := local.Keys;
      while todo != {}
        invariant CacheTrue(archive.State()) && SameMemory(archive.State(), old(archive.State()), todo)
        invariant todo <= local.Keys <= old(local).Keys && forall n | n in local :: local[n] == old(local[n])
        invariant forall n | n in old(local) && n !in todo ::
                    n !in local <==> Goes(old(archive.State()), n, |old(local[n])|, current, expired(n), reachable(n))
        decreases |todo|
      {
        var n :| n in todo;
        SameCheck(archive.State(), old(archive.State()), todo, n, |local[n]|, reachable(n));
        ghost var before := archive.State();
        CleanUp(n, current, expired(n), reachable(n));
        SameMemoryNext(archive.State(), before, old(archive.State()), todo, n);
        todo := todo - {n};
      }
      forall n | n in old(local)
        ensures n !in local <==> && n != current && expired(n) && (n in old(archive.cache) || reachable(n))
                                 && n in archive.objects && |archive.objects[n]| == |old(local[n])|
      {
        GoesIff(old(archive.State()), n, |old(local[n])|, current, expired(n), reachable(n));
      }
    }
  }

  ghost predicate Goes(r: Remote, n: string, size: nat, current: string, expired: bool, reachable: bool) {
    n != current && expired && Check(r, n, size, reachable).1 == Some(true)
  }

  lemma GoesIff(r: Remote, n: string, size: nat, current: string, expired: bool, reachable: bool)
    requires CacheTrue(r)
    ensures Goes(r, n, size, current, expired, reachable) <==>
            && n != current && expired && (n in r.cache || reachable)
            && n in r.objects && |r.objects[n]| == size
  {
  }

  /** The same archive, and the same sizes remembered for `names`. */
  ghost predicate SameMemory(a: Remote, b: Remote, names: set<string>) {
    a.objects == b.objects && forall n | n in names :: SameSize(a, b, n)
  }

  ghost predicate SameSize(a: Remote, b: Remote, n: string) {
    (n in a.cache <==> n in b.cache) && (n in a.cache ==> a.cache[n] == b.cache[n])
  }

  lemma SameMemoryNext(a: Remote, b: Remote, c: Remote, names: set<string>, n: string)
    requires SameMemory(b, c, names) && a.objects == b.objects && forall x | x != n :: SameSize(a, b, x)
    ensures SameMemory(a, c, names - {n})
  {
    forall x | x in names - {n}
      ensures SameSize(a, c, x)
    {
      assert SameSize(a, b, x) && SameSize(b, c, x);
    }
  }

  lemma SameCheck(a: Remote, b: Remote, names: set<string>, n: string, size: nat, reachable: bool)
    requires SameMemory(a, b, names) && n in names
    ensures Check(a, n, size, reachable).1 == Check(b, n, size, reachable).1
  {
    assert SameSize(a, b, n);
  }
}
