/** The agent's OBI config (bridge.go): mutators change the tracked pods and PIDs under a lock and then post a dirty
    token; the coalescer takes tokens, waits for a quiet period, renders the tracked state and writes the file.
    `Next` takes these apart into the steps that can interleave. */
module Reload {
  import opened MapRange
  import opened Labels
  import opened Text

  datatype PodSpec = PodSpec(podName: string, namespace: string, httpPorts: seq<nat>)

  /** What the config is rendered from. */
  datatype Tracked = Tracked(pods: map<string, PodSpec>, pids: set<nat>)

  /** An entry of the discovery section. */
  datatype Instrument = Instrument(
    name: string, targetPids: seq<nat>, k8sPodName: string, k8sNamespace: string, openPorts: string)

  type File = seq<Instrument>

  function ShortUid(uid: string): (s: string) {
    if |uid| <= 12 then uid else uid[..12]
  }

  function Digit(d: nat): (c: char)
    requires d < 10
  {
    "0123456789"[d]
  }

  /** `strconv.FormatUint` and `%d`. */
  function Decimal(n: nat): (s: string) {
    if n < 10 then [Digit(n)] else Decimal(n / 10) + [Digit(n % 10)]
  }

  /** `portsFromPodSpec`: a comma-separated list. */
  function PortList(ports: seq<nat>): (s: string) {
    if ports == [] then "" else
    if |ports| == 1 then Decimal(ports[0]) else Decimal(ports[0]) + "," + PortList(ports[1..])
  }

  function Smoke(seed: string): (e: Instrument) {
    Instrument("smoke", [], "", "", seed)
  }

  function ForPid(pid: nat): (e: Instrument) {
    Instrument("pid-" + Decimal(pid), [pid], "", "", "")
  }

  function PodEntry(uid: string, spec: PodSpec): (e: Instrument) {
    Instrument("pod-" + ShortUid(uid), [], spec.podName, spec.namespace, PortList(spec.httpPorts))
  }

  function PidEntries(order: seq<nat>): (es: seq<Instrument>) {
    seq(|order|, i requires 0 <= i < |order| => ForPid(order[i]))
  }

  function PodEntries(pods: map<string, PodSpec>, uids: seq<string>): (es: seq<Instrument>)
    requires forall uid | uid in uids :: uid in pods
  {
    seq(|uids|, i requires 0 <= i < |uids| => PodEntry(uids[i], pods[uids[i]]))
  }

  /** `file` is the config for `t`: the PIDs in some order and then the pods by UID.  The seed port list stands in while
      nothing is tracked. */
  ghost predicate Renders(file: File, t: Tracked, seed: string) {
    if t.pids == {} && t.pods == map[] then file == if seed == "" then [] else [Smoke(seed)]
    else exists order :: RendersIn(file, t, order)
  }

  ghost predicate RendersIn(file: File, t: Tracked, order: seq<nat>) {
    Enumerates(order, t.pids) && file == PidEntries(order) + PodEntries(t.pods, Listed(t.pods.Keys))
  }

  // ---------- what the file says ----------

  predicate IsDigit(c: char) {
    '0' <= c <= '9'
  }

  /** What a reader makes of a list of numbers: `n` is the number read so far. */
  function ReadPorts(s: string, n: nat): (ports: seq<nat>) {
    if s == "" then [n]
    else if s[0] == ',' then [n] + ReadPorts(s[1..], 0)
    else if IsDigit(s[0]) then ReadPorts(s[1..], 10 * n + (s[0] as int - '0' as int))
    else []
  }

  lemma DigitReadsBack(d: nat)
    requires d < 10
    ensures IsDigit(Digit(d)) && Digit(d) as int - '0' as int == d
  {
  }

  /** As many digits as it takes, and no zero in front. */
  lemma {:induction false} DecimalReadsBack(n: nat, rest: string)
    ensures ReadPorts(Decimal(n) + rest, 0) == ReadPorts(rest, n)
    ensures Decimal(n) != "" && (Decimal(n)[0] == '0' ==> n == 0)
    decreases n
  {
    if n < 10 {
      DigitReadsBack(n);
      assert (Decimal(n) + rest)[1..] == rest;
    } else {
      var last := [Digit(n % 10)] + rest;
      DecimalReadsBack(n / 10, last);
      DigitReadsBack(n % 10);
      assert Decimal(n) + rest == Decimal(n / 10) + last && last[1..] == rest;
    }
  }

  /** A reader of the list gets the ports, in order. */
  lemma {:induction false} PortListReadsBack(ports: seq<nat>)
    ensures if ports == [] then PortList(ports) == "" else ReadPorts(PortList(ports), 0) == ports
  {
    if |ports| == 1 {
      DecimalReadsBack(ports[0], "");
      assert Decimal(ports[0]) + "" == Decimal(ports[0]) && ports == [ports[0]];
    } else if |ports| > 1 {
      var rest := "," + PortList(ports[1..]);
      PortListReadsBack(ports[1..]);
      DecimalReadsBack(ports[0], rest);
      assert PortList(ports) == Decimal(ports[0]) + rest && rest[1..] == PortList(ports[1..]);
      assert ports == [ports[0]] + ports[1..];
    }
  }

  /** The entry of one PID. */
  predicate IsPidEntry(e: Instrument, pid: nat) {
    && e.targetPids == [pid] && e.k8sPodName == "" && e.k8sNamespace == "" && e.openPorts == ""
    && |e.name| > 4 && e.name[..4] == "pid-" && ReadPorts(e.name[4..], 0) == [pid]
  }

  /** The entry of one pod. */
  predicate IsPodEntry(e: Instrument, uid: string, spec: PodSpec) {
    && e.targetPids == [] && e.k8sPodName == spec.podName && e.k8sNamespace == spec.namespace
    && (if spec.httpPorts == [] then e.openPorts == "" else ReadPorts(e.openPorts, 0) == spec.httpPorts)
    && |e.name| == 4 + (if |uid| < 12 then |uid| else 12) && e.name[..4] == "pod-" && e.name[4..] <= uid
  }

  lemma PidEntryMeans(pid: nat)
    ensures IsPidEntry(ForPid(pid), pid)
  {
    DecimalReadsBack(pid, "");
    assert Decimal(pid) + "" == Decimal(pid) && ForPid(pid).name[4..] == Decimal(pid);
  }

  lemma PodEntryMeans(uid: string, spec: PodSpec)
    ensures IsPodEntry(PodEntry(uid, spec), uid, spec)
  {
    PortListReadsBack(spec.httpPorts);
    assert PodEntry(uid, spec).name[4..] == ShortUid(uid);
  }

  /** The file has one entry for each PID, in the order given, and then one for each pod, by UID. */
  ghost predicate Says(file: File, t: Tracked, order: seq<nat>, uids: seq<string>) {
    && Enumerates(order, t.pids) && StrictlySorted(uids) && (forall uid :: uid in uids <==> uid in t.pods)
    && EntriesFor(file, t, order, uids)
  }

  ghost predicate EntriesFor(file: File, t: Tracked, order: seq<nat>, uids: seq<string>) {
    && |file| == |order| + |uids|
    && (forall i | 0 <= i < |order| :: IsPidEntry(file[i], order[i]))
    && (forall j | 0 <= j < |uids| :: uids[j] in t.pods && IsPodEntry(file[|order| + j], uids[j], t.pods[uids[j]]))
  }

  lemma EntriesMean(file: File, t: Tracked, order: seq<nat>, uids: seq<string>)
    requires (forall uid | uid in uids :: uid in t.pods) && file == PidEntries(order) + PodEntries(t.pods, uids)
    ensures EntriesFor(file, t, order, uids)
  {
    forall i | 0 <= i < |order|
      ensures IsPidEntry(file[i], order[i])
    {
      PidEntryMeans(order[i]);
    }
    forall j | 0 <= j < |uids|
      ensures uids[j] in t.pods && IsPodEntry(file[|order| + j], uids[j], t.pods[uids[j]])
    {
      PodEntryMeans(uids[j], t.pods[uids[j]]);
    }
  }

  lemma RendersInMeans(file: File, t: Tracked, order: seq<nat>)
    requires RendersIn(file, t, order)
    ensures Says(file, t, order, Listed(t.pods.Keys))
  {
    EntriesMean(file, t, order, Listed(t.pods.Keys));
  }

  /** What a file that renders the tracked state says: an entry for each PID, in any order, and each pod; or the seed
      port list alone while nothing is tracked. */
  lemma RendersMeans(file: File, t: Tracked, seed: string) returns (order: seq<nat>, uids: seq<string>)
    requires Renders(file, t, seed)
    ensures if t.pids == {} && t.pods == map[]
            then file == if seed == "" then [] else [Instrument("smoke", [], "", "", seed)]
            else Says(file, t, order, uids)
  {
    order, uids := [], Listed(t.pods.Keys);
    if t.pids != {} || t.pods != map[] {
      order :| RendersIn(file, t, order);
      RendersInMeans(file, t, order);
    }
  }

  // ---------- the system ----------

  /** Where the writing side is: `Start`'s initial write, and then the coalescer's loop. */
  datatype Loop =
    | NotStarted | StartBuilt(file: File)
    | Waiting | Debounce | Building | Built(file: File)
    | Ended

  /** `signals` counts the mutators that have changed the state and not yet posted; `failed` records that the last write
      failed. */
  datatype Sys = Sys(seed: string, now: Tracked, disk: File, dirty: bool, loop: Loop, signals: nat, failed: bool)

  datatype Action =
    | Mutate(next: Tracked)
    | Signal
    | BuildFirst(file: File)
    | Take | MoreActivity | Fire
    | Build(file: File)
    | Write | WriteFails
    | Stop

  ghost predicate Enabled(st: Sys, a: Action) {
    match a
    case Mutate(_) => true
    case Signal => 0 < st.signals
    case BuildFirst(file) => st.loop.NotStarted? && Renders(file, st.now, st.seed)
    case Take => st.loop.Waiting? && st.dirty
    case MoreActivity => st.loop.Debounce? && st.dirty
    case Fire => st.loop.Debounce?
    case Build(file) => st.loop.Building? && Renders(file, st.now, st.seed)
    case Write => st.loop.StartBuilt? || st.loop.Built?
    case WriteFails => st.loop.StartBuilt? || st.loop.Built?
    case Stop => st.loop.Waiting? || st.loop.Debounce?
  }

  function Next(st: Sys, a: Action): (st': Sys)
    requires a.Write? ==> st.loop.StartBuilt? || st.loop.Built?
    requires a.Signal? ==> 0 < st.signals
  {
    match a
    case Mutate(next) => st.(now := next, signals := st.signals + 1)
    case Signal => st.(signals := st.signals - 1, dirty := true)
    case BuildFirst(file) => st.(loop := StartBuilt(file))
    case Take => st.(dirty := false, loop := Debounce)
    case MoreActivity => st.(dirty := false)
    case Fire => st.(loop := Building)
    case Build(file) => st.(loop := Built(file))
    case Write => st.(disk := st.loop.file, loop := Waiting, failed := false)
    case WriteFails => st.(loop := if st.loop.StartBuilt? then Ended else Waiting, failed := true)
    case Stop => st.(loop := Ended)
  }

  /** A change is on its way to the coalescer. */
  predicate Announced(st: Sys) {
    0 < st.signals || st.dirty
  }

  ghost predicate Inv(st: Sys) {
    match st.loop
    case StartBuilt(file) => Renders(file, st.now, st.seed) || Announced(st)
    case Built(file) => Renders(file, st.now, st.seed) || Announced(st)
    case Waiting => Renders(st.disk, st.now, st.seed) || Announced(st) || st.failed
    case _ => true
  }

  lemma StepKeeps(st: Sys, a: Action)
    requires Inv(st) && Enabled(st, a)
    ensures Inv(Next(st, a))
  {
  }

  // ---------- all runs ----------

  function Initial(seed: string, disk: File): (st: Sys) {
    Sys(seed, Tracked(map[], {}), disk, false, NotStarted, 0, false)
  }

  ghost predicate IsRun(st: Sys, run: seq<Action>)
    decreases |run|
  {
    run == [] || (Enabled(st, run[0]) && IsRun(Next(st, run[0]), run[1..]))
  }

  ghost function RunTo(st: Sys, run: seq<Action>): (st': Sys)
    requires IsRun(st, run)
    decreases |run|
  {
    if run == [] then st else RunTo(Next(st, run[0]), run[1..])
  }

  lemma {:induction false} RunKeeps(st: Sys, run: seq<Action>)
    requires Inv(st) && IsRun(st, run)
    ensures Inv(RunTo(st, run))
    decreases |run|
  {
    if run != [] {
      StepKeeps(st, run[0]);
      RunKeeps(Next(st, run[0]), run[1..]);
    }
  }

  /** No reload is lost: while the file does not show what is tracked, a mutator has yet to signal, a token is pending,
      or the coalescer owes a write; unless the last write failed, or the coalescer has been stopped. */
  lemma NoLostReload(seed: string, disk: File, run: seq<Action>)
    requires IsRun(Initial(seed, disk), run)
    ensures var st := RunTo(Initial(seed, disk), run);
            || Renders(st.disk, st.now, st.seed)
            || 0 < st.signals || st.dirty
            || st.loop.NotStarted? || st.loop.StartBuilt? || st.loop.Debounce? || st.loop.Building? || st.loop.Built?
            || st.failed || st.loop.Ended?
  {
    RunKeeps(Initial(seed, disk), run);
  }

  // ---------- the coalescer catches up ----------

  /** A rendering of what is tracked. */
  ghost function Rendering(t: Tracked, seed: string): (file: File)
    ensures Renders(file, t, seed)
  {
    if t.pids == {} && t.pods == map[] then (if seed == "" then [] else [Smoke(seed)]) else
    var order := OrderOf(t.pids);
    var file := PidEntries(order) + PodEntries(t.pods, Listed(t.pods.Keys));
    assert RendersIn(file, t, order);
    file
  }

  ghost function OrderOf(s: set<nat>): (order: seq<nat>)
    ensures Enumerates(order, s)
  {
    if s == {} then [] else
    var x :| x in s;
    EnumeratesSnoc(OrderOf(s - {x}), s - {x}, x);
    assert s - {x} + {x} == s;
    OrderOf(s - {x}) + [x]
  }

  /** The coalescer's own next steps, when nobody interferes and writes succeed. */
  ghost function CatchUp(st: Sys): (run: seq<Action>) {
    var file := Rendering(st.now, st.seed);
    var quick := [Fire, Build(file), Write];
    match st.loop
    case Waiting => if st.dirty then [Take] + quick else []
    case Debounce => (if st.dirty then [MoreActivity] else []) + quick
    case Building => [Build(file), Write] + if st.dirty then [Take] + quick else []
    case Built(_) => [Write] + if st.dirty then [Take] + quick else []
    case _ => []
  }

  ghost predicate Quiet(st: Sys) {
    st.loop.Waiting? && !st.dirty && st.signals == 0
  }

  lemma RunCons(st: Sys, a: Action, run: seq<Action>)
    requires Enabled(st, a) && IsRun(Next(st, a), run)
    ensures IsRun(st, [a] + run) && RunTo(st, [a] + run) == RunTo(Next(st, a), run)
  {
  }

  /** From the debounce on: fire, render, write. */
  lemma QuickCatchesUp(st: Sys)
    requires st.loop.Debounce? && !st.dirty && st.signals == 0
    ensures var run := [Fire, Build(Rendering(st.now, st.seed)), Write];
            IsRun(st, run) && Quiet(RunTo(st, run)) && Renders(RunTo(st, run).disk, st.now, st.seed)
            && RunTo(st, run).now == st.now && RunTo(st, run).seed == st.seed && !RunTo(st, run).failed
  {
    var file := Rendering(st.now, st.seed);
    var st1 := Next(st, Fire);
    var st2 := Next(st1, Build(file));
    RunCons(st2, Write, []);
    RunCons(st1, Build(file), [Write]);
    RunCons(st, Fire, [Build(file), Write]);
    assert [Build(file)] + [Write] == [Build(file), Write];
    assert [Fire] + [Build(file), Write] == [Fire, Build(file), Write];
    assert [Write] + [] == [Write];
  }

  lemma TakeCatchesUp(st: Sys)
    requires st.loop.Waiting? && st.dirty && st.signals == 0
    ensures var run := [Take] + [Fire, Build(Rendering(st.now, st.seed)), Write];
            IsRun(st, run) && Quiet(RunTo(st, run)) && Renders(RunTo(st, run).disk, st.now, st.seed)
            && RunTo(st, run).now == st.now && RunTo(st, run).seed == st.seed && !RunTo(st, run).failed
  {
    QuickCatchesUp(Next(st, Take));
    RunCons(st, Take, [Fire, Build(Rendering(st.now, st.seed)), Write]);
  }

  /** After the write of a rendered file, and a further round if a token has come in meanwhile. */
  ghost function Rest(st: Sys): (run: seq<Action>) {
    if st.dirty then [Take] + [Fire, Build(Rendering(st.now, st.seed)), Write] else []
  }

  lemma RestCatchesUp(st: Sys)
    requires st.loop.Waiting? && st.signals == 0 && (st.dirty || Renders(st.disk, st.now, st.seed))
    ensures IsRun(st, Rest(st)) && Quiet(RunTo(st, Rest(st))) && Renders(RunTo(st, Rest(st)).disk, st.now, st.seed)
  {
    if st.dirty {
      TakeCatchesUp(st);
    }
  }

  /** Once the mutators have signalled, the coalescer's own steps bring the file up to date, from wherever it is. */
  lemma CatchesUp(st: Sys)
    requires Inv(st) && st.signals == 0 && !st.failed
    requires st.loop.Waiting? || st.loop.Debounce? || st.loop.Building? || st.loop.Built?
    ensures IsRun(st, CatchUp(st)) && Quiet(RunTo(st, CatchUp(st)))
    ensures Renders(RunTo(st, CatchUp(st)).disk, st.now, st.seed)
  {
    match st.loop
    case Waiting => RestCatchesUp(st);
    case Debounce => DebounceCatchesUp(st);
    case Building => BuildCatchesUp(st);
    case Built(f) => WriteCatchesUp(st);
  }

  lemma DebounceCatchesUp(st: Sys)
    requires st.loop.Debounce? && st.signals == 0
    ensures var run := (if st.dirty then [MoreActivity] else []) + [Fire, Build(Rendering(st.now, st.seed)), Write];
            IsRun(st, run) && Quiet(RunTo(st, run)) && Renders(RunTo(st, run).disk, st.now, st.seed)
  {
    var rest := [Fire, Build(Rendering(st.now, st.seed)), Write];
    if st.dirty {
      QuickCatchesUp(Next(st, MoreActivity));
      RunCons(st, MoreActivity, rest);
    } else {
      QuickCatchesUp(st);
      assert [] + rest == rest;
    }
  }

  lemma WriteCatchesUp(st: Sys)
    requires st.loop.Built? && st.signals == 0 && (st.dirty || Renders(st.loop.file, st.now, st.seed))
    ensures var run := [Write] + Rest(st);
            IsRun(st, run) && Quiet(RunTo(st, run)) && Renders(RunTo(st, run).disk, st.now, st.seed)
  {
    RestCatchesUp(Next(st, Write));
    RunCons(st, Write, Rest(st));
  }

  lemma BuildCatchesUp(st: Sys)
    requires st.loop.Building? && st.signals == 0
    ensures var run := [Build(Rendering(st.now, st.seed)), Write] + Rest(st);
            IsRun(st, run) && Quiet(RunTo(st, run)) && Renders(RunTo(st, run).disk, st.now, st.seed)
  {
    var file := Rendering(st.now, st.seed);
    WriteCatchesUp(Next(st, Build(file)));
    RunCons(st, Build(file), [Write] + Rest(st));
    assert [Build(file)] + ([Write] + Rest(st)) == [Build(file), Write] + Rest(st);
  }

  /** When nothing is under way, nothing is written until something that is tracked changes: whether the file is up to
      date stays as it is through every other run. */
  lemma {:induction false} QuietStays(st: Sys, run: seq<Action>)
    requires (Quiet(st) || (st.loop.Ended? && st.signals == 0)) && IsRun(st, run)
    requires forall i | 0 <= i < |run| :: !run[i].Mutate?
    ensures RunTo(st, run).disk == st.disk && RunTo(st, run).now == st.now && RunTo(st, run).seed == st.seed
    decreases |run|
  {
    if run != [] {
      QuietStays(Next(st, run[0]), run[1..]);
    }
  }

  /** And any change then brings the file up to date, by the mutator's signal and the coalescer's steps. */
  lemma ChangeRepairs(st: Sys, t: Tracked)
    requires Quiet(st)
    ensures var run := [Mutate(t)] + ([Signal] + ([Take] + [Fire, Build(Rendering(t, st.seed)), Write]));
            && IsRun(st, run) && Quiet(RunTo(st, run))
            && RunTo(st, run).now == t && Renders(RunTo(st, run).disk, t, st.seed)
  {
    var rest := [Take] + [Fire, Build(Rendering(t, st.seed)), Write];
    var st1 := Next(st, Mutate(t));
    TakeCatchesUp(Next(st1, Signal));
    RunCons(st1, Signal, rest);
    RunCons(st, Mutate(t), [Signal] + rest);
  }

  /** So a file that is out of date in a quiet state is up to date again only after a change. */
  lemma RepairNeedsChange(st: Sys, run: seq<Action>)
    requires Quiet(st) && !Renders(st.disk, st.now, st.seed) && IsRun(st, run)
    requires var st' := RunTo(st, run); Renders(st'.disk, st'.now, st'.seed)
    ensures exists i :: 0 <= i < |run| && run[i].Mutate?
  {
    if forall i | 0 <= i < |run| :: !run[i].Mutate? {
      QuietStays(st, run);
    }
  }

  /** A write that fails is not repeated: nothing may be under way and the file still be out of date. */
  lemma FailedWriteIsForgotten()
    ensures var t, file := Tracked(map[], {7}), [ForPid(7)];
            var run := [BuildFirst([])] + ([Write] + ([Mutate(t)] + ([Signal] +
                       ([Take] + ([Fire] + ([Build(file)] + ([WriteFails] + [])))))));
            && IsRun(Initial("", []), run) && Quiet(RunTo(Initial("", []), run))
            && !Renders(RunTo(Initial("", []), run).disk, RunTo(Initial("", []), run).now, "")
  {
    var t, file := Tracked(map[], {7}), [ForPid(7)];
    OnePid(t, file);
    var st0 := Initial("", []);
    var st1 := Next(st0, BuildFirst([]));
    var st2 := Next(st1, Write);
    var st3 := Next(st2, Mutate(t));
    var st4 := Next(st3, Signal);
    var st5 := Next(st4, Take);
    var st6 := Next(st5, Fire);
    var st7 := Next(st6, Build(file));
    RunCons(st7, WriteFails, []);
    RunCons(st6, Build(file), [WriteFails] + []);
    RunCons(st5, Fire, [Build(file)] + ([WriteFails] + []));
    RunCons(st4, Take, [Fire] + ([Build(file)] + ([WriteFails] + [])));
    RunCons(st3, Signal, [Take] + ([Fire] + ([Build(file)] + ([WriteFails] + []))));
    RunCons(st2, Mutate(t), [Signal] + ([Take] + ([Fire] + ([Build(file)] + ([WriteFails] + [])))));
    RunCons(st1, Write, [Mutate(t)] + ([Signal] + ([Take] + ([Fire] + ([Build(file)] + ([WriteFails] + []))))));
    RunCons(st0, BuildFirst([]),
            [Write] + ([Mutate(t)] + ([Signal] + ([Take] + ([Fire] + ([Build(file)] + ([WriteFails] + [])))))));
  }

  lemma OnePid(t: Tracked, file: File)
    requires t == Tracked(map[], {7}) && file == [ForPid(7)]
    ensures Renders(file, t, "") && !Renders([], t, "")
  {
    SortedUnique(Listed(t.pods.Keys), []);
    assert PidEntries([7]) + PodEntries(t.pods, Listed(t.pods.Keys)) == file;
    assert RendersIn(file, t, [7]);
    forall order
      ensures !RendersIn([], t, order)
    {
      assert 7 in order ==> |PidEntries(order)| > 0;
      assert 7 in t.pids;
    }
  }

  // ---------- the bridge's methods ----------

  class BridgeManager {
    const seed: string
    var pods: map<string, PodSpec>
    var pids: set<nat>
    var dirty: bool
    var disk: File

    ghost function Now(): (t: Tracked)
      reads this
    {
      Tracked(pods, pids)
    }

    /** Between calls, a file that is out of date has a token pending. */
    ghost predicate UpToDate()
      reads this
    {
      Renders(disk, Now(), seed) || dirty
    }

    constructor (seed: string, disk: File)
      ensures Now() == Tracked(map[], {}) && !dirty && this.disk == disk && this.seed == seed
    {
      this.seed, this.disk := seed, disk;
      pods, pids, dirty := map[], {}, false;
    }

    method TriggerReload()
      modifies this`dirty
      ensures dirty
    {
      if !dirty {
        dirty := true;
      }
    }

    method AllowPod(uid: string, spec: PodSpec) returns (ok: bool)
      modifies this`pods, this`dirty
      ensures ok <==> uid != ""
      ensures pods == (if ok then old(pods)[uid := spec] else old(pods)) && (old(UpToDate()) ==> UpToDate())
    {
      if uid == "" {
        return false;
      }
      pods := pods[uid := spec];
      TriggerReload();
      return true;
    }

    method BlockPod(uid: string)
      modifies this`pods, this`dirty
      ensures pods == old(pods) - {uid} && (old(UpToDate()) ==> UpToDate())
    {
      if uid in pods {
        pods := pods - {uid};
        TriggerReload();
      }
    }

    method AllowPid(pid: nat)
      modifies this`pids, this`dirty
      ensures pids == old(pids) + {pid} && (old(UpToDate()) ==> UpToDate())
    {
      pids := pids + {pid};
      TriggerReload();
    }

    method BlockPid(pid: nat)
      modifies this`pids, this`dirty
      ensures pids == old(pids) - {pid} && (old(UpToDate()) ==> UpToDate())
    {
      if pid in pids {
        pids := pids - {pid};
        TriggerReload();
      }
    }

    /** `buildConfig`. */
    method BuildConfig() returns (file: File)
      ensures Renders(file, Now(), seed)
    {
      if pids == {} && pods == map[] {
        if seed != "" {
          return [Smoke(seed)];
        }
        return [];
      }
      ghost var order;
      file, order := PidPart();
      var podPart := PodPart();
      file := file + podPart;
      assert RendersIn(file, Now(), order);
    }

    /** Its loop over the PIDs, in any order. */
    method PidPart() returns (entries: seq<Instrument>, ghost order: seq<nat>)
      ensures Enumerates(order, pids) && entries == PidEntries(order)
    {
      entries, order := [], [];
      var todo := pids;
      ghost var done: set<nat> := {};
      while todo != {}
        invariant todo <= pids && done == pids - todo && Enumerates(order, done) && entries == PidEntries(order)
        decreases |todo|
      {
        var pid :| pid in todo;
        EnumeratesSnoc(order, done, pid);
        entries := entries + [ForPid(pid)];
        order, todo, done := order + [pid], todo - {pid}, done + {pid};
      }
    }

    method SortedUids() returns (uids: seq<string>)
      ensures uids == Listed(pods.Keys)
    {
      uids := [];
      var todo := pods.Keys;
      ghost var done: set<string> := {};
      while todo != {}
        invariant todo <= pods.Keys && done == pods.Keys - todo && Enumerates(uids, done)
        decreases |todo|
      {
        var uid :| uid in todo;
        EnumeratesSnoc(uids, done, uid);
        uids, todo, done := uids + [uid], todo - {uid}, done + {uid};
      }
      uids := SortStrings(uids);
      SortedUnique(uids, Listed(pods.Keys));
    }

    /** Its loop over the pods by UID. */
    method PodPart() returns (entries: seq<Instrument>)
      ensures entries == PodEntries(pods, Listed(pods.Keys))
    {
      var uids := SortedUids();
      entries := [];
      for i := 0 to |uids|
        invariant entries == PodEntries(pods, uids)[..i]
      {
        entries := entries + [PodEntry(uids[i], pods[uids[i]])];
      }
    }

    /** What the coalescer does with a token, when nothing interferes: take it, render, write. */
    method Coalesce() returns (changed: bool)
      requires UpToDate()
      modifies this`dirty, this`disk
      ensures !dirty && Renders(disk, Now(), seed) && (changed <==> disk != old(disk))
    {
      if !dirty {
        return false;
      }
      dirty := false;
      var file := BuildConfig();
      changed := file != disk;
      if changed {
        disk := file;
      }
    }
  }
}
