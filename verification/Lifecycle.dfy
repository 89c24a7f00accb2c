/** Starting and stopping the capture bridge (bridge.go, recover.go): `Start`, `Stop`, the coalescer and any number of
    emitters run at once and share three channels that must each be closed at most once and never sent on after.

    OTLP handlers, panic recovery inside them, and restart reports all send between `beginEmit` and `endEmit`. */
module Lifecycle {

  /** `Start` after it has set its flag: binding the receiver; bound but not yet published; writing the first config. */
  datatype Starter = NotCalled | Binding | Publishing | FirstWrite | Returned

  datatype Coalescer = NotRunning | Running | Exited

  /** `Stop` after it has set its flag, with what it read under the lock. */
  datatype Stopper =
    | Never
    | Signalling(sawStarted: bool, sawReceiver: bool)
    | AwaitCoalescer(sawStarted: bool, sawReceiver: bool)
    | StopReceiver(sawReceiver: bool)
    | AwaitEmitters
    | Finished

  /** The fields of the bridge, the goroutines' places, and how often each channel has been closed.  `emitters` are
      those counted by the wait group; `serving` says that the receiver is bound and running, and `published` that
      `Stop` can see it.  History: `startOk` records that `Start` succeeded, and `early` that `Stop` was called after
      `Start` had set its flag and before it had published the receiver. */
  datatype Sys = Sys(
    hasReceiver: bool, hasWriter: bool, started: bool, stopped: bool, emitters: set<nat>,
    starter: Starter, coalescer: Coalescer, stopper: Stopper,
    stopChCloses: nat, coalDoneCloses: nat, eventsCloses: nat,
    serving: bool, published: bool, startOk: bool, early: bool)

  datatype Action =
    | CallStart | BindFails | BindOk | Publish | FirstWriteFails | FirstWriteOk | NoWriter
    | CoalescerExits
    | CallStop | CloseStopCh | CoalescerDone | ReceiverStopped | CloseEvents
    | BeginEmit(id: nat) | Emit(id: nat) | EndEmit(id: nat)

  predicate Enabled(st: Sys, a: Action) {
    match a
    case CallStart => !st.stopped && !st.started
    case BindFails => st.starter.Binding? && st.hasReceiver
    case BindOk => st.starter.Binding?
    case Publish => st.starter.Publishing?
    case FirstWriteFails => st.starter.FirstWrite? && st.hasWriter
    case FirstWriteOk => st.starter.FirstWrite? && st.hasWriter
    case NoWriter => st.starter.FirstWrite? && !st.hasWriter
    case CoalescerExits => st.coalescer.Running? && 0 < st.stopChCloses
    case CallStop => !st.stopped
    case CloseStopCh => st.stopper.Signalling?
    case CoalescerDone => st.stopper.AwaitCoalescer? && (st.stopper.sawStarted ==> 0 < st.coalDoneCloses)
    case ReceiverStopped => st.stopper.StopReceiver?
    case CloseEvents => st.stopper.AwaitEmitters? && st.emitters == {}
    case BeginEmit(id) => !st.stopped && id !in st.emitters
    case Emit(id) => id in st.emitters
    case EndEmit(id) => id in st.emitters
  }

  function Next(st: Sys, a: Action): (st': Sys)
    requires Enabled(st, a)
  {
    match a
    case CallStart => st.(started := true, starter := Binding)
    case BindFails => st.(starter := Returned, coalDoneCloses := st.coalDoneCloses + 1)
    case BindOk => st.(starter := if st.hasReceiver then Publishing else FirstWrite, serving := st.hasReceiver)
    case Publish => st.(starter := FirstWrite, published := true)
    case FirstWriteFails => st.(starter := Returned, coalDoneCloses := st.coalDoneCloses + 1, serving := false)
    case FirstWriteOk => st.(starter := Returned, coalescer := Running, startOk := true)
    case NoWriter => st.(starter := Returned, coalDoneCloses := st.coalDoneCloses + 1, startOk := true)
    case CoalescerExits => st.(coalescer := Exited, coalDoneCloses := st.coalDoneCloses + 1)
    case CallStop =>
      st.(stopped := true, stopper := Signalling(st.started, st.published),
          early := st.starter.Binding? || st.starter.Publishing?)
    case CloseStopCh =>
      st.(stopper := AwaitCoalescer(st.stopper.sawStarted, st.stopper.sawReceiver), stopChCloses := st.stopChCloses + 1)
    case CoalescerDone => st.(stopper := StopReceiver(st.stopper.sawReceiver))
    case ReceiverStopped => st.(stopper := AwaitEmitters, serving := st.serving && !st.stopper.sawReceiver)
    case CloseEvents => st.(stopper := Finished, eventsCloses := st.eventsCloses + 1)
    case BeginEmit(id) => st.(emitters := st.emitters + {id})
    case Emit(_) => st
    case EndEmit(id) => st.(emitters := st.emitters - {id})
  }

  /** Flags, places and closes fit together. */
  predicate PlacesOk(st: Sys) {
    && (st.started <==> !st.starter.NotCalled?)
    && (st.stopped <==> !st.stopper.Never?)
    && (!st.starter.Returned? ==> st.coalescer.NotRunning? && st.coalDoneCloses == 0)
    && (st.starter.Returned? ==> st.coalDoneCloses == if st.coalescer.Running? then 0 else 1)
    && st.stopChCloses == (if st.stopper.Never? || st.stopper.Signalling? then 0 else 1)
    && st.eventsCloses == (if st.stopper.Finished? then 1 else 0)
    && (st.stopper.Finished? ==> st.emitters == {})
    && (st.stopper.Signalling? || st.stopper.AwaitCoalescer? ==> st.stopper.sawStarted == st.started)
    && (AfterCoalescer(st) && st.started ==> st.coalDoneCloses == 1)
    && (st.coalescer.Exited? ==> st.stopChCloses == 1)
  }

  predicate Inv(st: Sys) {
    PlacesOk(st) && StartOk(st) && StopOk(st)
  }

  predicate AfterCoalescer(st: Sys) {
    st.stopper.StopReceiver? || st.stopper.AwaitEmitters? || st.stopper.Finished?
  }

  /** How far `Start` has come with the receiver. */
  predicate StartOk(st: Sys) {
    && (st.startOk ==> st.starter.Returned?)
    && (st.starter.NotCalled? || st.starter.Binding? ==> !st.serving && !st.published)
    && (st.starter.Publishing? ==> st.hasReceiver && st.serving && !st.published)
    && (st.starter.FirstWrite? ==> st.serving == st.hasReceiver && st.published == st.hasReceiver)
    && (st.starter.Returned? && st.startOk ==> st.published == st.hasReceiver)
    && (st.starter.Returned? && !st.startOk ==> !st.serving)
    && (st.starter.Returned? && st.startOk && !st.stopper.AwaitEmitters? && !st.stopper.Finished? ==>
          st.serving == st.hasReceiver)
  }

  /** What `Stop` knows of it. */
  predicate StopOk(st: Sys) {
    && (st.early ==> st.stopped && st.started)
    && (st.stopper.Signalling? || st.stopper.AwaitCoalescer? || st.stopper.StopReceiver? ==>
          if st.stopper.sawReceiver then !st.early
          else st.early || !st.hasReceiver || st.starter.NotCalled? || (st.starter.Returned? && !st.startOk))
    && (st.stopper.AwaitEmitters? || st.stopper.Finished? ==> st.serving == (st.early && st.hasReceiver && st.startOk))
  }

  lemma StepKeeps(st: Sys, a: Action)
    requires Inv(st) && Enabled(st, a)
    ensures Inv(Next(st, a))
  {
    PlacesKept(st, a);
    ReceiverKept(st, a);
  }

  lemma ReceiverKept(st: Sys, a: Action)
    requires Inv(st) && Enabled(st, a)
    ensures StartOk(Next(st, a)) && StopOk(Next(st, a))
  {
  }

  lemma PlacesKept(st: Sys, a: Action)
    requires PlacesOk(st) && Enabled(st, a)
    ensures PlacesOk(Next(st, a))
  {
  }

  function Initial(hasReceiver: bool, hasWriter: bool): (st: Sys) {
    Sys(hasReceiver, hasWriter, false, false, {}, NotCalled, NotRunning, Never, 0, 0, 0,
        false, false, false, false)
  }

  predicate IsRun(st: Sys, run: seq<Action>)
    decreases |run|
  {
    run == [] || (Enabled(st, run[0]) && IsRun(Next(st, run[0]), run[1..]))
  }

  function RunTo(st: Sys, run: seq<Action>): (st': Sys)
    requires IsRun(st, run)
    decreases |run|
  {
    if run == [] then st else RunTo(Next(st, run[0]), run[1..])
  }

  lemma {:induction false} RunKeeps(st: Sys, run: seq<Action>)
    requires Inv(st) && IsRun(st, run)
    ensures Inv(RunTo(st, run))
    decreases |run|
  {
    if run != [] {
      StepKeeps(st, run[0]);
      RunKeeps(Next(st, run[0]), run[1..]);
    }
  }

  /** In every interleaving no channel is closed twice, and whoever may send on the events channel finds it open. */
  lemma ChannelsSafe(hasReceiver: bool, hasWriter: bool, run: seq<Action>)
    requires IsRun(Initial(hasReceiver, hasWriter), run)
    ensures var st := RunTo(Initial(hasReceiver, hasWriter), run);
            && st.stopChCloses <= 1 && st.coalDoneCloses <= 1 && st.eventsCloses <= 1
            && (st.emitters != {} ==> st.eventsCloses == 0)
  {
    RunKeeps(Initial(hasReceiver, hasWriter), run);
  }

  /** When `Stop` has returned, no emitter is under way, `Start` is not either, and the coalescer has ended; and it ends
      no sooner than `Stop` is called. */
  lemma StoppedIsQuiet(hasReceiver: bool, hasWriter: bool, run: seq<Action>)
    requires IsRun(Initial(hasReceiver, hasWriter), run)
    ensures var st := RunTo(Initial(hasReceiver, hasWriter), run);
            && (st.stopper.Finished? ==>
                  && st.emitters == {} && !st.coalescer.Running? && (st.starter.NotCalled? || st.starter.Returned?)
                  && st.stopChCloses == 1 && st.eventsCloses == 1)
            && (st.coalescer.Exited? ==> st.stopped)
  {
    RunKeeps(Initial(hasReceiver, hasWriter), run);
  }

  // ---------- whether the receiver is stopped ----------

  /** `Stop` leaves the receiver running if and only if it was called after `Start` had set its flag and before it had
      published the receiver, and `Start` then succeeded. */
  lemma ReceiverLeftIff(hasReceiver: bool, hasWriter: bool, run: seq<Action>)
    requires IsRun(Initial(hasReceiver, hasWriter), run)
    requires RunTo(Initial(hasReceiver, hasWriter), run).stopper.Finished?
    ensures var st := RunTo(Initial(hasReceiver, hasWriter), run);
            st.serving <==> hasReceiver && st.early && st.startOk
  {
    RunKeeps(Initial(hasReceiver, hasWriter), run);
    SameParts(Initial(hasReceiver, hasWriter), run);
  }

  lemma {:induction false} SameParts(st: Sys, run: seq<Action>)
    requires IsRun(st, run)
    ensures RunTo(st, run).hasReceiver == st.hasReceiver && RunTo(st, run).hasWriter == st.hasWriter
    decreases |run|
  {
    if run != [] {
      SamePart(st, run[0]);
      SameParts(Next(st, run[0]), run[1..]);
    }
  }

  lemma SamePart(st: Sys, a: Action)
    requires Enabled(st, a)
    ensures Next(st, a).hasReceiver == st.hasReceiver && Next(st, a).hasWriter == st.hasWriter
  {
    match a {
      case CallStart =>
      case BindFails =>
      case BindOk =>
      case Publish =>
      case FirstWriteFails =>
      case FirstWriteOk =>
      case NoWriter =>
      case CoalescerExits =>
      case CallStop =>
      case CloseStopCh =>
      case CoalescerDone =>
      case ReceiverStopped =>
      case CloseEvents =>
      case _ =>
    }
  }

  lemma RunCons(st: Sys, a: Action, run: seq<Action>)
    requires Enabled(st, a) && IsRun(Next(st, a), run)
    ensures IsRun(st, [a] + run) && RunTo(st, [a] + run) == RunTo(Next(st, a), run)
  {
    assert ([a] + run)[1..] == run;
  }

  /** The rest of `Stop` when nothing holds it up. */
  function Ending(): (run: seq<Action>) {
    [CloseStopCh] + ([CoalescerDone] + ([ReceiverStopped] + ([CloseEvents] + [])))
  }

  lemma Ends(st: Sys)
    requires st.stopper.Signalling? && 0 < st.coalDoneCloses && st.emitters == {}
    ensures IsRun(st, Ending()) && RunTo(st, Ending()).stopper.Finished?
    ensures RunTo(st, Ending()).serving == (st.serving && !st.stopper.sawReceiver)
  {
    var st1 := Next(st, CloseStopCh);
    var st2 := Next(st1, CoalescerDone);
    var st3 := Next(st2, ReceiverStopped);
    RunCons(st3, CloseEvents, []);
    RunCons(st2, ReceiverStopped, [CloseEvents] + []);
    RunCons(st1, CoalescerDone, [ReceiverStopped] + ([CloseEvents] + []));
    RunCons(st, CloseStopCh, [CoalescerDone] + ([ReceiverStopped] + ([CloseEvents] + [])));
  }

  /** Such a run: `Stop` is called between the binding and the publication. */
  lemma ReceiverLeft()
    ensures var run := [CallStart] + ([BindOk] + ([CallStop] + ([Publish] + ([NoWriter] + Ending()))));
            && IsRun(Initial(true, false), run)
            && RunTo(Initial(true, false), run).stopper.Finished? && RunTo(Initial(true, false), run).serving
  {
    var st0 := Initial(true, false);
    var st1 := Next(st0, CallStart);
    var st2 := Next(st1, BindOk);
    var st3 := Next(st2, CallStop);
    var st4 := Next(st3, Publish);
    var rest := Ending();
    Ends(Next(st4, NoWriter));
    RunCons(st4, NoWriter, rest);
    RunCons(st3, Publish, [NoWriter] + rest);
    RunCons(st2, CallStop, [Publish] + ([NoWriter] + rest));
    RunCons(st1, BindOk, [CallStop] + ([Publish] + ([NoWriter] + rest)));
    RunCons(st0, CallStart, [BindOk] + ([CallStop] + ([Publish] + ([NoWriter] + rest))));
  }

  // ---------- Stop always returns ----------

  /** How many steps are left once `Stop` has been called. */
  function Work(st: Sys): (n: nat) {
    (match st.starter
     case NotCalled => 0 case Binding => 4 case Publishing => 3 case FirstWrite => 2 case Returned => 0)
    + (if st.coalescer.Running? then 1 else 0)
    + (match st.stopper
       case Never => 0 case Signalling(_, _) => 5 case AwaitCoalescer(_, _) => 4 case StopReceiver(_) => 3
       case AwaitEmitters => 2 case Finished => 0)
    + |st.emitters|
  }

  lemma StepUsesWork(st: Sys, a: Action)
    requires Inv(st) && st.stopped && Enabled(st, a) && !a.Emit?
    ensures Next(st, a).stopped && Work(Next(st, a)) < Work(st)
  {
    if a.EndEmit? {
      assert st.emitters == Next(st, a).emitters + {a.id};
    }
  }

  /** Whatever `Stop` is waiting for, someone can take a step. */
  lemma NeverStuck(st: Sys)
    requires Inv(st) && st.stopped && !st.stopper.Finished?
    ensures exists a: Action :: !a.Emit? && Enabled(st, a)
  {
    var a :=
      match st.stopper
      case Signalling(_, _) => CloseStopCh
      case StopReceiver(_) => ReceiverStopped
      case AwaitEmitters => if st.emitters == {} then CloseEvents else EndEmit(var id :| id in st.emitters; id)
      case _ =>
        match st.starter
        case Binding => BindOk
        case Publishing => Publish
        case FirstWrite => if st.hasWriter then FirstWriteFails else NoWriter
        case _ => if st.coalescer.Running? then CoalescerExits else CoalescerDone;
    assert !a.Emit? && Enabled(st, a);
  }

  ghost predicate NoEmits(run: seq<Action>) {
    forall i | 0 <= i < |run| :: !run[i].Emit?
  }

  /** After `Stop` is called only so many steps can follow, apart from sends by emitters already under way; and when no
      more can, it has returned. */
  lemma {:induction false} StopReturns(st: Sys, run: seq<Action>)
    requires Inv(st) && st.stopped && IsRun(st, run) && NoEmits(run)
    ensures |run| <= Work(st)
    ensures (forall a: Action | Enabled(RunTo(st, run), a) :: a.Emit?) ==> RunTo(st, run).stopper.Finished?
    decreases |run|
  {
    if run == [] {
      if !st.stopper.Finished? {
        NeverStuck(st);
      }
    } else {
      assert !run[0].Emit?;
      StepKeeps(st, run[0]);
      StepUsesWork(st, run[0]);
      assert forall i | 0 <= i < |run[1..]| :: run[1..][i] == run[i + 1];
      StopReturns(Next(st, run[0]), run[1..]);
    }
  }
}
