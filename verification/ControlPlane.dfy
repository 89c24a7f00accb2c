/** The controller's delta protocol: the dispatcher and its sessions (`dispatcher.go`, `session.go`,
    `server.go`) and the agent that folds the deltas into its pod map (`client.go`).

    The dispatcher works under one lock, but each session's queue is drained by another goroutine at any
    moment, so `Next` takes the loops of `Apply` and `RegisterSession` one pod at a time.  Sessions are
    named by values of any type `S`; the classes of module `Dispatcher` use the session objects themselves. */
module ControlPlane {

  datatype Spec = Spec(
    podUid: string, podName: string, namespace: string, node: string, protocols: nat, httpPorts: seq<int>,
    sourceRef: string)

  datatype Delta = Upsert(spec: Spec, gen: nat) | Remove(spec: Spec, gen: nat)

  /** The spec the agent's sink was last given for each pod it monitors. */
  type PodMap = map<string, Spec>

  const QUEUE_SIZE: nat := 1024

  /** `handle` with a sink that succeeds. */
  function Handle(m: PodMap, d: Delta): (m': PodMap) {
    match d
    case Upsert(spec, _) => m[spec.podUid := spec]
    case Remove(spec, _) => m - {spec.podUid}
  }

  function HandleAll(m: PodMap, ds: seq<Delta>): (m': PodMap) {
    if ds == [] then m else Handle(HandleAll(m, ds[..|ds| - 1]), ds[|ds| - 1])
  }

  /** How far a session's stream handler has come. */
  datatype Stage = Created | Registered | Unregistered

  /** A session.  Its history: `start` is the agent's map when it connected, `received` what it has been sent
      so far, and `strays` the pods that have moved away from this node without a later delta to it. */
  datatype Sess = Sess(
    node: string, queue: seq<Delta>, drops: nat, closed: bool, stage: Stage, start: PodMap, received: seq<Delta>,
    strays: set<string>)
  {
    function Sent(): (ds: seq<Delta>) {
      received + queue
    }

    /** The agent's map once it has received everything in the queue. */
    function Settled(): (m: PodMap) {
      HandleAll(start, Sent())
    }
  }

  function Enqueue(s: Sess, d: Delta): (s': Sess) {
    if s.closed then s
    else if |s.queue| < QUEUE_SIZE then s.(queue := s.queue + [d], strays := s.strays - {d.spec.podUid})
    else s.(drops := s.drops + 1)
  }

  /** The dispatcher's fields and the sessions they refer to. */
  datatype Ctl<S(==)> = Ctl(
    lastSpec: map<string, Spec>, generation: map<string, nat>, sessions: map<string, S>, heap: map<S, Sess>)

  function Gen(g: map<string, nat>, uid: string): (n: nat) {
    if uid in g then g[uid] else 0
  }

  /** Send to the session registered for a node, if there is one. */
  function Send<S>(c: Ctl<S>, node: string, d: Delta): (c': Ctl<S>) {
    if node in c.sessions && c.sessions[node] in c.heap then
      c.(heap := c.heap[c.sessions[node] := Enqueue(c.heap[c.sessions[node]], d)])
    else c
  }

  /** History: the pod leaves the node of its previous spec without a delta to that node. */
  function MarkStray<S>(c: Ctl<S>, uid: string, spec: Spec): (c': Ctl<S>) {
    if uid in c.lastSpec && c.lastSpec[uid].node != spec.node && c.lastSpec[uid].node in c.sessions
       && c.sessions[c.lastSpec[uid].node] in c.heap then
      var s := c.sessions[c.lastSpec[uid].node];
      c.(heap := c.heap[s := c.heap[s].(strays := c.heap[s].strays + {uid})])
    else c
  }

  /** One pass of `Apply`'s first loop. */
  function UpsertOne<S>(c: Ctl<S>, uid: string, spec: Spec): (c': Ctl<S>) {
    if uid in c.lastSpec && c.lastSpec[uid] == spec then c else
    var gen := Gen(c.generation, uid) + 1;
    var c1 := MarkStray(c, uid, spec);
    Send(c1.(generation := c.generation[uid := gen], lastSpec := c.lastSpec[uid := spec]), spec.node, Upsert(spec, gen))
  }

  function Tombstone(uid: string, node: string): (s: Spec) {
    Spec(uid, "", "", node, 0, [], "")
  }

  /** One pass of its second loop. */
  function RemoveOne<S>(c: Ctl<S>, uid: string): (c': Ctl<S>)
    requires uid in c.lastSpec
  {
    var gen, node := Gen(c.generation, uid) + 1, c.lastSpec[uid].node;
    Send(c.(generation := c.generation[uid := gen], lastSpec := c.lastSpec - {uid}), node,
         Remove(Tombstone(uid, node), gen))
  }

  /** `RegisterSession` up to its loop: the session of the same node is closed and replaced. */
  function Install<S>(c: Ctl<S>, s: S): (c': Ctl<S>)
    requires s in c.heap
  {
    var heap := Displaced(c, s);
    c.(sessions := c.sessions[c.heap[s].node := s], heap := heap[s := heap[s].(stage := Registered)])
  }

  function Displaced<S>(c: Ctl<S>, s: S): (heap: map<S, Sess>)
    requires s in c.heap
    ensures s in heap
  {
    var node := c.heap[s].node;
    if node in c.sessions && c.sessions[node] != s && c.sessions[node] in c.heap
    then c.heap[c.sessions[node] := c.heap[c.sessions[node]].(closed := true)] else c.heap
  }

  /** One pass of that loop. */
  function ReplayOne<S>(c: Ctl<S>, s: S, uid: string): (c': Ctl<S>)
    requires s in c.heap && uid in c.lastSpec
  {
    c.(heap := c.heap[s := Enqueue(c.heap[s], Upsert(c.lastSpec[uid], Gen(c.generation, uid)))])
  }

  function Uninstall<S>(c: Ctl<S>, s: S): (c': Ctl<S>)
    requires s in c.heap
  {
    var node := c.heap[s].node;
    var c1 := c.(heap := c.heap[s := c.heap[s].(stage := Unregistered)]);
    if node in c.sessions && c.sessions[node] == s then c1.(sessions := c.sessions - {node}) else c1
  }

  // ---------- the system ----------

  /** What the holder of the dispatcher's lock is doing. */
  datatype Phase<S> =
    | Idle
    | Upserting(current: map<string, Spec>, todo: set<string>)
    | Removing(current: map<string, Spec>, todo: set<string>)
    | Replaying(s: S, todo: set<string>)

  /** `applied` is history: the argument of the last completed `Apply`. */
  datatype Sys<S(==)> = Sys(c: Ctl<S>, phase: Phase<S>, applied: map<string, Spec>)

  datatype Action<S> =
    | Connect(s: S, node: string, start: PodMap)
    | BeginRegister(s: S)
    | DoReplay(uid: string)
    | BeginApply(current: map<string, Spec>)
    | DoUpsert(uid: string)
    | BeginRemoves
    | DoRemove(uid: string)
    | Done
    | Unregister(s: S)
    | Close(s: S)
    | Receive(s: S)

  /** Specs are keyed by the UID of their own pod. */
  ghost predicate WellKeyed(m: map<string, Spec>) {
    forall uid | uid in m :: m[uid].podUid == uid
  }

  function OnNode(last: map<string, Spec>, node: string): (r: map<string, Spec>) {
    map uid | uid in last && last[uid].node == node :: last[uid]
  }

  ghost predicate Enabled<S>(st: Sys<S>, a: Action<S>) {
    match a
    case Connect(s, _, _) => s !in st.c.heap
    case BeginRegister(s) => st.phase.Idle? && s in st.c.heap && st.c.heap[s].stage == Created
    case DoReplay(uid) => st.phase.Replaying? && uid in st.phase.todo && st.phase.s in st.c.heap && uid in st.c.lastSpec
    case BeginApply(current) => st.phase.Idle? && WellKeyed(current)
    case DoUpsert(uid) => st.phase.Upserting? && uid in st.phase.todo && uid in st.phase.current
    case BeginRemoves => st.phase.Upserting? && st.phase.todo == {}
    case DoRemove(uid) => st.phase.Removing? && uid in st.phase.todo && uid in st.c.lastSpec
    case Done => (st.phase.Removing? || st.phase.Replaying?) && st.phase.todo == {}
    case Unregister(s) => st.phase.Idle? && s in st.c.heap && st.c.heap[s].stage == Registered
    case Close(s) => s in st.c.heap && st.c.heap[s].stage == Unregistered
    case Receive(s) => s in st.c.heap && st.c.heap[s].queue != []
  }

  /** Phase and table fit together: what the loops have done so far. */
  ghost predicate PhaseOk<S>(st: Sys<S>) {
    match st.phase
    case Idle => st.c.lastSpec == st.applied
    case Upserting(current, todo) =>
      && WellKeyed(current) && todo <= current.Keys
      && forall uid | uid in current && uid !in todo :: uid in st.c.lastSpec && st.c.lastSpec[uid] == current[uid]
    case Removing(current, todo) =>
      && (forall uid | uid in current :: uid in st.c.lastSpec && st.c.lastSpec[uid] == current[uid])
      && todo == st.c.lastSpec.Keys - current.Keys
    case Replaying(s, todo) =>
      && st.c.lastSpec == st.applied
      && Live(st.c, s) && todo <= OnNode(st.c.lastSpec, st.c.heap[s].node).Keys
  }

  /** `s` is the session registered for its node. */
  ghost predicate Live<S>(c: Ctl<S>, s: S) {
    s in c.heap && c.heap[s].node in c.sessions && c.sessions[c.heap[s].node] == s
  }

  ghost function Next<S>(st: Sys<S>, a: Action<S>): (st': Sys<S>)
    requires Enabled(st, a)
  {
    var c := st.c;
    match a
    case Connect(s, node, start) =>
      st.(c := c.(heap := c.heap[s := Sess(node, [], 0, false, Created, start, [], {})]))
    case BeginRegister(s) =>
      st.(c := Install(c, s), phase := Replaying(s, OnNode(c.lastSpec, c.heap[s].node).Keys))
    case DoReplay(uid) =>
      st.(c := ReplayOne(c, st.phase.s, uid), phase := Replaying(st.phase.s, st.phase.todo - {uid}))
    case BeginApply(current) => st.(phase := Upserting(current, current.Keys))
    case DoUpsert(uid) =>
      var current := st.phase.current;
      st.(c := UpsertOne(c, uid, current[uid]), phase := Upserting(current, st.phase.todo - {uid}))
    case BeginRemoves => st.(phase := Removing(st.phase.current, c.lastSpec.Keys - st.phase.current.Keys))
    case DoRemove(uid) =>
      st.(c := RemoveOne(c, uid), phase := Removing(st.phase.current, st.phase.todo - {uid}))
    case Done => st.(phase := Idle, applied := if st.phase.Removing? then st.phase.current else st.applied)
    case Unregister(s) => st.(c := Uninstall(c, s))
    case Close(s) => st.(c := c.(heap := c.heap[s := c.heap[s].(closed := true)]))
    case Receive(s) =>
      var q := c.heap[s].queue;
      st.(c := c.(heap := c.heap[s := c.heap[s].(queue := q[1..], received := c.heap[s].received + [q[0]])]))
  }

  // ---------- the invariant of one session ----------

  /** Generations strictly increase for each pod. */
  ghost predicate Increasing(ds: seq<Delta>) {
    forall i, j | 0 <= i < j < |ds| && ds[i].spec.podUid == ds[j].spec.podUid :: ds[i].gen < ds[j].gen
  }

  ghost predicate GensWithin(ds: seq<Delta>, g: map<string, nat>) {
    forall i | 0 <= i < |ds| :: ds[i].gen <= Gen(g, ds[i].spec.podUid)
  }

  ghost predicate NoneAbout(ds: seq<Delta>, uids: set<string>) {
    forall i | 0 <= i < |ds| :: ds[i].spec.podUid !in uids
  }

  /** The agent will have every pod of its node as last specified, except those still to be replayed. */
  ghost predicate Agrees(m: PodMap, want: map<string, Spec>, pend: set<string>) {
    forall uid | uid in want && uid !in pend :: uid in m && m[uid] == want[uid]
  }

  /** Beyond those it will have the strays, and otherwise only pods it had at the start. */
  ghost predicate Strangers(m: PodMap, want: map<string, Spec>, pend: set<string>, strays: set<string>, start: PodMap) {
    && (forall uid | uid in m :: (uid in want && uid !in pend) || uid in strays || uid in start)
    && (forall uid | uid in strays :: uid in m && uid !in want)
  }

  /** Each of those pods was sent as last specified, under its current generation. */
  ghost predicate AllSent(ds: seq<Delta>, want: map<string, Spec>, g: map<string, nat>, pend: set<string>) {
    forall uid | uid in want && uid !in pend :: SentNow(ds, want[uid], Gen(g, uid))
  }

  ghost predicate SentNow(ds: seq<Delta>, spec: Spec, gen: nat) {
    Upsert(spec, gen) in ds
  }

  /** Nothing was lost on the way to this session. */
  predicate Intact(s: Sess) {
    s.drops == 0
  }

  /** `want` are the specs of the session's node, `pend` the pods still to be replayed to it. */
  ghost predicate SessOk(s: Sess, want: map<string, Spec>, g: map<string, nat>, pend: set<string>, live: bool) {
    && |s.queue| <= QUEUE_SIZE
    && Increasing(s.Sent()) && GensWithin(s.Sent(), g) && NoneAbout(s.Sent(), pend)
    && (s.stage == Created ==> s.Sent() == [] && s.drops == 0 && s.strays == {} && !s.closed && !live)
    && (live ==> !s.closed && s.stage == Registered)
    && (s.stage == Registered && !live ==> s.closed)
    && (live && Intact(s) ==> Agrees(s.Settled(), want, pend) && AllSent(s.Sent(), want, g, pend))
    && (live && Intact(s) ==> Strangers(s.Settled(), want, pend, s.strays, s.start))
  }

  ghost function Pend<S>(st: Sys<S>, s: S): (uids: set<string>) {
    if st.phase.Replaying? && st.phase.s == s then st.phase.todo else {}
  }

  /** The part of the invariant about session `s`. */
  ghost predicate SessInv<S>(st: Sys<S>, s: S)
    requires s in st.c.heap
  {
    SessOk(st.c.heap[s], OnNode(st.c.lastSpec, st.c.heap[s].node), st.c.generation, Pend(st, s), Live(st.c, s))
  }

  ghost predicate Inv<S>(st: Sys<S>) {
    && PhaseOk(st)
    && WellKeyed(st.c.lastSpec)
    && SessionsOk(st.c)
    && (forall s | s in st.c.heap :: SessInv(st, s))
  }

  ghost predicate SessionsOk<S>(c: Ctl<S>) {
    forall n | n in c.sessions :: c.sessions[n] in c.heap && c.heap[c.sessions[n]].node == n
  }

  /** The invariant between calls, when no session is being replayed to. */
  ghost predicate CtlInv<S>(c: Ctl<S>) {
    && WellKeyed(c.lastSpec)
    && SessionsOk(c)
    && (forall s | s in c.heap :: SessAt(c, s))
  }

  ghost predicate SessAt<S>(c: Ctl<S>, s: S)
    requires s in c.heap
  {
    SessOk(c.heap[s], OnNode(c.lastSpec, c.heap[s].node), c.generation, {}, Live(c, s))
  }

  lemma InvOfCtl<S>(st: Sys<S>)
    requires !st.phase.Replaying? && PhaseOk(st)
    ensures Inv(st) <==> CtlInv(st.c)
  {
  }

  // ---------- what happens to one session ----------

  lemma SentSnoc(s: Sess, d: Delta)
    requires !s.closed && |s.queue| < QUEUE_SIZE
    ensures Enqueue(s, d).Sent() == s.Sent() + [d]
    ensures Enqueue(s, d).Settled() == Handle(s.Settled(), d)
  {
  }

  /** Generations may grow, and the table may change for other nodes. */
  lemma OthersKeep(s: Sess, want: map<string, Spec>, g: map<string, nat>, g': map<string, nat>, live: bool)
    requires SessOk(s, want, g, {}, live)
    requires forall uid :: Gen(g, uid) <= Gen(g', uid) && (uid in want ==> Gen(g', uid) == Gen(g, uid))
    ensures SessOk(s, want, g', {}, live)
  {
    SentStays(s.Sent(), want, want, g, g');
  }

  /** What was sent of the pods whose generation stays. */
  lemma SentStays(ds: seq<Delta>, want: map<string, Spec>, want': map<string, Spec>, g: map<string, nat>,
                  g': map<string, nat>)
    requires forall uid | uid in want' :: uid in want && want'[uid] == want[uid] && Gen(g', uid) == Gen(g, uid)
    ensures AllSent(ds, want, g, {}) ==> AllSent(ds, want', g', {})
  {
    if AllSent(ds, want, g, {}) {
      forall uid | uid in want'
        ensures SentNow(ds, want'[uid], Gen(g', uid))
      {
        assert SentNow(ds, want[uid], Gen(g, uid));
      }
    }
  }

  /** A new delta, of a generation above all earlier ones for its pod, reaches a live session. */
  lemma DeltaArrives(s: Sess, want: map<string, Spec>, want': map<string, Spec>, g: map<string, nat>, uid: string,
                     d: Delta)
    requires SessOk(s, want, g, {}, true)
    requires d.spec.podUid == uid && d.gen == Gen(g, uid) + 1
    requires want' == Handle(want, d)
    ensures SessOk(Enqueue(s, d), want', g[uid := d.gen], {}, true)
  {
    if |s.queue| < QUEUE_SIZE {
      SentSnoc(s, d);
    }
  }

  /** A pod leaves for another node: the agent keeps it as a stranger, and agrees on the rest. */
  lemma PodStrays(s: Sess, want: map<string, Spec>, g: map<string, nat>, g': map<string, nat>, uid: string, live: bool)
    requires SessOk(s, want, g, {}, live) && live && uid in want
    requires forall u :: Gen(g, u) <= Gen(g', u) && (u != uid ==> Gen(g', u) == Gen(g, u))
    ensures SessOk(s.(strays := s.strays + {uid}), want - {uid}, g', {}, live)
  {
    assert s.(strays := s.strays + {uid}).Sent() == s.Sent();
    SentStays(s.Sent(), want, want - {uid}, g, g');
  }

  lemma ReplayArrives(s: Sess, want: map<string, Spec>, g: map<string, nat>, pend: set<string>, uid: string)
    requires SessOk(s, want, g, pend, true)
    requires uid in pend && uid in want && want[uid].podUid == uid
    ensures SessOk(Enqueue(s, Upsert(want[uid], Gen(g, uid))), want, g, pend - {uid}, true)
  {
    var d := Upsert(want[uid], Gen(g, uid));
    if |s.queue| < QUEUE_SIZE {
      SentSnoc(s, d);
    }
  }

  lemma ReceiveKeeps(s: Sess)
    requires s.queue != []
    ensures s.(queue := s.queue[1..], received := s.received + [s.queue[0]]).Sent() == s.Sent()
  {
  }

  // ---------- what every step keeps ----------

  lemma ConnectKeeps<S>(st: Sys<S>, s: S, node: string, start: PodMap)
    requires Inv(st) && Enabled(st, Connect(s, node, start))
    ensures Inv(Next(st, Connect(s, node, start)))
  {
    var st' := Next(st, Connect(s, node, start));
    forall x | x in st'.c.heap
      ensures SessInv(st', x)
    {
      if x != s {
        assert SessInv(st, x);
      }
    }
  }

  lemma InstallAt<S>(c: Ctl<S>, s: S, x: S)
    requires s in c.heap && x in c.heap && SessAt(c, s) && SessAt(c, x) && SessionsOk(c) && c.heap[s].stage == Created
    ensures var c' := Install(c, s);
            var want := OnNode(c.lastSpec, c.heap[x].node);
            x in c'.heap && c'.heap[x].node == c.heap[x].node
            && SessOk(c'.heap[x], want, c.generation, if x == s then want.Keys else {}, Live(c', x))
  {
    assert Install(c, s).heap[x].Sent() == c.heap[x].Sent();
  }

  lemma RegisterKeeps<S>(st: Sys<S>, s: S)
    requires Inv(st) && Enabled(st, BeginRegister(s))
    ensures Inv(Next(st, BeginRegister(s)))
  {
    var st' := Next(st, BeginRegister(s));
    InvOfCtl(st);
    forall x | x in st'.c.heap
      ensures SessInv(st', x)
    {
      InstallAt(st.c, s, x);
    }
  }

  lemma ReplayAt<S>(c: Ctl<S>, s: S, uid: string, x: S)
    requires s in c.heap && x in c.heap && x != s && uid in c.lastSpec
    ensures var c' := ReplayOne(c, s, uid);
            x in c'.heap && c'.heap[x] == c.heap[x] && (Live(c', x) <==> Live(c, x))
            && Live(c', s) == Live(c, s) && c'.heap[s].node == c.heap[s].node
  {
  }

  lemma ReplayKeeps<S>(st: Sys<S>, uid: string)
    requires Inv(st) && Enabled(st, DoReplay(uid))
    ensures Inv(Next(st, DoReplay(uid)))
  {
    var st', s := Next(st, DoReplay(uid)), st.phase.s;
    assert SessInv(st, s);
    ReplayArrives(st.c.heap[s], OnNode(st.c.lastSpec, st.c.heap[s].node), st.c.generation, st.phase.todo, uid);
    assert SessInv(st', s);
    forall x | x in st'.c.heap && x != s
      ensures SessInv(st', x)
    {
      ReplayAt(st.c, s, uid, x);
      assert SessInv(st, x);
    }
  }

  /** `UpsertOne` on the table of one node. */
  lemma UpsertOnNode(last: map<string, Spec>, uid: string, spec: Spec, node: string)
    requires spec.podUid == uid
    ensures var want, want' := OnNode(last, node), OnNode(last[uid := spec], node);
            && (spec.node == node ==> want' == Handle(want, Upsert(spec, 0)))
            && (spec.node != node ==> want' == want - {uid})
            && (spec.node != node && !(uid in last && last[uid].node == node) ==> want' == want)
  {
  }

  ghost predicate SameShape<S>(c: Ctl<S>, c': Ctl<S>) {
    && c'.sessions == c.sessions && c'.heap.Keys == c.heap.Keys
    && forall x | x in c.heap :: c'.heap[x].node == c.heap[x].node
  }

  lemma SendEffect<S>(c: Ctl<S>, node: string, d: Delta)
    requires SessionsOk(c)
    ensures var c' := Send(c, node, d);
            && SameShape(c, c') && c'.lastSpec == c.lastSpec && c'.generation == c.generation
            && forall x | x in c.heap ::
                 c'.heap[x] == if Live(c, x) && c.heap[x].node == node then Enqueue(c.heap[x], d) else c.heap[x]
  {
  }

  lemma StrayEffect<S>(c: Ctl<S>, uid: string, spec: Spec)
    requires SessionsOk(c)
    ensures var c' := MarkStray(c, uid, spec);
            && SameShape(c, c') && c'.lastSpec == c.lastSpec && c'.generation == c.generation
            && forall x | x in c.heap :: c'.heap[x] == Strayed(c.heap[x], Live(c, x), c.lastSpec, uid, spec)
  {
  }

  /** The pod is specified on `node`, and will be on another one. */
  predicate Leaves(last: map<string, Spec>, uid: string, spec: Spec, node: string) {
    uid in last && last[uid].node == node && spec.node != node
  }

  function Strayed(sess: Sess, live: bool, last: map<string, Spec>, uid: string, spec: Spec): (sess': Sess) {
    if live && Leaves(last, uid, spec, sess.node) then sess.(strays := sess.strays + {uid}) else sess
  }

  /** What one pass of `Apply`'s first loop does: to the table, and to each session. */
  ghost predicate UpsertRel<S>(c: Ctl<S>, c': Ctl<S>, uid: string, spec: Spec) {
    var d := Upsert(spec, Gen(c.generation, uid) + 1);
    && c'.lastSpec == c.lastSpec[uid := spec] && c'.generation == c.generation[uid := d.gen]
    && c'.sessions == c.sessions && c'.heap.Keys == c.heap.Keys
    && forall x | x in c.heap ::
         c'.heap[x] == if Live(c, x) then Upserted(c.heap[x], c.lastSpec, uid, spec, d) else c.heap[x]
  }

  lemma UpsertOneRel<S>(c: Ctl<S>, uid: string, spec: Spec)
    requires SessionsOk(c) && !(uid in c.lastSpec && c.lastSpec[uid] == spec)
    ensures UpsertRel(c, UpsertOne(c, uid, spec), uid, spec)
  {
    var gen := Gen(c.generation, uid) + 1;
    StrayEffect(c, uid, spec);
    UpsertSends(c, MarkStray(c, uid, spec), uid, spec, gen);
  }

  lemma UpsertSends<S>(c: Ctl<S>, c1: Ctl<S>, uid: string, spec: Spec, gen: nat)
    requires SessionsOk(c) && SameShape(c, c1) && gen == Gen(c.generation, uid) + 1
    requires forall x | x in c.heap :: c1.heap[x] == Strayed(c.heap[x], Live(c, x), c.lastSpec, uid, spec)
    ensures var c2 := c1.(generation := c.generation[uid := gen], lastSpec := c.lastSpec[uid := spec]);
            UpsertRel(c, Send(c2, spec.node, Upsert(spec, gen)), uid, spec)
  {
    var c2 := c1.(generation := c.generation[uid := gen], lastSpec := c.lastSpec[uid := spec]);
    SendEffect(c2, spec.node, Upsert(spec, gen));
    var c3 := Send(c2, spec.node, Upsert(spec, gen));
    forall x | x in c.heap
      ensures c3.heap[x] == if Live(c, x) then Upserted(c.heap[x], c.lastSpec, uid, spec, Upsert(spec, gen))
                            else c.heap[x]
    {
      assert Live(c2, x) <==> Live(c, x);
    }
  }

  /** A live session after `d` has gone out for the pod `uid`. */
  function Upserted(sess: Sess, last: map<string, Spec>, uid: string, spec: Spec, d: Delta): (sess': Sess) {
    if sess.node == spec.node then Enqueue(sess, d)
    else if Leaves(last, uid, spec, sess.node) then sess.(strays := sess.strays + {uid})
    else sess
  }

  lemma UpsertSess(sess: Sess, last: map<string, Spec>, g: map<string, nat>, uid: string, spec: Spec, live: bool)
    requires SessOk(sess, OnNode(last, sess.node), g, {}, live) && spec.podUid == uid
    ensures var d := Upsert(spec, Gen(g, uid) + 1);
            var sess' := if live then Upserted(sess, last, uid, spec, d) else sess;
            SessOk(sess', OnNode(last[uid := spec], sess.node), g[uid := d.gen], {}, live)
  {
    var gen, want := Gen(g, uid) + 1, OnNode(last, sess.node);
    UpsertOnNode(last, uid, spec, sess.node);
    if !live {
      NotLiveKeeps(sess, want, OnNode(last[uid := spec], sess.node), g, g[uid := gen]);
    } else if sess.node == spec.node {
      DeltaArrives(sess, want, OnNode(last[uid := spec], sess.node), g, uid, Upsert(spec, gen));
    } else if uid in last && last[uid].node == sess.node {
      PodStrays(sess, want, g, g[uid := gen], uid, true);
    } else {
      OthersKeep(sess, want, g, g[uid := gen], true);
    }
  }

  lemma UpsertAt<S>(c: Ctl<S>, c': Ctl<S>, uid: string, spec: Spec, x: S)
    requires x in c.heap && x in c'.heap && SessAt(c, x) && spec.podUid == uid && Live(c', x) == Live(c, x)
    requires var d := Upsert(spec, Gen(c.generation, uid) + 1);
             && c'.lastSpec == c.lastSpec[uid := spec] && c'.generation == c.generation[uid := d.gen]
             && c'.heap[x] == if Live(c, x) then Upserted(c.heap[x], c.lastSpec, uid, spec, d) else c.heap[x]
    ensures SessAt(c', x)
  {
    UpsertSess(c.heap[x], c.lastSpec, c.generation, uid, spec, Live(c, x));
  }

  lemma SameLive<S>(c: Ctl<S>, c': Ctl<S>, uid: string, spec: Spec, x: S)
    requires UpsertRel(c, c', uid, spec) && x in c.heap
    ensures Live(c', x) == Live(c, x)
  {
  }

  lemma UpsertTable<S>(c: Ctl<S>, c': Ctl<S>, uid: string, spec: Spec)
    requires WellKeyed(c.lastSpec) && SessionsOk(c) && UpsertRel(c, c', uid, spec) && spec.podUid == uid
    ensures WellKeyed(c'.lastSpec) && SessionsOk(c')
  {
  }

  lemma UpsertRelKeeps<S>(c: Ctl<S>, c': Ctl<S>, uid: string, spec: Spec)
    requires CtlInv(c) && UpsertRel(c, c', uid, spec) && spec.podUid == uid
    ensures CtlInv(c')
  {
    UpsertTable(c, c', uid, spec);
    forall x | x in c'.heap
      ensures SessAt(c', x)
    {
      SameLive(c, c', uid, spec, x);
      UpsertAt(c, c', uid, spec, x);
    }
  }

  lemma UpsertShape<S>(c: Ctl<S>, uid: string, spec: Spec)
    requires SessionsOk(c)
    ensures SessionsOk(UpsertOne(c, uid, spec)) && UpsertOne(c, uid, spec).lastSpec == c.lastSpec[uid := spec]
  {
  }

  lemma UpsertOneKeeps<S>(c: Ctl<S>, uid: string, spec: Spec)
    requires CtlInv(c) && spec.podUid == uid
    ensures CtlInv(UpsertOne(c, uid, spec))
    ensures UpsertOne(c, uid, spec).lastSpec == c.lastSpec[uid := spec]
  {
    if !(uid in c.lastSpec && c.lastSpec[uid] == spec) {
      UpsertOneRel(c, uid, spec);
      UpsertRelKeeps(c, UpsertOne(c, uid, spec), uid, spec);
    }
  }

  lemma UpsertKeeps<S>(st: Sys<S>, uid: string)
    requires Inv(st) && Enabled(st, DoUpsert(uid))
    ensures Inv(Next(st, DoUpsert(uid)))
  {
    var spec := st.phase.current[uid];
    InvOfCtl(st);
    UpsertOneKeeps(st.c, uid, spec);
    InvOfCtl(Next(st, DoUpsert(uid)));
  }

  lemma SameSessions<S>(st: Sys<S>, st': Sys<S>)
    requires forall x | x in st.c.heap :: SessInv(st, x)
    requires st'.c == st.c && forall x | x in st.c.heap :: Pend(st', x) == Pend(st, x)
    ensures forall x | x in st'.c.heap :: SessInv(st', x)
  {
  }

  lemma NotLiveKeeps(s: Sess, want: map<string, Spec>, want': map<string, Spec>, g: map<string, nat>,
                     g': map<string, nat>)
    requires SessOk(s, want, g, {}, false)
    requires forall uid :: Gen(g, uid) <= Gen(g', uid)
    ensures SessOk(s, want', g', {}, false)
  {
  }

  ghost predicate RemoveRel<S>(c: Ctl<S>, c': Ctl<S>, uid: string)
    requires uid in c.lastSpec
  {
    var node := c.lastSpec[uid].node;
    var d := Remove(Tombstone(uid, node), Gen(c.generation, uid) + 1);
    && c'.lastSpec == c.lastSpec - {uid} && c'.generation == c.generation[uid := d.gen]
    && c'.sessions == c.sessions && c'.heap.Keys == c.heap.Keys
    && forall x | x in c.heap ::
         c'.heap[x] == if Live(c, x) && c.heap[x].node == node then Enqueue(c.heap[x], d) else c.heap[x]
  }

  lemma RemoveOneRel<S>(c: Ctl<S>, uid: string)
    requires SessionsOk(c) && uid in c.lastSpec
    ensures RemoveRel(c, RemoveOne(c, uid), uid)
  {
  }

  lemma RemoveSess(sess: Sess, last: map<string, Spec>, g: map<string, nat>, uid: string, live: bool)
    requires SessOk(sess, OnNode(last, sess.node), g, {}, live) && uid in last
    ensures var d := Remove(Tombstone(uid, last[uid].node), Gen(g, uid) + 1);
            var sess' := if live && sess.node == last[uid].node then Enqueue(sess, d) else sess;
            SessOk(sess', OnNode(last - {uid}, sess.node), g[uid := d.gen], {}, live)
  {
    var gen, want, want' := Gen(g, uid) + 1, OnNode(last, sess.node), OnNode(last - {uid}, sess.node);
    if !live {
      NotLiveKeeps(sess, want, want', g, g[uid := gen]);
    } else if sess.node == last[uid].node {
      assert want' == want - {uid};
      DeltaArrives(sess, want, want', g, uid, Remove(Tombstone(uid, last[uid].node), gen));
    } else {
      assert want' == want;
      OthersKeep(sess, want, g, g[uid := gen], true);
    }
  }

  lemma RemoveAt<S>(c: Ctl<S>, c': Ctl<S>, uid: string, x: S)
    requires x in c.heap && x in c'.heap && SessAt(c, x) && uid in c.lastSpec && Live(c', x) == Live(c, x)
    requires var node := c.lastSpec[uid].node;
             var d := Remove(Tombstone(uid, node), Gen(c.generation, uid) + 1);
             && c'.lastSpec == c.lastSpec - {uid} && c'.generation == c.generation[uid := d.gen]
             && c'.heap[x] == if Live(c, x) && c.heap[x].node == node then Enqueue(c.heap[x], d) else c.heap[x]
    ensures SessAt(c', x)
  {
    RemoveSess(c.heap[x], c.lastSpec, c.generation, uid, Live(c, x));
  }

  lemma RemoveRelKeeps<S>(c: Ctl<S>, c': Ctl<S>, uid: string)
    requires CtlInv(c) && uid in c.lastSpec && RemoveRel(c, c', uid)
    ensures CtlInv(c')
  {
    forall x | x in c'.heap
      ensures SessAt(c', x)
    {
      StillLive(c, c', uid, x);
      RemoveAt(c, c', uid, x);
    }
  }

  lemma StillLive<S>(c: Ctl<S>, c': Ctl<S>, uid: string, x: S)
    requires uid in c.lastSpec && RemoveRel(c, c', uid) && x in c.heap
    ensures Live(c', x) == Live(c, x)
  {
  }

  lemma RemoveOneKeeps<S>(c: Ctl<S>, uid: string)
    requires CtlInv(c) && uid in c.lastSpec
    ensures CtlInv(RemoveOne(c, uid)) && RemoveOne(c, uid).lastSpec == c.lastSpec - {uid}
  {
    RemoveOneRel(c, uid);
    RemoveRelKeeps(c, RemoveOne(c, uid), uid);
  }

  lemma RemoveKeeps<S>(st: Sys<S>, uid: string)
    requires Inv(st) && Enabled(st, DoRemove(uid))
    ensures Inv(Next(st, DoRemove(uid)))
  {
    InvOfCtl(st);
    RemoveOneKeeps(st.c, uid);
    InvOfCtl(Next(st, DoRemove(uid)));
  }

  /** A step that leaves what was sent as it is, takes no session live, and closes none that stays live. */
  lemma SessFrame(s: Sess, s': Sess, want: map<string, Spec>, g: map<string, nat>, pend: set<string>, live: bool,
                  live': bool)
    requires SessOk(s, want, g, pend, live)
    requires s'.Sent() == s.Sent() && s'.start == s.start && s'.drops == s.drops && s'.strays == s.strays
    requires |s'.queue| <= |s.queue| && (live' ==> live && s'.closed == s.closed && s'.stage == s.stage)
    requires s'.stage == Created ==> s.stage == Created && s'.closed == s.closed
    requires s'.stage == Registered && !live' ==> s'.closed
    ensures SessOk(s', want, g, pend, live')
  {
  }

  lemma UninstallAt<S>(c: Ctl<S>, s: S, x: S)
    requires s in c.heap && x in c.heap && SessAt(c, x) && SessionsOk(c)
    requires c.heap[s].stage == Registered
    ensures SessAt(Uninstall(c, s), x)
  {
    var c' := Uninstall(c, s);
    SessFrame(c.heap[x], c'.heap[x], OnNode(c.lastSpec, c.heap[x].node), c.generation, {}, Live(c, x), Live(c', x));
  }

  lemma UninstallKeeps<S>(c: Ctl<S>, s: S)
    requires CtlInv(c) && s in c.heap && c.heap[s].stage == Registered
    ensures CtlInv(Uninstall(c, s))
  {
    forall x | x in c.heap
      ensures SessAt(Uninstall(c, s), x)
    {
      UninstallAt(c, s, x);
    }
  }

  lemma UnregisterKeeps<S>(st: Sys<S>, s: S)
    requires Inv(st) && Enabled(st, Unregister(s))
    ensures Inv(Next(st, Unregister(s)))
  {
    InvOfCtl(st);
    UninstallKeeps(st.c, s);
    InvOfCtl(Next(st, Unregister(s)));
  }

  lemma CloseKeeps<S>(st: Sys<S>, s: S)
    requires Inv(st) && Enabled(st, Close(s))
    ensures Inv(Next(st, Close(s)))
  {
    var st' := Next(st, Close(s));
    assert SessInv(st, s);
    forall x | x in st'.c.heap
      ensures SessInv(st', x)
    {
      assert SessInv(st, x);
      SessFrame(st.c.heap[x], st'.c.heap[x], OnNode(st.c.lastSpec, st.c.heap[x].node), st.c.generation, Pend(st, x),
                Live(st.c, x), Live(st'.c, x));
    }
  }

  lemma ReceiveStepKeeps<S>(st: Sys<S>, s: S)
    requires Inv(st) && Enabled(st, Receive(s))
    ensures Inv(Next(st, Receive(s)))
  {
    var st' := Next(st, Receive(s));
    ReceiveKeeps(st.c.heap[s]);
    forall x | x in st'.c.heap
      ensures SessInv(st', x)
    {
      assert SessInv(st, x);
      SessFrame(st.c.heap[x], st'.c.heap[x], OnNode(st.c.lastSpec, st.c.heap[x].node), st.c.generation, Pend(st, x),
                Live(st.c, x), Live(st'.c, x));
    }
  }

  lemma PhaseStepKeeps<S>(st: Sys<S>, a: Action<S>)
    requires Inv(st) && Enabled(st, a) && (a.BeginApply? || a.BeginRemoves? || a.Done?)
    ensures Inv(Next(st, a))
  {
    var st' := Next(st, a);
    SameSessions(st, st');
    if a.Done? && st.phase.Removing? {
      forall uid | uid in st.c.lastSpec
        ensures uid in st.phase.current
      {
        assert uid !in st.c.lastSpec.Keys - st.phase.current.Keys;
      }
      assert st.c.lastSpec == st.phase.current;
    }
  }

  lemma StepKeeps<S>(st: Sys<S>, a: Action<S>)
    requires Inv(st) && Enabled(st, a)
    ensures Inv(Next(st, a))
  {
    match a
    case Connect(s, node, start) => ConnectKeeps(st, s, node, start);
    case BeginRegister(s) => RegisterKeeps(st, s);
    case DoReplay(uid) => ReplayKeeps(st, uid);
    case DoUpsert(uid) => UpsertKeeps(st, uid);
    case DoRemove(uid) => RemoveKeeps(st, uid);
    case BeginApply(_) => PhaseStepKeeps(st, a);
    case BeginRemoves => PhaseStepKeeps(st, a);
    case Done => PhaseStepKeeps(st, a);
    case Unregister(s) => UnregisterKeeps(st, s);
    case Close(s) => CloseKeeps(st, s);
    case Receive(s) => ReceiveStepKeeps(st, s);
  }

  /** The loops of `Apply` and `RegisterSession` can always take their next key. */
  lemma LoopsGoOn<S>(st: Sys<S>, uid: string)
    requires Inv(st) && !st.phase.Idle? && uid in st.phase.todo
    ensures Enabled(st, match st.phase { case Upserting(_, _) => DoUpsert(uid) case Removing(_, _) => DoRemove(uid)
                                         case Replaying(_, _) => DoReplay(uid) })
  {
  }

  /** `Settled` is the queue folded into the map the agent has now. */
  lemma {:induction false} QueueOnAgent(s: Sess)
    ensures s.Settled() == HandleAll(HandleAll(s.start, s.received), s.queue)
    decreases |s.queue|
  {
    var n := |s.queue|;
    if n == 0 {
      assert s.Sent() == s.received;
    } else {
      var rest := s.(queue := s.queue[..n - 1]);
      QueueOnAgent(rest);
      assert s.Sent()[..|s.Sent()| - 1] == rest.Sent();
    }
  }

  // ---------- all runs ----------

  function Initial<S(==)>(): (st: Sys<S>) {
    Sys(Ctl(map[], map[], map[], map[]), Idle, map[])
  }

  ghost predicate IsRun<S>(st: Sys<S>, run: seq<Action<S>>)
    decreases |run|
  {
    run == [] || (Enabled(st, run[0]) && IsRun(Next(st, run[0]), run[1..]))
  }

  ghost function RunTo<S>(st: Sys<S>, run: seq<Action<S>>): (st': Sys<S>)
    requires IsRun(st, run)
    decreases |run|
  {
    if run == [] then st else RunTo(Next(st, run[0]), run[1..])
  }

  lemma {:induction false} RunKeeps<S>(st: Sys<S>, run: seq<Action<S>>)
    requires Inv(st) && IsRun(st, run)
    ensures Inv(RunTo(st, run))
    decreases |run|
  {
    if run != [] {
      StepKeeps(st, run[0]);
      RunKeeps(Next(st, run[0]), run[1..]);
    }
  }

  /** In every reachable state each registered session is open, so no delta is ever sent on a closed queue, and
      the generations of a pod strictly increase within the session. */
  lemma RegisteredIsOpen<S>(run: seq<Action<S>>, node: string)
    requires IsRun(Initial(), run) && node in RunTo(Initial(), run).c.sessions
    ensures var c := RunTo(Initial(), run).c;
            && c.sessions[node] in c.heap && c.heap[c.sessions[node]].node == node
            && !c.heap[c.sessions[node]].closed && Increasing(c.heap[c.sessions[node]].Sent())
  {
    RunKeeps(Initial(), run);
    var st := RunTo(Initial(), run);
    assert SessInv(st, st.c.sessions[node]);
  }

  /** A session that another one has displaced is closed: in every reachable state, of the sessions of a node that have
      registered and not unregistered, all but the one in the table are closed. */
  lemma DisplacedIsClosed<S>(run: seq<Action<S>>, s: S)
    requires IsRun(Initial(), run) && s in RunTo(Initial(), run).c.heap
    ensures var c := RunTo(Initial(), run).c;
            c.heap[s].stage == Registered ==>
              (c.heap[s].closed <==> !(c.heap[s].node in c.sessions && c.sessions[c.heap[s].node] == s))
  {
    RunKeeps(Initial(), run);
    assert SessInv(RunTo(Initial(), run), s);
  }

  /** So at most one of them is open. */
  lemma OneOpenPerNode<S>(run: seq<Action<S>>, s: S, s': S)
    requires IsRun(Initial(), run) && s in RunTo(Initial(), run).c.heap && s' in RunTo(Initial(), run).c.heap
    requires var heap := RunTo(Initial(), run).c.heap;
             && heap[s].stage == Registered && !heap[s].closed
             && heap[s'].stage == Registered && !heap[s'].closed && heap[s'].node == heap[s].node
    ensures s == s'
  {
    DisplacedIsClosed(run, s);
    DisplacedIsClosed(run, s');
  }

  /** The law of the delta protocol.  Between calls, an agent whose session dropped nothing is bound to have every
      pod last applied to its node; and if it started empty it will have exactly those and the strays. */
  lemma DeltasConverge<S>(run: seq<Action<S>>, node: string)
    requires IsRun(Initial(), run)
    ensures var st := RunTo(Initial(), run);
            st.phase.Idle? && node in st.c.sessions ==>
              && st.c.sessions[node] in st.c.heap
              && var sess, want := st.c.heap[st.c.sessions[node]], OnNode(st.applied, node);
              (sess.drops == 0 ==>
                && Agrees(sess.Settled(), want, {}) && AllSent(sess.Sent(), want, st.c.generation, {})
                && (sess.start == map[] ==>
                      && sess.Settled().Keys == want.Keys + sess.strays
                      && (sess.Settled() == want <==> sess.strays == {})))
  {
    RunKeeps(Initial(), run);
    var st := RunTo(Initial(), run);
    if st.phase.Idle? && node in st.c.sessions {
      SettledKeys(st, st.c.sessions[node]);
    }
  }

  lemma SettledKeys<S>(st: Sys<S>, s: S)
    requires Inv(st) && st.phase.Idle? && Live(st.c, s)
    ensures var sess, want := st.c.heap[s], OnNode(st.applied, st.c.heap[s].node);
            sess.drops == 0 ==>
              && Agrees(sess.Settled(), want, {}) && AllSent(sess.Sent(), want, st.c.generation, {})
              && (sess.start == map[] ==>
                    && sess.Settled().Keys == want.Keys + sess.strays
                    && (sess.Settled() == want <==> sess.strays == {}))
  {
    assert SessInv(st, s);
    var sess, want := st.c.heap[s], OnNode(st.applied, st.c.heap[s].node);
    if sess.drops == 0 && sess.start == map[] {
      WantedAndStrays(sess.Settled(), want, sess.strays);
    }
  }

  lemma WantedAndStrays(m: PodMap, want: map<string, Spec>, strays: set<string>)
    requires Agrees(m, want, {}) && Strangers(m, want, {}, strays, map[])
    ensures m.Keys == want.Keys + strays && (m == want <==> strays == {})
  {
  }

  // ---------- the documented generation check ----------

  /** The agent the dispatcher's documentation describes: it ignores a delta whose generation is not above the last
      one it has seen for the pod.  `handle` makes no such check. */
  predicate Stale(seen: map<string, nat>, d: Delta) {
    d.spec.podUid in seen && d.gen <= seen[d.spec.podUid]
  }

  function HandleNewer(m: PodMap, seen: map<string, nat>, ds: seq<Delta>): (m': PodMap)
    decreases |ds|
  {
    if ds == [] then m
    else if Stale(seen, ds[0]) then HandleNewer(m, seen, ds[1..])
    else HandleNewer(Handle(m, ds[0]), seen[ds[0].spec.podUid := ds[0].gen], ds[1..])
  }

  /** How many deltas it ignores; that there are none is what matters. */
  function Ignored(seen: map<string, nat>, ds: seq<Delta>): (n: nat)
    decreases |ds|
  {
    if ds == [] then 0
    else if Stale(seen, ds[0]) then 1 + Ignored(seen, ds[1..])
    else Ignored(seen[ds[0].spec.podUid := ds[0].gen], ds[1..])
  }

  /** For each pod the generations strictly increase, from the last one seen on. */
  ghost predicate IncreasingFrom(seen: map<string, nat>, ds: seq<Delta>) {
    Increasing(ds) && forall i | 0 <= i < |ds| :: !Stale(seen, ds[i])
  }

  lemma IncreasingFromTail(seen: map<string, nat>, ds: seq<Delta>)
    requires ds != []
    ensures var seen' := seen[ds[0].spec.podUid := ds[0].gen];
            IncreasingFrom(seen, ds) <==> !Stale(seen, ds[0]) && IncreasingFrom(seen', ds[1..])
  {
    var d, rest := ds[0], ds[1..];
    var seen' := seen[d.spec.podUid := d.gen];
    assert forall i | 0 <= i < |rest| :: rest[i] == ds[i + 1];
    if !Stale(seen, d) && IncreasingFrom(seen', rest) {
      forall i, j | 0 <= i < j < |ds| && ds[i].spec.podUid == ds[j].spec.podUid
        ensures ds[i].gen < ds[j].gen
      {
        assert !Stale(seen', rest[j - 1]);
        if i > 0 {
          assert rest[i - 1].gen < rest[j - 1].gen;
        }
      }
      forall i | 0 <= i < |ds|
        ensures !Stale(seen, ds[i])
      {
        if i > 0 {
          assert !Stale(seen', rest[i - 1]);
        }
      }
    }
    if IncreasingFrom(seen, ds) {
      forall i | 0 <= i < |rest|
        ensures !Stale(seen', rest[i])
      {
        assert !Stale(seen, ds[i + 1]);
        assert ds[0].spec.podUid == ds[i + 1].spec.podUid ==> ds[0].gen < ds[i + 1].gen;
      }
    }
  }

  /** The check ignores nothing if and only if, for each pod, generations strictly increase from the last one seen. */
  lemma {:induction false} NoneIgnoredIff(seen: map<string, nat>, ds: seq<Delta>)
    ensures Ignored(seen, ds) == 0 <==> IncreasingFrom(seen, ds)
    decreases |ds|
  {
    if ds != [] {
      IncreasingFromTail(seen, ds);
      NoneIgnoredIff(seen[ds[0].spec.podUid := ds[0].gen], ds[1..]);
    }
  }

  lemma {:induction false} HandleAllCons(m: PodMap, ds: seq<Delta>)
    requires ds != []
    ensures HandleAll(m, ds) == HandleAll(Handle(m, ds[0]), ds[1..])
    decreases |ds|
  {
    var n := |ds| - 1;
    if n > 0 {
      HandleAllCons(m, ds[..n]);
      assert ds[..n][1..] == ds[1..][..n - 1];
    } else {
      assert HandleAll(m, ds[..0]) == m;
    }
  }

  /** If it ignores nothing it behaves as the agent that makes no check. */
  lemma {:induction false} CheckNeverFires(m: PodMap, seen: map<string, nat>, ds: seq<Delta>)
    requires IncreasingFrom(seen, ds)
    ensures HandleNewer(m, seen, ds) == HandleAll(m, ds)
    decreases |ds|
  {
    if ds != [] {
      IncreasingFromTail(seen, ds);
      HandleAllCons(m, ds);
      CheckNeverFires(Handle(m, ds[0]), seen[ds[0].spec.podUid := ds[0].gen], ds[1..]);
    }
  }

  /** So within one session of an agent that has seen nothing, in every run, the check makes no difference. */
  lemma SessionNeedsNoCheck<S>(run: seq<Action<S>>, node: string)
    requires IsRun(Initial(), run) && node in RunTo(Initial(), run).c.sessions
    ensures var c := RunTo(Initial(), run).c;
            && c.sessions[node] in c.heap
            && var s := c.heap[c.sessions[node]];
            HandleNewer(s.start, map[], s.Sent()) == s.Settled() && Ignored(map[], s.Sent()) == 0
  {
    RegisteredIsOpen(run, node);
    var s := RunTo(Initial(), run).c.heap[RunTo(Initial(), run).c.sessions[node]];
    NoneIgnoredIff(map[], s.Sent());
    CheckNeverFires(s.start, map[], s.Sent());
  }

  // ---------- particular runs ----------

  lemma RunCons<S>(st: Sys<S>, a: Action<S>, run: seq<Action<S>>)
    requires Enabled(st, a) && IsRun(Next(st, a), run)
    ensures IsRun(st, [a] + run) && RunTo(st, [a] + run) == RunTo(Next(st, a), run)
  {
    assert ([a] + run)[0] == a && ([a] + run)[1..] == run;
  }

  lemma {:induction false} RunConcat<S>(st: Sys<S>, a: seq<Action<S>>, b: seq<Action<S>>)
    requires IsRun(st, a) && IsRun(RunTo(st, a), b)
    ensures IsRun(st, a + b) && RunTo(st, a + b) == RunTo(RunTo(st, a), b)
    decreases |a|
  {
    if a == [] {
      assert a + b == b;
    } else {
      RunConcat(Next(st, a[0]), a[1..], b);
      RunCons(st, a[0], a[1..] + b);
      assert a + b == [a[0]] + (a[1..] + b);
    }
  }

  /** A session connects and is registered. */
  function Registering<S>(s: S, node: string, start: PodMap): (run: seq<Action<S>>) {
    [Connect(s, node, start)] + ([BeginRegister(s)] + ([Done] + []))
  }

  lemma Registers<S>(s: S, node: string, start: PodMap)
    ensures IsRun(Initial(), Registering(s, node, start))
    ensures RunTo(Initial(), Registering(s, node, start)) ==
            Sys(Ctl(map[], map[], map[node := s], map[s := Sess(node, [], 0, false, Registered, start, [], {})]), Idle,
                map[])
  {
    var st1 := Next(Initial(), Connect(s, node, start));
    var st2 := Next(st1, BeginRegister(s));
    assert st2.phase.todo == {};
    RunCons(st2, Done, []);
    RunCons(st1, BeginRegister(s), [Done] + []);
    RunCons(Initial(), Connect(s, node, start), [BeginRegister(s)] + ([Done] + []));
  }

  /** An `Apply` with one pod. */
  function Applying<S>(uid: string, spec: Spec): (run: seq<Action<S>>) {
    [BeginApply(map[uid := spec])] + ([DoUpsert(uid)] + ([BeginRemoves] + ([Done] + [])))
  }

  lemma Applies<S>(st: Sys<S>, uid: string, spec: Spec)
    requires st.phase.Idle? && st.c.lastSpec.Keys <= {uid} && spec.podUid == uid
    ensures IsRun(st, Applying(uid, spec))
    ensures RunTo(st, Applying(uid, spec)) == Sys(UpsertOne(st.c, uid, spec), Idle, map[uid := spec])
  {
    var current := map[uid := spec];
    var st1 := Next(st, BeginApply(current));
    var st2 := Next(st1, DoUpsert(uid));
    OnlyPod(st.c, uid, spec);
    var st3 := Next(st2, BeginRemoves);
    assert st3.phase.todo == {};
    RunCons(st3, Done, []);
    RunCons(st2, BeginRemoves, [Done] + []);
    RunCons(st1, DoUpsert(uid), [BeginRemoves] + ([Done] + []));
    RunCons(st, BeginApply(current), [DoUpsert(uid)] + ([BeginRemoves] + ([Done] + [])));
  }

  lemma OnlyPod<S>(c: Ctl<S>, uid: string, spec: Spec)
    requires c.lastSpec.Keys <= {uid}
    ensures UpsertOne(c, uid, spec).lastSpec == map[uid := spec]
  {
  }

  /** The first controller of `RestartWouldBeIgnored`: a pod is applied, and applied again after a change. */
  function Twice<S>(s: S, uid: string, one: Spec, two: Spec): (run: seq<Action<S>>) {
    Registering(s, one.node, map[]) + (Applying(uid, one) + Applying(uid, two))
  }

  lemma RunsTwice<S>(s: S, uid: string, one: Spec, two: Spec)
    requires one.podUid == uid && two.podUid == uid
    ensures IsRun(Initial(), Twice(s, uid, one, two))
    ensures var c := Ctl(map[], map[], map[one.node := s],
                         map[s := Sess(one.node, [], 0, false, Registered, map[], [], {})]);
            RunTo(Initial(), Twice(s, uid, one, two)) ==
            Sys(UpsertOne(UpsertOne(c, uid, one), uid, two), Idle, map[uid := two])
  {
    Registers(s, one.node, map[]);
    var st1 := RunTo(Initial(), Registering(s, one.node, map[]));
    Applies(st1, uid, one);
    OnlyPod(st1.c, uid, one);
    Applies(RunTo(st1, Applying(uid, one)), uid, two);
    RunConcat(st1, Applying(uid, one), Applying(uid, two));
    RunConcat(Initial(), Registering(s, one.node, map[]), Applying(uid, one) + Applying(uid, two));
  }

  lemma {:induction false} UpsertFresh<S>(s: S, uid: string, spec: Spec, start: PodMap)
    ensures var sess := Sess(spec.node, [], 0, false, Registered, start, [], {});
            UpsertOne(Ctl(map[], map[], map[spec.node := s], map[s := sess]), uid, spec) ==
            Ctl(map[uid := spec], map[uid := 1], map[spec.node := s], map[s := Enqueue(sess, Upsert(spec, 1))])
  {
  }

  lemma SentOne(sess: Sess, d: Delta)
    requires !sess.closed && sess.queue == [] && sess.received == []
    ensures Enqueue(sess, d).Sent() == [d] && Enqueue(sess, d).Settled() == Handle(sess.start, d)
  {
    SentSnoc(sess, d);
    assert sess.Sent() == [];
  }

  /** What the two applications send to the session. */
  lemma SessionTwice<S>(s: S, uid: string, one: Spec, two: Spec)
    requires one.podUid == uid && two.podUid == uid && one.node == two.node && one != two
    ensures IsRun(Initial(), Twice(s, uid, one, two))
    ensures var c := RunTo(Initial(), Twice(s, uid, one, two)).c;
            && Live(c, s) && c.heap[s].drops == 0
            && c.heap[s].Sent() == [Upsert(one, 1)] + [Upsert(two, 2)] && c.heap[s].Settled() == map[uid := two]
  {
    RunsTwice(s, uid, one, two);
    UpsertFresh(s, uid, one, map[]);
    TwiceEnqueued(Sess(one.node, [], 0, false, Registered, map[], [], {}), uid, Upsert(one, 1), Upsert(two, 2));
  }

  /** What one application sends to the session of an agent that has at most that pod. */
  lemma SessionOnce<S>(s: S, uid: string, spec: Spec, start: PodMap)
    requires spec.podUid == uid && start.Keys <= {uid}
    ensures var run := Registering(s, spec.node, start) + Applying(uid, spec);
            && IsRun(Initial(), run)
            && var c := RunTo(Initial(), run).c;
            && Live(c, s) && c.heap[s].drops == 0
            && c.heap[s].Sent() == [Upsert(spec, 1)] && c.heap[s].Settled() == map[uid := spec]
  {
    RunsOnce(s, uid, spec, start);
    var sess := Sess(spec.node, [], 0, false, Registered, start, [], {});
    SentOne(sess, Upsert(spec, 1));
    assert Handle(start, Upsert(spec, 1)) == map[uid := spec];
    OneLive(Ctl(map[uid := spec], map[uid := 1], map[spec.node := s], map[s := Enqueue(sess, Upsert(spec, 1))]), s);
  }

  lemma OneLive<S>(c: Ctl<S>, s: S)
    requires s in c.heap && c.sessions == map[c.heap[s].node := s]
    ensures Live(c, s)
  {
  }

  /** An `Apply` without pods. */
  function Emptying<S>(uid: string): (run: seq<Action<S>>) {
    [BeginApply(map[])] + ([BeginRemoves] + ([DoRemove(uid)] + ([Done] + [])))
  }

  lemma Empties<S>(st: Sys<S>, uid: string)
    requires st.phase.Idle? && st.c.lastSpec.Keys == {uid}
    ensures IsRun(st, Emptying(uid))
    ensures RunTo(st, Emptying(uid)) == Sys(RemoveOne(st.c, uid), Idle, map[])
  {
    var st1 := Next(st, BeginApply(map[]));
    var st2 := Next(st1, BeginRemoves);
    assert st2.phase.todo == {uid};
    var st3 := Next(st2, DoRemove(uid));
    RunCons(st3, Done, []);
    RunCons(st2, DoRemove(uid), [Done] + []);
    RunCons(st1, BeginRemoves, [DoRemove(uid)] + ([Done] + []));
    RunCons(st, BeginApply(map[]), [BeginRemoves] + ([DoRemove(uid)] + ([Done] + [])));
  }

  /** A pod that is applied and then no longer is: its node is sent a removal with the pod's UID and node, and nothing
      else, under the next generation. */
  lemma RemovalIsSent<S>(s: S, uid: string, spec: Spec)
    requires spec.podUid == uid
    ensures var run := (Registering(s, spec.node, map[]) + Applying(uid, spec)) + Emptying(uid);
            && IsRun(Initial(), run)
            && var c := RunTo(Initial(), run).c;
            && s in c.heap && c.lastSpec == map[] && c.heap[s].Settled() == map[]
            && c.heap[s].Sent() == [Upsert(spec, 1)] + [Remove(Spec(uid, "", "", spec.node, 0, [], ""), 2)]
  {
    var sess := Enqueue(Sess(spec.node, [], 0, false, Registered, map[], [], {}), Upsert(spec, 1));
    RunsAway(s, uid, spec);
    RemoveFresh(s, uid, spec, sess);
    SentThenRemoved(uid, spec);
  }

  lemma RunsAway<S>(s: S, uid: string, spec: Spec)
    requires spec.podUid == uid
    ensures var run := (Registering(s, spec.node, map[]) + Applying(uid, spec)) + Emptying(uid);
            var sess := Enqueue(Sess(spec.node, [], 0, false, Registered, map[], [], {}), Upsert(spec, 1));
            && IsRun(Initial(), run)
            && RunTo(Initial(), run).c ==
               RemoveOne(Ctl(map[uid := spec], map[uid := 1], map[spec.node := s], map[s := sess]), uid)
  {
    var run := Registering(s, spec.node, map[]) + Applying(uid, spec);
    RunsOnce(s, uid, spec, map[]);
    Empties(RunTo(Initial(), run), uid);
    RunConcat(Initial(), run, Emptying(uid));
  }

  lemma {:induction false} RemoveFresh<S>(s: S, uid: string, spec: Spec, sess: Sess)
    ensures RemoveOne(Ctl(map[uid := spec], map[uid := 1], map[spec.node := s], map[s := sess]), uid) ==
            Ctl(map[], map[uid := 2], map[spec.node := s],
                map[s := Enqueue(sess, Remove(Spec(uid, "", "", spec.node, 0, [], ""), 2))])
  {
    assert map[uid := spec] - {uid} == map[];
  }

  lemma SentThenRemoved(uid: string, spec: Spec)
    requires spec.podUid == uid
    ensures var gone := Remove(Spec(uid, "", "", spec.node, 0, [], ""), 2);
            var first := Sess(spec.node, [], 0, false, Registered, map[], [], {});
            var sess := Enqueue(Enqueue(first, Upsert(spec, 1)), gone);
            sess.Sent() == [Upsert(spec, 1)] + [gone] && sess.Settled() == map[]
  {
    var first, gone := Sess(spec.node, [], 0, false, Registered, map[], [], {}), Remove(Tombstone(uid, spec.node), 2);
    SentOne(first, Upsert(spec, 1));
    SentSnoc(Enqueue(first, Upsert(spec, 1)), gone);
    assert Handle(map[], Upsert(spec, 1)) - {uid} == map[];
  }

  /** Across sessions it does.  A controller applies a pod twice; it restarts, and applies the pod's first spec again.
      It counts from 1 again, so the agent of the documentation, which has seen generation 2, would ignore the spec and
      keep the old one; the real agent takes it. */
  lemma RestartWouldBeIgnored<S>(s: S, uid: string, one: Spec, two: Spec)
    requires one.podUid == uid && two.podUid == uid && one.node == two.node && one != two
    ensures IsRun(Initial(), Twice(s, uid, one, two))
    ensures var c := RunTo(Initial(), Twice(s, uid, one, two)).c;
            && Live(c, s) && c.heap[s].drops == 0
            && var before := c.heap[s];
            var again := Registering(s, one.node, before.Settled()) + Applying(uid, one);
            && IsRun(Initial(), again)
            && var c' := RunTo(Initial(), again).c;
            && Live(c', s) && c'.heap[s].drops == 0
            && c'.heap[s].Settled() == map[uid := one]
            && HandleNewer(map[], map[], before.Sent() + c'.heap[s].Sent()) == map[uid := two]
  {
    SessionTwice(s, uid, one, two);
    SessionOnce(s, uid, one, map[uid := two]);
    ThirdIgnored(uid, Upsert(one, 1), Upsert(two, 2));
    var d1, d2 := Upsert(one, 1), Upsert(two, 2);
    assert [d1] + [d2] + [d1] == [d1, d2, d1];
  }

  lemma TwiceEnqueued(sess: Sess, uid: string, d1: Delta, d2: Delta)
    requires !sess.closed && sess.queue == [] && sess.received == [] && sess.start == map[]
    requires d1.Upsert? && d2.Upsert? && d1.spec.podUid == uid && d2.spec.podUid == uid
    ensures var s := Enqueue(Enqueue(sess, d1), d2);
            s.Sent() == [d1] + [d2] && s.Settled() == map[uid := d2.spec] && s.drops == sess.drops
  {
    SentOne(sess, d1);
    OneMoreEnqueued(Enqueue(sess, d1), uid, d1, d2);
  }

  lemma OneMoreEnqueued(sess: Sess, uid: string, d1: Delta, d2: Delta)
    requires !sess.closed && |sess.queue| < QUEUE_SIZE && d2.Upsert? && d2.spec.podUid == uid
    requires sess.Sent() == [d1] && sess.Settled().Keys <= {uid}
    ensures var s := Enqueue(sess, d2);
            s.Sent() == [d1] + [d2] && s.Settled() == map[uid := d2.spec] && s.drops == sess.drops
  {
    SentSnoc(sess, d2);
    OnlyPodHandled(sess.Settled(), uid, d2);
  }

  lemma OnlyPodHandled(m: PodMap, uid: string, d: Delta)
    requires m.Keys <= {uid} && d.Upsert? && d.spec.podUid == uid
    ensures Handle(m, d) == map[uid := d.spec]
  {
  }

  lemma RunsOnce<S>(s: S, uid: string, spec: Spec, start: PodMap)
    requires spec.podUid == uid
    ensures var run := Registering(s, spec.node, start) + Applying(uid, spec);
            && IsRun(Initial(), run) && RunTo(Initial(), run).phase.Idle?
            && RunTo(Initial(), run).c ==
               Ctl(map[uid := spec], map[uid := 1], map[spec.node := s],
                   map[s := Enqueue(Sess(spec.node, [], 0, false, Registered, start, [], {}), Upsert(spec, 1))])
  {
    Registers(s, spec.node, start);
    var st1 := RunTo(Initial(), Registering(s, spec.node, start));
    Applies(st1, uid, spec);
    RunConcat(Initial(), Registering(s, spec.node, start), Applying(uid, spec));
    UpsertFresh(s, uid, spec, start);
  }

  lemma ThirdIgnored(uid: string, d1: Delta, d2: Delta)
    requires d1.Upsert? && d2.Upsert? && d1.spec.podUid == uid && d2.spec.podUid == uid && 0 < d1.gen < d2.gen
    ensures HandleNewer(map[], map[], [d1, d2, d1]) == map[uid := d2.spec]
  {
    var m1: PodMap, m2: PodMap := map[uid := d1.spec], map[uid := d2.spec];
    assert Handle(map[], d1) == m1 && Handle(m1, d2) == m2;
    assert [d1, d2, d1][1..] == [d2, d1] && [d2, d1][1..] == [d1] && [d1][1..] == [];
    assert map[uid := d1.gen][uid := d2.gen] == map[uid := d2.gen];
    assert HandleNewer(m2, map[uid := d2.gen], [d1]) == m2;
    assert HandleNewer(m1, map[uid := d1.gen], [d2, d1]) == m2;
  }

  // ---------- when the protocol is exact ----------

  /** The agent behind session `s` is bound to have exactly the specs of its node. */
  ghost predicate Exact<S>(c: Ctl<S>, s: S)
    requires s in c.heap
  {
    c.heap[s].Settled() == OnNode(c.lastSpec, c.heap[s].node)
  }

  /** A pod that is applied to one node and then to another stays with the agent of the first, which is sent nothing
      about it. */
  lemma MovedPodLingers<S>(s: S, uid: string, was: Spec, now: Spec)
    requires was.podUid == uid && now.podUid == uid && was.node != now.node
    ensures IsRun(Initial(), Twice(s, uid, was, now))
    ensures var st := RunTo(Initial(), Twice(s, uid, was, now));
            && st.phase.Idle? && Live(st.c, s) && st.c.heap[s].node == was.node && st.c.heap[s].drops == 0
            && OnNode(st.applied, was.node) == map[] && st.c.heap[s].Settled() == map[uid := was]
  {
    RunsTwice(s, uid, was, now);
    UpsertFresh(s, uid, was, map[]);
    var sess := Sess(was.node, [], 0, false, Registered, map[], [], {});
    var sess1 := Enqueue(sess, Upsert(was, 1));
    SentOne(sess, Upsert(was, 1));
    var c1 := Ctl(map[uid := was], map[uid := 1], map[was.node := s], map[s := sess1]);
    assert UpsertOne(c1, uid, now).heap[s] == sess1.(strays := sess1.strays + {uid});
    assert sess1.(strays := sess1.strays + {uid}).Settled() == sess1.Settled();
  }
}
