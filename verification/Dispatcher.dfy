/** `Session` and `Dispatcher` as the objects they are, proved against the steps of `ControlPlane`.  A whole call
    is the fold of its steps over the order in which Go's `range` happened to visit the map. */
module Dispatcher {
  import opened MapRange
  import opened ControlPlane

  // ---------- whole calls ----------

  /** `Apply`'s first loop over `order`. */
  function UpsertAll<S>(c: Ctl<S>, current: map<string, Spec>, order: seq<string>): (c': Ctl<S>)
    requires forall uid | uid in order :: uid in current
  {
    if order == [] then c else
    var n := |order| - 1;
    UpsertOne(UpsertAll(c, current, order[..n]), order[n], current[order[n]])
  }

  /** Its second loop: a key is visited while it is still in the table. */
  function RemoveAll<S>(c: Ctl<S>, order: seq<string>): (c': Ctl<S>) {
    if order == [] then c else
    var n := |order| - 1;
    var c1 := RemoveAll(c, order[..n]);
    if order[n] in c1.lastSpec then RemoveOne(c1, order[n]) else c1
  }

  lemma {:induction false} RemoveAllLast<S>(c: Ctl<S>, order: seq<string>, gone: set<string>)
    requires Enumerates(order, gone)
    ensures RemoveAll(c, order).lastSpec == c.lastSpec - gone
  {
    if order == [] {
      assert gone == {};
    } else {
      var n := |order| - 1;
      EnumeratesInit(order, gone);
      RemoveAllLast(c, order[..n], gone - {order[n]});
    }
  }

  function ReplayAll<S>(c: Ctl<S>, s: S, order: seq<string>): (c': Ctl<S>)
    requires s in c.heap
    ensures c'.heap.Keys == c.heap.Keys && c'.lastSpec == c.lastSpec
  {
    if order == [] then c else
    var n := |order| - 1;
    var c1 := ReplayAll(c, s, order[..n]);
    if order[n] in c1.lastSpec then ReplayOne(c1, s, order[n]) else c1
  }

  lemma {:induction false} UpsertAllKeeps<S>(c: Ctl<S>, current: map<string, Spec>, order: seq<string>)
    requires CtlInv(c) && WellKeyed(current) && forall uid | uid in order :: uid in current
    ensures CtlInv(UpsertAll(c, current, order))
  {
    if order != [] {
      var n := |order| - 1;
      UpsertAllKeeps(c, current, order[..n]);
      UpsertOneKeeps(UpsertAll(c, current, order[..n]), order[n], current[order[n]]);
    }
  }

  lemma {:induction false} UpsertAllAt<S>(c: Ctl<S>, current: map<string, Spec>, order: seq<string>, uid: string)
    requires CtlInv(c) && WellKeyed(current) && forall u | u in order :: u in current
    ensures var last := UpsertAll(c, current, order).lastSpec;
            if uid in order then uid in last && last[uid] == current[uid]
            else (uid in last <==> uid in c.lastSpec) && (uid in last ==> last[uid] == c.lastSpec[uid])
  {
    if order != [] {
      var n := |order| - 1;
      assert order == order[..n] + [order[n]];
      UpsertAllAt(c, current, order[..n], uid);
      UpsertAllKeeps(c, current, order[..n]);
      UpsertOneKeeps(UpsertAll(c, current, order[..n]), order[n], current[order[n]]);
    }
  }

  lemma UpsertAllLast<S>(c: Ctl<S>, current: map<string, Spec>, order: seq<string>)
    requires CtlInv(c) && WellKeyed(current) && Enumerates(order, current.Keys)
    ensures UpsertAll(c, current, order).lastSpec == c.lastSpec + current
  {
    forall uid
      ensures uid in UpsertAll(c, current, order).lastSpec <==> uid in c.lastSpec + current
      ensures uid in c.lastSpec + current ==>
                uid in UpsertAll(c, current, order).lastSpec &&
                UpsertAll(c, current, order).lastSpec[uid] == (c.lastSpec + current)[uid]
    {
      UpsertAllAt(c, current, order, uid);
    }
  }

  lemma {:induction false} RemoveAllKeeps<S>(c: Ctl<S>, order: seq<string>)
    requires CtlInv(c)
    ensures CtlInv(RemoveAll(c, order))
  {
    if order != [] {
      var n := |order| - 1;
      RemoveAllKeeps(c, order[..n]);
      if order[n] in RemoveAll(c, order[..n]).lastSpec {
        RemoveOneKeeps(RemoveAll(c, order[..n]), order[n]);
      }
    }
  }

  function WithSession<S>(c: Ctl<S>, s: S, sess: Sess): (c': Ctl<S>) {
    c.(heap := c.heap[s := sess])
  }

  lemma NewSession<S>(c: Ctl<S>, s: S, sess: Sess)
    requires CtlInv(c) && s !in c.heap && sess == Sess(sess.node, [], 0, false, Created, sess.start, [], {})
    ensures CtlInv(WithSession(c, s, sess))
  {
  }

  /** Replaying to a new session, as the steps of the protocol. */
  lemma {:induction false} ReplayInv<S>(c: Ctl<S>, s: S, order: seq<string>, done: set<string>)
    requires CtlInv(c) && s in c.heap && c.heap[s].stage == Created
    requires Enumerates(order, done) && done <= OnNode(c.lastSpec, c.heap[s].node).Keys
    ensures var todo := OnNode(c.lastSpec, c.heap[s].node).Keys - done;
            Inv(Sys(ReplayAll(Install(c, s), s, order), Replaying(s, todo), c.lastSpec))
    decreases |order|
  {
    var all := OnNode(c.lastSpec, c.heap[s].node).Keys;
    if order == [] {
      var st := Sys(c, Idle, c.lastSpec);
      InvOfCtl(st);
      RegisterKeeps(st, s);
      assert done == {} && all - {} == all;
    } else {
      var n := |order| - 1;
      var uid := order[n];
      EnumeratesInit(order, done);
      ReplayInv(c, s, order[..n], done - {uid});
      var st := Sys(ReplayAll(Install(c, s), s, order[..n]), Replaying(s, all - (done - {uid})), c.lastSpec);
      ReplayKeeps(st, uid);
      assert all - (done - {uid}) - {uid} == all - done;
    }
  }

  lemma RegisterAllKeeps<S>(c: Ctl<S>, s: S, order: seq<string>)
    requires CtlInv(c) && s in c.heap && c.heap[s].stage == Created
    requires Enumerates(order, OnNode(c.lastSpec, c.heap[s].node).Keys)
    ensures CtlInv(ReplayAll(Install(c, s), s, order))
  {
    var all := OnNode(c.lastSpec, c.heap[s].node).Keys;
    ReplayInv(c, s, order, all);
    var st := Sys(ReplayAll(Install(c, s), s, order), Replaying(s, all - all), c.lastSpec);
    PhaseStepKeeps(st, Done);
    InvOfCtl(Next(st, Done));
  }

  /** The session that was registered for the node ends up closed. */
  lemma {:induction false} RegisterCloses<S>(c: Ctl<S>, s: S, order: seq<string>)
    requires SessionsOk(c) && s in c.heap && c.heap[s].node in c.sessions && c.sessions[c.heap[s].node] != s
    ensures var was, c' := c.sessions[c.heap[s].node], ReplayAll(Install(c, s), s, order);
            was in c'.heap && c'.heap[was].closed && c'.heap[was].queue == c.heap[was].queue
    decreases |order|
  {
    if order != [] {
      RegisterCloses(c, s, order[..|order| - 1]);
    }
  }

  // ---------- the objects ----------

  class Session {
    const node: string
    var queue: seq<Delta>
    var closed: bool
    var drops: nat
    ghost var stage: Stage
    ghost var start: PodMap
    ghost var received: seq<Delta>
    ghost var strays: set<string>

    ghost function State(): (s: Sess)
      reads this
    {
      Sess(node, queue, drops, closed, stage, start, received, strays)
    }

    constructor (node: string, ghost start: PodMap)
      ensures this.node == node && State() == Sess(node, [], 0, false, Created, start, [], {})
    {
      this.node := node;
      queue, closed, drops := [], false, 0;
      stage, this.start, received, strays := Created, start, [], {};
    }

    method EnqueueDelta(d: Delta)
      modifies this
      ensures State() == Enqueue(old(State()), d)
      ensures old(closed) ==> State() == old(State())
      ensures !old(closed) && |old(queue)| < 1024 ==> queue == old(queue) + [d] && drops == old(drops)
      ensures !old(closed) && |old(queue)| >= 1024 ==> queue == old(queue) && drops == old(drops) + 1
      ensures closed == old(closed) && received == old(received)
    {
      if closed {
        return;
      }
      if |queue| < QUEUE_SIZE {
        queue := queue + [d];
        strays := strays - {d.spec.podUid};
      } else {
        drops := drops + 1;
      }
    }

    method Close()
      modifies this
      ensures State() == old(State()).(closed := true)
    {
      if closed {
        return;
      }
      closed := true;
    }

    /** The sender goroutine takes the next message, which the agent then handles. */
    method Receive() returns (d: Delta)
      requires queue != []
      modifies this
      ensures d == old(queue[0])
      ensures State() == old(State()).(queue := old(queue)[1..], received := old(received) + [d])
    {
      d := queue[0];
      queue := queue[1..];
      received := received + [d];
    }
  }

  class Dispatcher {
    var lastSpec: map<string, Spec>
    var generation: map<string, nat>
    var sessions: map<string, Session>
    /** Every session that was ever registered. */
    ghost var known: set<Session>

    ghost function Heap(): (h: map<Session, Sess>)
      reads this`known, known
    {
      map s | s in known :: s.State()
    }

    ghost function View(): (c: Ctl<Session>)
      reads this, known
    {
      Ctl(lastSpec, generation, sessions, Heap())
    }

    constructor ()
      ensures View() == Ctl(map[], map[], map[], map[]) && CtlInv(View())
    {
      lastSpec, generation, sessions, known := map[], map[], map[], {};
    }

    /** Enqueue on the session of a node, if one is connected. */
    method SendTo(node: string, d: Delta)
      requires SessionsOk(View())
      modifies known
      ensures View() == Send(old(View()), node, d) && known == old(known)
    {
      if node in sessions {
        sessions[node].EnqueueDelta(d);
      }
    }

    /** History only: see `MarkStray`. */
    ghost method NoteStray(uid: string, spec: Spec)
      requires SessionsOk(View())
      modifies known
      ensures View() == MarkStray(old(View()), uid, spec) && SessionsOk(View())
    {
      StrayEffect(View(), uid, spec);
      if uid in lastSpec && lastSpec[uid].node != spec.node && lastSpec[uid].node in sessions {
        var left := sessions[lastSpec[uid].node];
        left.strays := left.strays + {uid};
      }
    }

    /** Note the new spec and tell the pod's node. */
    method Publish(uid: string, spec: Spec)
      requires SessionsOk(View())
      modifies this`lastSpec, this`generation, known
      ensures var c, gen := old(View()), Gen(old(generation), uid) + 1;
              View() == Send(c.(generation := c.generation[uid := gen], lastSpec := c.lastSpec[uid := spec]), spec.node,
                             Upsert(spec, gen))
    {
      var gen := (if uid in generation then generation[uid] else 0) + 1;
      generation := generation[uid := gen];
      lastSpec := lastSpec[uid := spec];
      assert View() == old(View()).(generation := generation, lastSpec := lastSpec);
      SendTo(spec.node, Upsert(spec, gen));
    }

    /** The body of `Apply`'s first loop. */
    method UpsertPod(uid: string, spec: Spec)
      requires SessionsOk(View())
      modifies this`lastSpec, this`generation, known
      ensures View() == UpsertOne(old(View()), uid, spec)
    {
      if uid in lastSpec && lastSpec[uid] == spec {
        return;
      }
      NoteStray(uid, spec);
      Publish(uid, spec);
    }

    /** The body of its second loop. */
    method RemovePod(uid: string)
      requires SessionsOk(View()) && uid in lastSpec
      modifies this`lastSpec, this`generation, known
      ensures View() == RemoveOne(old(View()), uid)
    {
      var gen := (if uid in generation then generation[uid] else 0) + 1;
      generation := generation[uid := gen];
      var node := lastSpec[uid].node;
      lastSpec := lastSpec - {uid};
      assert View() == old(View()).(generation := generation, lastSpec := lastSpec);
      SendTo(node, Remove(Tombstone(uid, node), gen));
    }

    method Apply(current: map<string, Spec>) returns (ghost ups: seq<string>, ghost rems: seq<string>)
      requires CtlInv(View()) && WellKeyed(current)
      modifies this`lastSpec, this`generation, known
      ensures Enumerates(ups, current.Keys) && Enumerates(rems, old(lastSpec).Keys - current.Keys)
      ensures View() == RemoveAll(UpsertAll(old(View()), current, ups), rems)
      ensures CtlInv(View()) && lastSpec == current
    {
      ups := UpsertAllPods(current);
      UpsertAllKeeps(old(View()), current, ups);
      UpsertAllLast(old(View()), current, ups);
      ghost var c := View();
      rems := RemoveOthers(current);
      RemoveAllKeeps(c, rems);
      RemoveAllLast(c, rems, c.lastSpec.Keys - current.Keys);
    }

    method UpsertNext(current: map<string, Spec>, uid: string, ghost c0: Ctl<Session>, ghost ups: seq<string>)
      requires SessionsOk(View()) && uid in current
      requires (forall u | u in ups :: u in current) && View() == UpsertAll(c0, current, ups)
      modifies this`lastSpec, this`generation, known
      ensures SessionsOk(View()) && View() == UpsertAll(c0, current, ups + [uid])
    {
      UpsertShape(View(), uid, current[uid]);
      UpsertPod(uid, current[uid]);
      assert (ups + [uid])[..|ups|] == ups;
    }

    method UpsertAllPods(current: map<string, Spec>) returns (ghost ups: seq<string>)
      requires SessionsOk(View())
      modifies this`lastSpec, this`generation, known
      ensures Enumerates(ups, current.Keys)
      ensures View() == UpsertAll(old(View()), current, ups)
      ensures SessionsOk(View())
    {
      ups := [];
      var todo := current.Keys;
      ghost var done: set<string> := {};
      while todo != {}
        invariant todo <= current.Keys && done <= current.Keys && Enumerates(ups, done)
        invariant forall uid | uid in current :: uid in todo <==> uid !in done
        invariant SessionsOk(View()) && View() == UpsertAll(old(View()), current, ups)
        decreases |todo|
      {
        var uid :| uid in todo;
        UpsertNext(current, uid, old(View()), ups);
        EnumeratesSnoc(ups, done, uid);
        ups, todo, done := ups + [uid], todo - {uid}, done + {uid};
      }
      assert done == current.Keys;
    }

    method RemoveNext(uid: string, ghost c0: Ctl<Session>, ghost rems: seq<string>)
      requires SessionsOk(View()) && uid in lastSpec && View() == RemoveAll(c0, rems)
      modifies this`lastSpec, this`generation, known
      ensures SessionsOk(View()) && View() == RemoveAll(c0, rems + [uid])
      ensures lastSpec == old(lastSpec) - {uid}
    {
      RemoveOneRel(View(), uid);
      RemovePod(uid);
      assert (rems + [uid])[..|rems|] == rems;
    }

    method RemoveOthers(current: map<string, Spec>) returns (ghost rems: seq<string>)
      requires SessionsOk(View())
      modifies this`lastSpec, this`generation, known
      ensures Enumerates(rems, old(lastSpec).Keys - current.Keys)
      ensures View() == RemoveAll(old(View()), rems)
    {
      rems := [];
      var todo := lastSpec.Keys;
      ghost var gone: set<string> := {};
      while todo != {}
        invariant todo <= lastSpec.Keys && todo <= old(lastSpec).Keys && todo !! gone
        invariant gone <= old(lastSpec).Keys - current.Keys && Enumerates(rems, gone)
        invariant forall uid | uid in old(lastSpec) && uid !in current :: uid in todo || uid in gone
        invariant SessionsOk(View()) && View() == RemoveAll(old(View()), rems)
        decreases |todo|
      {
        var uid :| uid in todo;
        todo := todo - {uid};
        if uid !in current {
          RemoveNext(uid, old(View()), rems);
          EnumeratesSnoc(rems, gone, uid);
          rems, gone := rems + [uid], gone + {uid};
        }
      }
      assert gone == old(lastSpec).Keys - current.Keys;
    }

    method CloseKnown(s: Session)
      requires s in known
      modifies known
      ensures Heap() == old(Heap())[s := old(s.State()).(closed := true)]
    {
      s.Close();
    }

    ghost method SetStage(s: Session, stage: Stage)
      requires s in known
      modifies known
      ensures Heap() == old(Heap())[s := old(s.State()).(stage := stage)]
    {
      s.stage := stage;
    }

    /** A session that another one displaces is closed. */
    method CloseStale(s: Session)
      requires SessionsOk(View()) && s in known
      modifies known
      ensures Heap() == Displaced(old(View()), s)
    {
      if s.node in sessions && sessions[s.node] != s {
        CloseKnown(sessions[s.node]);
      }
    }

    /** `RegisterSession` up to its loop. */
    method InstallSession(s: Session)
      requires SessionsOk(View()) && s in known
      modifies this`sessions, known
      ensures View() == Install(old(View()), s)
    {
      CloseStale(s);
      assert s.State() == Heap()[s];
      SetStage(s, Registered);
      sessions := sessions[s.node := s];
    }

    method ReplayPod(s: Session, uid: string)
      requires s in known && uid in lastSpec
      modifies known
      ensures View() == ReplayOne(old(View()), s, uid)
    {
      s.EnqueueDelta(Upsert(lastSpec[uid], if uid in generation then generation[uid] else 0));
    }

    /** Its loop. */
    method ReplaySpecs(s: Session) returns (ghost order: seq<string>)
      requires s in known
      modifies known
      ensures Enumerates(order, OnNode(lastSpec, s.node).Keys)
      ensures View() == ReplayAll(old(View()), s, order)
    {
      order := [];
      var todo := lastSpec.Keys;
      ghost var done: set<string> := {};
      while todo != {}
        invariant todo <= lastSpec.Keys
        invariant done <= OnNode(lastSpec, s.node).Keys && Enumerates(order, done)
        invariant forall uid | uid in OnNode(lastSpec, s.node) :: uid in todo <==> uid !in done
        invariant View() == ReplayAll(old(View()), s, order)
        decreases |todo|
      {
        var uid :| uid in todo;
        todo := todo - {uid};
        if lastSpec[uid].node == s.node {
          ReplayPod(s, uid);
          EnumeratesSnoc(order, done, uid);
          assert (order + [uid])[..|order|] == order;
          order, done := order + [uid], done + {uid};
        }
      }
      assert done == OnNode(lastSpec, s.node).Keys;
    }

    method RegisterSession(s: Session) returns (ghost order: seq<string>)
      requires CtlInv(View()) && s !in known
      requires s.State() == Sess(s.node, [], 0, false, Created, s.start, [], {})
      modifies this`sessions, this`known, known, s
      ensures known == old(known) + {s}
      ensures Enumerates(order, OnNode(lastSpec, s.node).Keys)
      ensures View() == ReplayAll(Install(WithSession(old(View()), s, old(s.State())), s), s, order)
      ensures CtlInv(View()) && sessions == old(sessions)[s.node := s]
      ensures s.node in old(sessions) ==> old(sessions)[s.node].closed
    {
      known := known + {s};
      ghost var c := View();
      assert c.heap == old(Heap())[s := old(s.State())];
      NewSession(old(View()), s, s.State());
      InstallSession(s);
      order := ReplaySpecs(s);
      RegisterAllKeeps(c, s, order);
      if s.node in old(sessions) {
        RegisterCloses(c, s, order);
        assert View().heap[old(sessions)[s.node]] == old(sessions)[s.node].State();
      }
    }

    method UnregisterSession(s: Session)
      requires CtlInv(View()) && s in known && s.stage == Registered
      modifies this`sessions, known
      ensures View() == Uninstall(old(View()), s) && CtlInv(View())
    {
      UninstallKeeps(View(), s);
      Forget(s);
    }

    method Forget(s: Session)
      requires s in known
      modifies this`sessions, known
      ensures View() == Uninstall(old(View()), s)
    {
      assert Heap()[s] == s.State();
      SetStage(s, Unregistered);
      if s.node in sessions && sessions[s.node] == s {
        sessions := sessions - {s.node};
      }
    }
  }
}
