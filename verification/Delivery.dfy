/** When one `Apply` leaves an agent with exactly the specs of its node: the condition can be read off the two
    tables and the length of the session's queue before the call. */
module Delivery {
  import opened MapRange
  import opened ControlPlane
  import opened Dispatcher

  /** `Apply`'s work on one pod. */
  function ApplyOne<S>(c: Ctl<S>, current: map<string, Spec>, uid: string): (c': Ctl<S>) {
    if uid in current then UpsertOne(c, uid, current[uid])
    else if uid in c.lastSpec then RemoveOne(c, uid)
    else c
  }

  function ApplyAll<S>(c: Ctl<S>, current: map<string, Spec>, order: seq<string>): (c': Ctl<S>) {
    if order == [] then c else ApplyOne(ApplyAll(c, current, order[..|order| - 1]), current, order[|order| - 1])
  }

  /** A delta about the pod goes to `node`. */
  predicate Sends(last: map<string, Spec>, current: map<string, Spec>, uid: string, node: string) {
    if uid in current then current[uid].node == node && !(uid in last && last[uid] == current[uid])
    else uid in last && last[uid].node == node
  }

  predicate MovesAway(last: map<string, Spec>, current: map<string, Spec>, uid: string, node: string) {
    uid in current && Leaves(last, uid, current[uid], node)
  }

  function ChangesIn(last: map<string, Spec>, current: map<string, Spec>, keys: set<string>,
                     node: string): (uids: set<string>) {
    set uid | uid in keys && Sends(last, current, uid, node)
  }

  function Changes(last: map<string, Spec>, current: map<string, Spec>, node: string): (uids: set<string>) {
    ChangesIn(last, current, last.Keys + current.Keys, node)
  }

  /** The two maps have the same to say about a pod. */
  predicate SameAt(m: PodMap, want: PodMap, uid: string) {
    (uid in m <==> uid in want) && (uid in m && uid in want ==> m[uid] == want[uid])
  }

  lemma SettledStep(s: Sess, d: Delta)
    requires !s.closed
    ensures Enqueue(s, d).Settled() == if |s.queue| < QUEUE_SIZE then Handle(s.Settled(), d) else s.Settled()
  {
    if |s.queue| < QUEUE_SIZE {
      SentSnoc(s, d);
    } else {
      assert Enqueue(s, d).Sent() == s.Sent();
    }
  }

  /** What one pod's turn does to an open session and to the table. */
  ghost predicate Turn(sess: Sess, sess': Sess, last: PodMap, last': PodMap, current: PodMap, uid: string) {
    && sess'.node == sess.node
    && (forall u | u != uid :: SameAt(last', last, u) && SameAt(sess'.Settled(), sess.Settled(), u))
    && SameAt(last', current, uid)
    && (if Sends(last, current, uid, sess.node) && |sess.queue| < QUEUE_SIZE then
          && |sess'.queue| == |sess.queue| + 1
          && SameAt(sess'.Settled(), OnNode(last', sess.node), uid)
        else
          && |sess'.queue| == |sess.queue|
          && SameAt(sess'.Settled(), sess.Settled(), uid))
  }

  lemma UpsertTurn(sess: Sess, last: PodMap, current: PodMap, uid: string, d: Delta)
    requires !sess.closed && uid in current && d.Upsert? && d.spec == current[uid] && d.spec.podUid == uid
    requires !(uid in last && last[uid] == current[uid])
    ensures Turn(sess, Upserted(sess, last, uid, current[uid], d), last, last[uid := current[uid]], current, uid)
  {
    if current[uid].node == sess.node {
      SettledStep(sess, d);
    } else {
      assert sess.(strays := sess.strays + {uid}).Settled() == sess.Settled();
    }
  }

  lemma RemoveTurn(sess: Sess, last: PodMap, current: PodMap, uid: string, d: Delta)
    requires !sess.closed && uid !in current && uid in last && d.Remove? && d.spec.podUid == uid
    ensures var sess' := if sess.node == last[uid].node then Enqueue(sess, d) else sess;
            Turn(sess, sess', last, last - {uid}, current, uid)
  {
    SettledStep(sess, d);
  }

  lemma OneTurn<S>(c: Ctl<S>, current: map<string, Spec>, uid: string, s: S)
    requires CtlInv(c) && Live(c, s) && WellKeyed(current)
    ensures var c' := ApplyOne(c, current, uid);
            CtlInv(c') && Live(c', s) && Turn(c.heap[s], c'.heap[s], c.lastSpec, c'.lastSpec, current, uid)
  {
    assert SessAt(c, s);
    if uid in current {
      UpsertOneKeeps(c, uid, current[uid]);
      if !(uid in c.lastSpec && c.lastSpec[uid] == current[uid]) {
        UpsertOneRel(c, uid, current[uid]);
        UpsertTurn(c.heap[s], c.lastSpec, current, uid, Upsert(current[uid], Gen(c.generation, uid) + 1));
      }
    } else if uid in c.lastSpec {
      RemoveOneKeeps(c, uid);
      RemoveOneRel(c, uid);
      RemoveTurn(c.heap[s], c.lastSpec, current, uid,
                 Remove(Tombstone(uid, c.lastSpec[uid].node), Gen(c.generation, uid) + 1));
    }
  }

  // ---------- the whole call ----------

  function Count(last: PodMap, current: PodMap, order: seq<string>, node: string): (n: nat) {
    if order == [] then 0
    else Count(last, current, order[..|order| - 1], node) +
         if Sends(last, current, order[|order| - 1], node) then 1 else 0
  }

  /** What the turns of the pods in `order` come to. */
  ghost predicate Progress(sess: Sess, sess': Sess, last: PodMap, last': PodMap, current: PodMap, order: seq<string>) {
    var n := |sess.queue| + Count(last, current, order, sess.node);
    && sess'.node == sess.node
    && (forall u | u !in order :: SameAt(last', last, u) && SameAt(sess'.Settled(), sess.Settled(), u))
    && (forall u | u in order :: SameAt(last', current, u))
    && |sess'.queue| == (if n <= QUEUE_SIZE then n else QUEUE_SIZE)
    && (AllRight(sess', last', order) <==> n <= QUEUE_SIZE && NoneMoves(last, current, order, sess.node))
  }

  ghost predicate AllRight(sess: Sess, last: PodMap, order: seq<string>) {
    forall u | u in order :: SameAt(sess.Settled(), OnNode(last, sess.node), u)
  }

  predicate NoneMoves(last: PodMap, current: PodMap, order: seq<string>, node: string) {
    forall u | u in order :: !MovesAway(last, current, u, node)
  }

  /** After its turn a pod is right just if its delta fitted, or it has none and did not move away. */
  lemma TurnRightIff(sess: Sess, sess': Sess, last: PodMap, last': PodMap, current: PodMap, uid: string)
    requires Turn(sess, sess', last, last', current, uid) && SameAt(sess.Settled(), OnNode(last, sess.node), uid)
    ensures SameAt(sess'.Settled(), OnNode(last', sess.node), uid) <==>
            && !MovesAway(last, current, uid, sess.node)
            && (Sends(last, current, uid, sess.node) ==> |sess.queue| < QUEUE_SIZE)
  {
  }

  /** The turns of other pods do not matter to a pod. */
  lemma OthersRight(sess: Sess, sess': Sess, last: PodMap, last': PodMap, current: PodMap, uid: string,
                    order: seq<string>)
    requires Turn(sess, sess', last, last', current, uid) && uid !in order
    ensures AllRight(sess', last', order) <==> AllRight(sess, last, order)
  {
    forall u | u in order
      ensures SameAt(sess'.Settled(), OnNode(last', sess.node), u) <==>
              SameAt(sess.Settled(), OnNode(last, sess.node), u)
    {
      assert SameAt(last', last, u) && SameAt(sess'.Settled(), sess.Settled(), u);
    }
  }

  /** One turn after the others: what the table and the agent have. */
  lemma TurnsCompose(s0: Sess, s1: Sess, s2: Sess, l0: PodMap, l1: PodMap, l2: PodMap, current: PodMap,
                     order: seq<string>, uid: string, u: string)
    requires Progress(s0, s1, l0, l1, current, order) && uid !in order && Turn(s1, s2, l1, l2, current, uid)
    ensures u in order + [uid] ==> SameAt(l2, current, u)
    ensures u !in order + [uid] ==> SameAt(l2, l0, u) && SameAt(s2.Settled(), s0.Settled(), u)
  {
    if u != uid {
      assert u in order + [uid] <==> u in order;
      assert SameAt(l2, l1, u) && SameAt(s2.Settled(), s1.Settled(), u);
    }
  }

  lemma ProgressSnoc(s0: Sess, s1: Sess, s2: Sess, l0: PodMap, l1: PodMap, l2: PodMap, current: PodMap,
                     order: seq<string>, uid: string)
    requires Progress(s0, s1, l0, l1, current, order) && uid !in order && Turn(s1, s2, l1, l2, current, uid)
    requires s0.Settled() == OnNode(l0, s0.node) && |s0.queue| <= QUEUE_SIZE
    ensures Progress(s0, s2, l0, l2, current, order + [uid])
  {
    var order' := order + [uid];
    assert order'[..|order'| - 1] == order;
    assert SameAt(l1, l0, uid) && SameAt(s1.Settled(), s0.Settled(), uid);
    TurnRightIff(s1, s2, l1, l2, current, uid);
    OthersRight(s1, s2, l1, l2, current, uid, order);
    assert AllRight(s2, l2, order') <==> AllRight(s2, l2, order) && SameAt(s2.Settled(), OnNode(l2, s2.node), uid);
    assert NoneMoves(l0, current, order', s0.node) <==>
           NoneMoves(l0, current, order, s0.node) && !MovesAway(l0, current, uid, s0.node);
    forall u {
      TurnsCompose(s0, s1, s2, l0, l1, l2, current, order, uid, u);
    }
  }

  lemma NoProgress(sess: Sess, last: PodMap, current: PodMap)
    requires |sess.queue| <= QUEUE_SIZE
    ensures Progress(sess, sess, last, last, current, [])
  {
  }

  lemma NextTurn<S>(c: Ctl<S>, c1: Ctl<S>, current: map<string, Spec>, order: seq<string>, uid: string, s: S)
    requires s in c.heap && Exact(c, s) && |c.heap[s].queue| <= QUEUE_SIZE && WellKeyed(current)
    requires CtlInv(c1) && Live(c1, s) && uid !in order
    requires Progress(c.heap[s], c1.heap[s], c.lastSpec, c1.lastSpec, current, order)
    ensures var c2 := ApplyOne(c1, current, uid);
            && CtlInv(c2) && Live(c2, s)
            && Progress(c.heap[s], c2.heap[s], c.lastSpec, c2.lastSpec, current, order + [uid])
  {
    var c2 := ApplyOne(c1, current, uid);
    OneTurn(c1, current, uid, s);
    ProgressSnoc(c.heap[s], c1.heap[s], c2.heap[s], c.lastSpec, c1.lastSpec, c2.lastSpec, current, order, uid);
  }

  lemma {:induction false} AllTurns<S>(c: Ctl<S>, current: map<string, Spec>, order: seq<string>, keys: set<string>,
                                       s: S)
    requires CtlInv(c) && Live(c, s) && Exact(c, s) && WellKeyed(current) && Enumerates(order, keys)
    ensures var c' := ApplyAll(c, current, order);
            && CtlInv(c') && Live(c', s)
            && Progress(c.heap[s], c'.heap[s], c.lastSpec, c'.lastSpec, current, order)
    decreases |order|
  {
    assert SessAt(c, s);
    if order == [] {
      NoProgress(c.heap[s], c.lastSpec, current);
    } else {
      var n := |order| - 1;
      EnumeratesInit(order, keys);
      AllTurns(c, current, order[..n], keys - {order[n]}, s);
      NextTurn(c, ApplyAll(c, current, order[..n]), current, order[..n], order[n], s);
      assert order[..n] + [order[n]] == order;
    }
  }

  lemma {:induction false} UpsertsAreTurns<S>(c: Ctl<S>, current: map<string, Spec>, ups: seq<string>)
    requires forall uid | uid in ups :: uid in current
    ensures UpsertAll(c, current, ups) == ApplyAll(c, current, ups)
  {
    if ups != [] {
      UpsertsAreTurns(c, current, ups[..|ups| - 1]);
    }
  }

  lemma {:induction false} RemovesAreTurns<S>(c: Ctl<S>, current: map<string, Spec>, ups: seq<string>,
                                              rems: seq<string>)
    requires forall uid | uid in rems :: uid !in current
    ensures RemoveAll(ApplyAll(c, current, ups), rems) == ApplyAll(c, current, ups + rems)
  {
    if rems == [] {
      assert ups + rems == ups;
    } else {
      var n := |rems| - 1;
      RemovesAreTurns(c, current, ups, rems[..n]);
      assert (ups + rems)[..|ups + rems| - 1] == ups + rems[..n];
    }
  }

  lemma OneMoreChange(last: PodMap, current: PodMap, keys: set<string>, uid: string, node: string)
    requires uid in keys
    ensures |ChangesIn(last, current, keys, node)| ==
            |ChangesIn(last, current, keys - {uid}, node)| + if Sends(last, current, uid, node) then 1 else 0
  {
    var rest := ChangesIn(last, current, keys - {uid}, node);
    if Sends(last, current, uid, node) {
      assert ChangesIn(last, current, keys, node) == rest + {uid};
    } else {
      assert ChangesIn(last, current, keys, node) == rest;
    }
  }

  lemma {:induction false} CountIsSize(last: PodMap, current: PodMap, order: seq<string>, keys: set<string>,
                                       node: string)
    requires Enumerates(order, keys)
    ensures Count(last, current, order, node) == |ChangesIn(last, current, keys, node)|
    decreases |order|
  {
    if order == [] {
      assert ChangesIn(last, current, keys, node) == {};
    } else {
      var n := |order| - 1;
      EnumeratesInit(order, keys);
      CountIsSize(last, current, order[..n], keys - {order[n]}, node);
      OneMoreChange(last, current, keys, order[n], node);
    }
  }

  lemma BothLoops(current: set<string>, last: set<string>, ups: seq<string>, rems: seq<string>)
    requires Enumerates(ups, current) && Enumerates(rems, last - current)
    ensures Enumerates(ups + rems, last + current)
  {
    var order := ups + rems;
    forall i, j | 0 <= i < j < |order|
      ensures order[i] != order[j]
    {
      if i < |ups| <= j {
        assert order[i] in ups && order[j] in rems;
      }
    }
  }

  /** All pods of both tables are right, just if the agent is exact. */
  lemma ExactIffAllRight(s0: Sess, s1: Sess, l0: PodMap, l1: PodMap, current: PodMap, order: seq<string>)
    requires Progress(s0, s1, l0, l1, current, order) && Enumerates(order, l0.Keys + current.Keys)
    requires s0.Settled() == OnNode(l0, s0.node)
    ensures s1.Settled() == OnNode(l1, s1.node) <==> AllRight(s1, l1, order)
  {
    if AllRight(s1, l1, order) {
      forall u
        ensures SameAt(s1.Settled(), OnNode(l1, s1.node), u)
      {
        if u !in order {
          assert SameAt(l1, l0, u) && SameAt(s1.Settled(), s0.Settled(), u);
        }
      }
      SameEverywhere(s1.Settled(), OnNode(l1, s1.node));
    }
  }

  lemma SameEverywhere(a: PodMap, b: PodMap)
    requires forall u :: SameAt(a, b, u)
    ensures a == b
  {
    assert forall u :: u in a <==> u in b by {
      forall u
        ensures u in a <==> u in b
      {
        assert SameAt(a, b, u);
      }
    }
    forall u | u in a
      ensures a[u] == b[u]
    {
      assert SameAt(a, b, u);
    }
  }

  /** One `Apply`, nothing received meanwhile, in whatever order the maps are visited: an exact agent stays exact if
      and only if no pod moves away from its node and its queue has room for every change on that node. */
  lemma ApplyExactIff<S>(c: Ctl<S>, current: map<string, Spec>, ups: seq<string>, rems: seq<string>, s: S)
    requires CtlInv(c) && Live(c, s) && Exact(c, s) && WellKeyed(current)
    requires Enumerates(ups, current.Keys) && Enumerates(rems, c.lastSpec.Keys - current.Keys)
    ensures var c', sess := RemoveAll(UpsertAll(c, current, ups), rems), c.heap[s];
            && s in c'.heap
            && (Exact(c', s) <==>
                  && |sess.queue| + |Changes(c.lastSpec, current, sess.node)| <= QUEUE_SIZE
                  && forall uid | uid in current :: !MovesAway(c.lastSpec, current, uid, sess.node))
  {
    var order, keys, sess := ups + rems, c.lastSpec.Keys + current.Keys, c.heap[s];
    UpsertsAreTurns(c, current, ups);
    RemovesAreTurns(c, current, ups, rems);
    BothLoops(current.Keys, c.lastSpec.Keys, ups, rems);
    AllTurns(c, current, order, keys, s);
    var c' := ApplyAll(c, current, order);
    ExactIffAllRight(sess, c'.heap[s], c.lastSpec, c'.lastSpec, current, order);
    CountIsSize(c.lastSpec, current, order, keys, sess.node);
    NoneMovesIff(c.lastSpec, current, order, sess.node);
  }

  lemma NoneMovesIff(last: PodMap, current: PodMap, order: seq<string>, node: string)
    requires Enumerates(order, last.Keys + current.Keys)
    ensures NoneMoves(last, current, order, node) <==>
            forall uid | uid in current :: !MovesAway(last, current, uid, node)
  {
  }
}
