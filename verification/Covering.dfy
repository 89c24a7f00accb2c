/** `ComputeSpec` and `ComputeCoverage`: which resource covers each pod, the status of every resource, and how they
    depend on each other.  Names are unique, as the Kubernetes API guarantees. */
module Covering {
  import opened Prelude
  import opened Text
  import opened ControlPlane
  import opened Coverage

  /** How a resource is named in the status of others. */
  function Key(kind: Kind, cr: Cr): (key: string) {
    if kind.TrafficMonitor? then cr.namespace + "/" + cr.name else cr.name
  }

  function SourceRef(kind: Kind, cr: Cr): (ref: string) {
    (if kind.TrafficMonitor? then "TrafficMonitor " else "ClusterTrafficPolicy ") + Key(kind, cr)
  }

  predicate UniqueKeys(kind: Kind, crs: seq<Cr>) {
    forall i, j | 0 <= i < j < |crs| :: Key(kind, crs[i]) != Key(kind, crs[j])
  }

  predicate Matches(ev: Eval, kind: Kind, cr: Cr, pod: Pod) {
    && (kind.TrafficMonitor? ==> cr.namespace == pod.namespace)
    && (cr.selector.None? || ev(cr.selector.value, pod.labels) == Some(true))
  }

  /** The resources of a kind that match a pod, in the order given. */
  function Matching(ev: Eval, kind: Kind, crs: seq<Cr>, pod: Pod): (ms: seq<Cr>)
    ensures forall cr :: cr in ms <==> cr in crs && Matches(ev, kind, cr, pod)
  {
    if crs == [] then [] else
    var n := |crs| - 1;
    assert crs == crs[..n] + [crs[n]];
    Matching(ev, kind, crs[..n], pod) + if Matches(ev, kind, crs[n], pod) then [crs[n]] else []
  }

  /** No other of the resources has a smaller name. */
  ghost predicate Leads(cr: Cr, crs: seq<Cr>) {
    cr in crs && forall other | other in crs :: !Less(other.name, cr.name)
  }

  function Leader(crs: seq<Cr>): (cr: Cr)
    requires crs != []
    ensures Leads(cr, crs)
  {
    var n := |crs| - 1;
    assert crs == crs[..n] + [crs[n]];
    LessTotal(crs[n].name, crs[n].name);
    if n == 0 then crs[0] else
    var best := Leader(crs[..n]);
    if Less(crs[n].name, best.name) then
      assert forall other | other in crs[..n] :: !Less(other.name, crs[n].name) by {
        forall other | other in crs[..n]
          ensures !Less(other.name, crs[n].name)
        {
          if Less(other.name, crs[n].name) {
            LessTransitive(other.name, crs[n].name, best.name);
          }
        }
      }
      crs[n]
    else best
  }

  /** The resource that covers a pod: monitors before policies, and the first name of either. */
  function Covers(ev: Eval, tms: seq<Cr>, ctps: seq<Cr>, pod: Pod): (r: Option<(Kind, Cr)>) {
    var ms := Matching(ev, TrafficMonitor, tms, pod);
    if ms != [] then Some((TrafficMonitor, Leader(ms))) else
    var cs := Matching(ev, ClusterTrafficPolicy, ctps, pod);
    if cs != [] then Some((ClusterTrafficPolicy, Leader(cs))) else None
  }

  ghost function ComputeSpec(ev: Eval, pod: Pod, tms: seq<Cr>, ctps: seq<Cr>): (r: Option<Spec>) {
    match Covers(ev, tms, ctps, pod)
    case None => None
    case Some((kind, cr)) => BuildSpec(pod, cr.core, SourceRef(kind, cr))
  }

  /** What covering means.  A monitor of the pod's namespace that selects the pod goes before every policy, a selector
      in error selects nothing, a policy without one selects everything, and of several the least name counts. */
  lemma CoversMeans(ev: Eval, tms: seq<Cr>, ctps: seq<Cr>, pod: Pod)
    ensures match Covers(ev, tms, ctps, pod)
            case Some((TrafficMonitor, tm)) =>
              && tm in tms && tm.namespace == pod.namespace
              && (tm.selector.Some? ==> ev(tm.selector.value, pod.labels) == Some(true))
              && (forall o | o in tms && o.namespace == pod.namespace && Less(o.name, tm.name) ::
                    o.selector.Some? && ev(o.selector.value, pod.labels) != Some(true))
            case Some((ClusterTrafficPolicy, ctp)) =>
              && ctp in ctps && (ctp.selector.Some? ==> ev(ctp.selector.value, pod.labels) == Some(true))
              && (forall o | o in ctps && Less(o.name, ctp.name) ::
                    o.selector.Some? && ev(o.selector.value, pod.labels) != Some(true))
              && (forall o | o in tms && o.namespace == pod.namespace ::
                    o.selector.Some? && ev(o.selector.value, pod.labels) != Some(true))
            case None =>
              && (forall o | o in tms && o.namespace == pod.namespace ::
                    o.selector.Some? && ev(o.selector.value, pod.labels) != Some(true))
              && (forall o | o in ctps :: o.selector.Some? && ev(o.selector.value, pod.labels) != Some(true))
  {
  }

  /** And what is dispatched for the pod names the resource. */
  lemma ComputeSpecMeans(ev: Eval, pod: Pod, tms: seq<Cr>, ctps: seq<Cr>)
    ensures match Covers(ev, tms, ctps, pod)
            case None => ComputeSpec(ev, pod, tms, ctps) == None
            case Some((TrafficMonitor, tm)) =>
              ComputeSpec(ev, pod, tms, ctps) ==
              BuildSpec(pod, tm.core, "TrafficMonitor " + tm.namespace + "/" + tm.name)
            case Some((ClusterTrafficPolicy, ctp)) =>
              ComputeSpec(ev, pod, tms, ctps) == BuildSpec(pod, ctp.core, "ClusterTrafficPolicy " + ctp.name)
  {
    if Covers(ev, tms, ctps, pod).Some? {
      var cr := Covers(ev, tms, ctps, pod).value.1;
      assert "TrafficMonitor " + (cr.namespace + "/" + cr.name) == "TrafficMonitor " + cr.namespace + "/" + cr.name;
    }
  }

  // ---------- order does not matter ----------

  /** Among resources that match one pod, a name occurs once. */
  lemma MatchingDistinct(ev: Eval, kind: Kind, crs: seq<Cr>, pod: Pod, a: Cr, b: Cr)
    requires UniqueKeys(kind, crs)
    requires a in Matching(ev, kind, crs, pod) && b in Matching(ev, kind, crs, pod) && a.name == b.name
    ensures a == b
  {
  }

  lemma LeaderUnique(ev: Eval, kind: Kind, crs: seq<Cr>, pod: Pod, cr: Cr)
    requires UniqueKeys(kind, crs) && Matching(ev, kind, crs, pod) != [] && Leads(cr, Matching(ev, kind, crs, pod))
    ensures cr == Leader(Matching(ev, kind, crs, pod))
  {
    var best := Leader(Matching(ev, kind, crs, pod));
    LessTotal(cr.name, best.name);
    MatchingDistinct(ev, kind, crs, pod, cr, best);
  }

  lemma LeaderOrderFree(ev: Eval, kind: Kind, crs: seq<Cr>, crs': seq<Cr>, pod: Pod)
    requires UniqueKeys(kind, crs) && multiset(crs) == multiset(crs')
    ensures Matching(ev, kind, crs, pod) == [] <==> Matching(ev, kind, crs', pod) == []
    ensures Matching(ev, kind, crs, pod) != [] ==>
              Leader(Matching(ev, kind, crs', pod)) == Leader(Matching(ev, kind, crs, pod))
  {
    var ms, ms' := Matching(ev, kind, crs, pod), Matching(ev, kind, crs', pod);
    forall cr
      ensures cr in ms <==> cr in ms'
    {
      assert cr in crs <==> cr in multiset(crs);
      assert cr in crs' <==> cr in multiset(crs');
    }
    if ms != [] {
      assert ms[0] in ms';
      LeaderUnique(ev, kind, crs, pod, Leader(ms'));
    }
    if ms' != [] {
      assert ms'[0] in ms;
    }
  }

  /** The order in which the resources are listed makes no difference to what is monitored. */
  lemma SpecOrderFree(ev: Eval, pod: Pod, tms: seq<Cr>, tms': seq<Cr>, ctps: seq<Cr>, ctps': seq<Cr>)
    requires UniqueKeys(TrafficMonitor, tms) && multiset(tms) == multiset(tms')
    requires UniqueKeys(ClusterTrafficPolicy, ctps) && multiset(ctps) == multiset(ctps')
    ensures Covers(ev, tms', ctps', pod) == Covers(ev, tms, ctps, pod)
    ensures ComputeSpec(ev, pod, tms', ctps') == ComputeSpec(ev, pod, tms, ctps)
  {
    LeaderOrderFree(ev, TrafficMonitor, tms, tms', pod);
    LeaderOrderFree(ev, ClusterTrafficPolicy, ctps, ctps', pod);
  }

  // ---------- selectCovering ----------

  /** The library's sort by name, as far as it is relied on. */
  ghost predicate SortsByName(sorted: seq<Cr> -> seq<Cr>) {
    forall s :: multiset(sorted(s)) == multiset(s) && (s != [] ==> sorted(s) != [] && Leads(sorted(s)[0], s))
  }

  /** The loop that collects candidates. */
  method Candidates(ev: Eval, kind: Kind, crs: seq<Cr>, pod: Pod) returns (ms: seq<Cr>)
    ensures ms == Matching(ev, kind, crs, pod)
  {
    ms := [];
    for i := 0 to |crs|
      invariant ms == Matching(ev, kind, crs[..i], pod)
    {
      assert crs[..i + 1][..i] == crs[..i];
      if kind.TrafficMonitor? && crs[i].namespace != pod.namespace {
        continue;
      }
      if crs[i].selector.Some? && ev(crs[i].selector.value, pod.labels) != Some(true) {
        continue;
      }
      ms := ms + [crs[i]];
    }
    assert crs[..|crs|] == crs;
  }

  method SelectCovering(ev: Eval, pod: Pod, tms: seq<Cr>, ctps: seq<Cr>, sorted: seq<Cr> -> seq<Cr>)
    returns (r: Option<(Kind, Cr)>)
    requires UniqueKeys(TrafficMonitor, tms) && UniqueKeys(ClusterTrafficPolicy, ctps) && SortsByName(sorted)
    ensures r == Covers(ev, tms, ctps, pod)
  {
    var candidates := Candidates(ev, TrafficMonitor, tms, pod);
    if |candidates| > 0 {
      LeaderUnique(ev, TrafficMonitor, tms, pod, sorted(candidates)[0]);
      return Some((TrafficMonitor, sorted(candidates)[0]));
    }
    var clusterCandidates := Candidates(ev, ClusterTrafficPolicy, ctps, pod);
    if |clusterCandidates| > 0 {
      LeaderUnique(ev, ClusterTrafficPolicy, ctps, pod, sorted(clusterCandidates)[0]);
      return Some((ClusterTrafficPolicy, sorted(clusterCandidates)[0]));
    }
    return None;
  }

  // ---------- the status of a resource ----------

  datatype Status = Status(matched: seq<Pod>, covered: seq<Pod>, conflicts: seq<string>)

  /** The resources in conflict with `cr` over one pod: those that match and disagree if it covers the pod, or the one
      that covers the pod if `cr` matches as well and disagrees. */
  function PodConflicts(ev: Eval, tms: seq<Cr>, ctps: seq<Cr>, kind: Kind, cr: Cr, pod: Pod): (names: set<string>) {
    match Covers(ev, tms, ctps, pod)
    case None => {}
    case Some((k, winner)) =>
      if k != kind then {} else Clash(kind, winner, Matching(ev, kind, Listing(kind, tms, ctps), pod), cr)
  }

  /** The names that clashes of the winner with `done` put into the status of `cr`. */
  function Clash(kind: Kind, winner: Cr, done: seq<Cr>, cr: Cr): (names: set<string>) {
    if cr == winner then set o | o in done && !Agree(winner.core, o.core) :: Key(kind, o)
    else if cr in done && !Agree(winner.core, cr.core) then {Key(kind, winner)}
    else {}
  }

  function Listing(kind: Kind, tms: seq<Cr>, ctps: seq<Cr>): (crs: seq<Cr>) {
    if kind.TrafficMonitor? then tms else ctps
  }

  /** What one scheduled pod adds to the status of `cr`. */
  ghost predicate Adds(ev: Eval, tms: seq<Cr>, ctps: seq<Cr>, kind: Kind, cr: Cr, pod: Pod, st: Status, st': Status) {
    && st'.matched == st.matched + (if Matches(ev, kind, cr, pod) then [pod] else [])
    && st'.covered == st.covered + (if Covers(ev, tms, ctps, pod) == Some((kind, cr)) then [pod] else [])
    && (forall n :: n in st'.conflicts <==> n in st.conflicts || n in PodConflicts(ev, tms, ctps, kind, cr, pod))
    && (NoDup(st.conflicts) ==> NoDup(st'.conflicts))
  }

  predicate NoDup(s: seq<string>) {
    forall i, j | 0 <= i < j < |s| :: s[i] != s[j]
  }

  /** `addConflict`. */
  method AddConflict(s: Status, name: string) returns (s': Status)
    ensures s' == Conflicting(s, name)
  {
    for i := 0 to |s.conflicts|
      invariant name !in s.conflicts[..i]
    {
      if s.conflicts[i] == name {
        return s;
      }
      assert s.conflicts[..i + 1] == s.conflicts[..i] + [s.conflicts[i]];
    }
    assert s.conflicts[..|s.conflicts|] == s.conflicts;
    return s.(conflicts := s.conflicts + [name]);
  }

  function Conflicting(s: Status, name: string): (s': Status)
    ensures forall n :: n in s'.conflicts <==> n in s.conflicts || n == name
    ensures NoDup(s.conflicts) ==> NoDup(s'.conflicts)
  {
    if name in s.conflicts then s else s.(conflicts := s.conflicts + [name])
  }

  // ---------- one pod ----------

  predicate Tracked(kind: Kind, crs: seq<Cr>, status: map<string, Status>) {
    forall cr | cr in crs :: Key(kind, cr) in status
  }

  lemma KeysDistinct(kind: Kind, crs: seq<Cr>, a: Cr, b: Cr)
    requires UniqueKeys(kind, crs) && a in crs && b in crs && a != b
    ensures Key(kind, a) != Key(kind, b)
  {
  }

  function Noted(st: Status, matches: bool, pod: Pod): (st': Status) {
    if matches then st.(matched := st.matched + [pod]) else st
  }

  /** The loop over the resources of one kind: who matches, and a note of it in the status. */
  method MatchKind(ev: Eval, kind: Kind, crs: seq<Cr>, pod: Pod, status: map<string, Status>)
    returns (ms: seq<Cr>, status': map<string, Status>)
    requires UniqueKeys(kind, crs) && Tracked(kind, crs, status)
    ensures ms == Matching(ev, kind, crs, pod) && status'.Keys == status.Keys
    ensures forall cr | cr in crs ::
              status'[Key(kind, cr)] == Noted(status[Key(kind, cr)], Matches(ev, kind, cr, pod), pod)
  {
    ms, status' := [], status;
    for i := 0 to |crs|
      invariant ms == Matching(ev, kind, crs[..i], pod) && status'.Keys == status.Keys
      invariant AllNotedUpTo(ev, kind, crs, pod, status, status', i)
    {
      assert crs[..i + 1][..i] == crs[..i];
      NotedNext(ev, kind, crs, pod, status, status', i);
      if Matches(ev, kind, crs[i], pod) {
        ms := ms + [crs[i]];
        var key := Key(kind, crs[i]);
        status' := status'[key := status'[key].(matched := status'[key].matched + [pod])];
      }
    }
    assert crs[..|crs|] == crs;
    forall cr | cr in crs
      ensures status'[Key(kind, cr)] == Noted(status[Key(kind, cr)], Matches(ev, kind, cr, pod), pod)
    {
      var j :| 0 <= j < |crs| && crs[j] == cr;
      assert NotedUpTo(ev, kind, crs, pod, status, status', |crs|, j);
    }
  }

  /** Of the resources the loop has looked at the first `i`: the status of the `j`-th one. */
  ghost predicate NotedUpTo(ev: Eval, kind: Kind, crs: seq<Cr>, pod: Pod, status: map<string, Status>,
                            status': map<string, Status>, i: nat, j: nat)
    requires Tracked(kind, crs, status) && status'.Keys == status.Keys && j < |crs|
  {
    status'[Key(kind, crs[j])] == Noted(status[Key(kind, crs[j])], j < i && Matches(ev, kind, crs[j], pod), pod)
  }

  ghost predicate AllNotedUpTo(ev: Eval, kind: Kind, crs: seq<Cr>, pod: Pod, status: map<string, Status>,
                               status': map<string, Status>, i: nat)
    requires Tracked(kind, crs, status) && status'.Keys == status.Keys
  {
    forall j | 0 <= j < |crs| :: NotedUpTo(ev, kind, crs, pod, status, status', i, j)
  }

  lemma NotedNext(ev: Eval, kind: Kind, crs: seq<Cr>, pod: Pod, status: map<string, Status>,
                  status': map<string, Status>, i: nat)
    requires UniqueKeys(kind, crs) && Tracked(kind, crs, status) && status'.Keys == status.Keys && i < |crs|
    requires AllNotedUpTo(ev, kind, crs, pod, status, status', i)
    ensures var key := Key(kind, crs[i]);
            var status2 := if Matches(ev, kind, crs[i], pod)
                           then status'[key := status'[key].(matched := status'[key].matched + [pod])] else status';
            && status2.Keys == status.Keys
            && AllNotedUpTo(ev, kind, crs, pod, status, status2, i + 1)
  {
    var key := Key(kind, crs[i]);
    var status2 := if Matches(ev, kind, crs[i], pod)
                   then status'[key := status'[key].(matched := status'[key].matched + [pod])] else status';
    var next := i + 1;
    assert key in status && status2.Keys == status.Keys;
    forall j | 0 <= j < |crs|
      ensures NotedUpTo(ev, kind, crs, pod, status, status2, next, j)
    {
      assert NotedUpTo(ev, kind, crs, pod, status, status', i, j);
    }
  }

  lemma AgreeReflexive(c: Core)
    ensures Agree(c, c)
  {
  }

  ghost predicate Clashed(st: Status, st': Status, names: set<string>) {
    && st'.matched == st.matched && st'.covered == st.covered
    && (forall n :: n in st'.conflicts <==> n in st.conflicts || n in names)
    && (NoDup(st.conflicts) ==> NoDup(st'.conflicts))
  }

  ghost predicate AllClashed(kind: Kind, crs: seq<Cr>, winner: Cr, done: seq<Cr>, status: map<string, Status>,
                             status': map<string, Status>)
    requires Tracked(kind, crs, status) && status'.Keys == status.Keys
  {
    forall cr | cr in crs :: Clashed(status[Key(kind, cr)], status'[Key(kind, cr)], Clash(kind, winner, done, cr))
  }

  /** The two resources name each other. */
  method Report(kind: Kind, winner: Cr, other: Cr, status: map<string, Status>) returns (status': map<string, Status>)
    requires Key(kind, winner) in status && Key(kind, other) in status && Key(kind, winner) != Key(kind, other)
    ensures status' == Reported(kind, winner, other, status)
  {
    var key, otherKey := Key(kind, winner), Key(kind, other);
    var s := AddConflict(status[key], otherKey);
    status' := status[key := s];
    s := AddConflict(status'[otherKey], key);
    status' := status'[otherKey := s];
  }

  function Reported(kind: Kind, winner: Cr, other: Cr, status: map<string, Status>): (status': map<string, Status>)
    requires Key(kind, winner) in status && Key(kind, other) in status && Key(kind, winner) != Key(kind, other)
    ensures status'.Keys == status.Keys
  {
    status[Key(kind, winner) := Conflicting(status[Key(kind, winner)], Key(kind, other))]
          [Key(kind, other) := Conflicting(status[Key(kind, other)], Key(kind, winner))]
  }

  lemma ClashSnoc(kind: Kind, winner: Cr, done: seq<Cr>, other: Cr, cr: Cr)
    ensures Clash(kind, winner, done + [other], cr) ==
            Clash(kind, winner, done, cr) +
            if Agree(winner.core, other.core) then {}
            else if cr == winner then {Key(kind, other)}
            else if cr == other then {Key(kind, winner)}
            else {}
  {
  }

  lemma ClashedNext(kind: Kind, crs: seq<Cr>, winner: Cr, done: seq<Cr>, other: Cr, status: map<string, Status>,
                    status1: map<string, Status>)
    requires UniqueKeys(kind, crs) && Tracked(kind, crs, status) && status1.Keys == status.Keys
    requires winner in crs && other in crs && AllClashed(kind, crs, winner, done, status, status1)
    requires !Agree(winner.core, other.core) && Key(kind, winner) != Key(kind, other)
    ensures AllClashed(kind, crs, winner, done + [other], status, Reported(kind, winner, other, status1))
  {
    var status2 := Reported(kind, winner, other, status1);
    forall cr | cr in crs
      ensures Clashed(status[Key(kind, cr)], status2[Key(kind, cr)], Clash(kind, winner, done + [other], cr))
    {
      assert Clashed(status[Key(kind, cr)], status1[Key(kind, cr)], Clash(kind, winner, done, cr));
      ClashSnoc(kind, winner, done, other, cr);
      if cr != winner {
        KeysDistinct(kind, crs, cr, winner);
      }
      if cr != other {
        KeysDistinct(kind, crs, cr, other);
      }
    }
  }

  lemma ClashedSkip(kind: Kind, crs: seq<Cr>, winner: Cr, done: seq<Cr>, other: Cr, status: map<string, Status>,
                    status1: map<string, Status>)
    requires Tracked(kind, crs, status) && status1.Keys == status.Keys
    requires AllClashed(kind, crs, winner, done, status, status1) && Agree(winner.core, other.core)
    ensures AllClashed(kind, crs, winner, done + [other], status, status1)
  {
  }

  /** The loop over the other resources that match the pod. */
  method ReportConflicts(kind: Kind, crs: seq<Cr>, winner: Cr, others: seq<Cr>, status: map<string, Status>)
    returns (status': map<string, Status>)
    requires UniqueKeys(kind, crs) && Tracked(kind, crs, status) && winner in crs && forall o | o in others :: o in crs
    ensures status'.Keys == status.Keys && AllClashed(kind, crs, winner, others, status, status')
  {
    status' := status;
    for i := 0 to |others|
      invariant status'.Keys == status.Keys && AllClashed(kind, crs, winner, others[..i], status, status')
    {
      var other := others[i];
      assert others[..i + 1] == others[..i] + [other];
      var agree := SpecsAgree(winner.core, other.core);
      if agree {
        ClashedSkip(kind, crs, winner, others[..i], other, status, status');
        continue;
      }
      AgreeReflexive(winner.core);
      KeysDistinct(kind, crs, winner, other);
      ClashedNext(kind, crs, winner, others[..i], other, status, status');
      status' := Report(kind, winner, other, status');
    }
    assert others[..|others|] == others;
  }

  /** The winner of a pod gets it, and its clashes are reported. */
  ghost predicate Awarded(kind: Kind, winner: Cr, ms: seq<Cr>, cr: Cr, pod: Pod, st: Status, st': Status) {
    && st'.matched == st.matched && st'.covered == st.covered + (if cr == winner then [pod] else [])
    && (forall n :: n in st'.conflicts <==> n in st.conflicts || n in Clash(kind, winner, ms, cr))
    && (NoDup(st.conflicts) ==> NoDup(st'.conflicts))
  }

  lemma ClashOfRest(kind: Kind, winner: Cr, ms: seq<Cr>, rest: seq<Cr>, cr: Cr)
    requires forall o :: o in ms <==> o in rest || o == winner
    ensures Clash(kind, winner, rest, cr) == Clash(kind, winner, ms, cr)
  {
  }

  lemma SortedMembers(ms: seq<Cr>, out: seq<Cr>)
    requires multiset(out) == multiset(ms) && out != []
    ensures forall o :: o in ms <==> o in out[1..] || o == out[0]
  {
    assert out == [out[0]] + out[1..];
    forall o
      ensures o in ms <==> o in out
    {
      assert o in ms <==> o in multiset(ms);
      assert o in out <==> o in multiset(out);
    }
  }

  method Award(ev: Eval, kind: Kind, crs: seq<Cr>, pod: Pod, ms: seq<Cr>, status: map<string, Status>,
               sorted: seq<Cr> -> seq<Cr>)
    returns (winner: Cr, status': map<string, Status>)
    requires UniqueKeys(kind, crs) && Tracked(kind, crs, status) && SortsByName(sorted)
    requires ms == Matching(ev, kind, crs, pod) && ms != []
    ensures winner == Leader(ms) && status'.Keys == status.Keys
    ensures forall cr | cr in crs :: Awarded(kind, winner, ms, cr, pod, status[Key(kind, cr)], status'[Key(kind, cr)])
  {
    var order := sorted(ms);
    winner := order[0];
    LeaderUnique(ev, kind, crs, pod, winner);
    SortedMembers(ms, order);
    var key := Key(kind, winner);
    var status1 := status[key := status[key].(covered := status[key].covered + [pod])];
    status' := ReportConflicts(kind, crs, winner, order[1..], status1);
    forall cr | cr in crs
      ensures Awarded(kind, winner, ms, cr, pod, status[Key(kind, cr)], status'[Key(kind, cr)])
    {
      ClashOfRest(kind, winner, ms, order[1..], cr);
      assert Clashed(status1[Key(kind, cr)], status'[Key(kind, cr)], Clash(kind, winner, order[1..], cr));
      if cr != winner {
        KeysDistinct(kind, crs, cr, winner);
      }
    }
  }

  /** Noted, and awarded to a resource of the same kind. */
  lemma AddsAwarded(ev: Eval, tms: seq<Cr>, ctps: seq<Cr>, kind: Kind, cr: Cr, pod: Pod, winner: Cr, st: Status,
                    st1: Status, st2: Status)
    requires Covers(ev, tms, ctps, pod) == Some((kind, winner)) && st1 == Noted(st, Matches(ev, kind, cr, pod), pod)
    requires cr in Listing(kind, tms, ctps)
    requires Awarded(kind, winner, Matching(ev, kind, Listing(kind, tms, ctps), pod), cr, pod, st1, st2)
    ensures Adds(ev, tms, ctps, kind, cr, pod, st, st2)
  {
  }

  /** Noted only: nothing of this kind covers the pod. */
  lemma AddsNoted(ev: Eval, tms: seq<Cr>, ctps: seq<Cr>, kind: Kind, cr: Cr, pod: Pod, st: Status)
    requires Covers(ev, tms, ctps, pod).None? || Covers(ev, tms, ctps, pod).value.0 != kind
    ensures Adds(ev, tms, ctps, kind, cr, pod, st, Noted(st, Matches(ev, kind, cr, pod), pod))
  {
  }

  ghost predicate AllAdd(ev: Eval, tms: seq<Cr>, ctps: seq<Cr>, kind: Kind, pod: Pod, status: map<string, Status>,
                         status': map<string, Status>)
    requires Tracked(kind, Listing(kind, tms, ctps), status) && status'.Keys == status.Keys
  {
    forall cr | cr in Listing(kind, tms, ctps) ::
      Adds(ev, tms, ctps, kind, cr, pod, status[Key(kind, cr)], status'[Key(kind, cr)])
  }

  /** The body of the loop over the pods, up to the spec. */
  method CoverPod(ev: Eval, tms: seq<Cr>, ctps: seq<Cr>, pod: Pod, tm: map<string, Status>, ctp: map<string, Status>,
                  sorted: seq<Cr> -> seq<Cr>)
    returns (winner: Option<(Kind, Cr)>, tm': map<string, Status>, ctp': map<string, Status>)
    requires UniqueKeys(TrafficMonitor, tms) && UniqueKeys(ClusterTrafficPolicy, ctps) && SortsByName(sorted)
    requires Tracked(TrafficMonitor, tms, tm) && Tracked(ClusterTrafficPolicy, ctps, ctp)
    ensures winner == Covers(ev, tms, ctps, pod) && tm'.Keys == tm.Keys && ctp'.Keys == ctp.Keys
    ensures AllAdd(ev, tms, ctps, TrafficMonitor, pod, tm, tm')
    ensures AllAdd(ev, tms, ctps, ClusterTrafficPolicy, pod, ctp, ctp')
  {
    var matchedTMs, matchedCTPs, tm1, ctp1;
    matchedTMs, tm1 := MatchKind(ev, TrafficMonitor, tms, pod, tm);
    matchedCTPs, ctp1 := MatchKind(ev, ClusterTrafficPolicy, ctps, pod, ctp);
    tm', ctp', winner := tm1, ctp1, None;
    if |matchedTMs| > 0 {
      var w;
      w, tm' := Award(ev, TrafficMonitor, tms, pod, matchedTMs, tm1, sorted);
      winner := Some((TrafficMonitor, w));
      forall cr | cr in tms {
        AddsAwarded(ev, tms, ctps, TrafficMonitor, cr, pod, w, tm[Key(TrafficMonitor, cr)],
                    tm1[Key(TrafficMonitor, cr)], tm'[Key(TrafficMonitor, cr)]);
      }
    } else if |matchedCTPs| > 0 {
      var w;
      w, ctp' := Award(ev, ClusterTrafficPolicy, ctps, pod, matchedCTPs, ctp1, sorted);
      winner := Some((ClusterTrafficPolicy, w));
      forall cr | cr in ctps {
        AddsAwarded(ev, tms, ctps, ClusterTrafficPolicy, cr, pod, w, ctp[Key(ClusterTrafficPolicy, cr)],
                    ctp1[Key(ClusterTrafficPolicy, cr)], ctp'[Key(ClusterTrafficPolicy, cr)]);
      }
    }
    if |matchedTMs| == 0 {
      forall cr | cr in tms {
        AddsNoted(ev, tms, ctps, TrafficMonitor, cr, pod, tm[Key(TrafficMonitor, cr)]);
      }
    }
    if |matchedTMs| > 0 || |matchedCTPs| == 0 {
      forall cr | cr in ctps {
        AddsNoted(ev, tms, ctps, ClusterTrafficPolicy, cr, pod, ctp[Key(ClusterTrafficPolicy, cr)]);
      }
    }
  }

  // ---------- the whole cluster ----------

  predicate Scheduled(pod: Pod) {
    pod.node != ""
  }

  function MatchedPods(ev: Eval, kind: Kind, cr: Cr, pods: seq<Pod>): (r: seq<Pod>)
    ensures forall pod :: pod in r <==> pod in pods && Scheduled(pod) && Matches(ev, kind, cr, pod)
  {
    if pods == [] then [] else
    var n := |pods| - 1;
    assert pods == pods[..n] + [pods[n]];
    MatchedPods(ev, kind, cr, pods[..n]) +
    if Scheduled(pods[n]) && Matches(ev, kind, cr, pods[n]) then [pods[n]] else []
  }

  function CoveredPods(ev: Eval, tms: seq<Cr>, ctps: seq<Cr>, kind: Kind, cr: Cr, pods: seq<Pod>): (r: seq<Pod>)
    ensures forall pod :: pod in r <==> pod in pods && Scheduled(pod) && Covers(ev, tms, ctps, pod) == Some((kind, cr))
  {
    if pods == [] then [] else
    var n := |pods| - 1;
    assert pods == pods[..n] + [pods[n]];
    CoveredPods(ev, tms, ctps, kind, cr, pods[..n]) +
    if Scheduled(pods[n]) && Covers(ev, tms, ctps, pods[n]) == Some((kind, cr)) then [pods[n]] else []
  }

  /** Everything `cr` is in conflict with, over all scheduled pods. */
  ghost predicate InConflict(ev: Eval, tms: seq<Cr>, ctps: seq<Cr>, kind: Kind, cr: Cr, pods: seq<Pod>, name: string) {
    exists pod | pod in pods && Scheduled(pod) :: name in PodConflicts(ev, tms, ctps, kind, cr, pod)
  }

  ghost predicate Described(ev: Eval, tms: seq<Cr>, ctps: seq<Cr>, kind: Kind, cr: Cr, pods: seq<Pod>, st: Status) {
    && st.matched == MatchedPods(ev, kind, cr, pods)
    && st.covered == CoveredPods(ev, tms, ctps, kind, cr, pods)
    && (forall name :: name in st.conflicts <==> InConflict(ev, tms, ctps, kind, cr, pods, name))
    && NoDup(st.conflicts)
  }

  ghost predicate AllDescribed(ev: Eval, tms: seq<Cr>, ctps: seq<Cr>, kind: Kind, pods: seq<Pod>,
                               status: map<string, Status>) {
    forall cr | cr in Listing(kind, tms, ctps) ::
      Key(kind, cr) in status && Described(ev, tms, ctps, kind, cr, pods, status[Key(kind, cr)])
  }

  /** The specs that are dispatched. */
  ghost function Specs(ev: Eval, tms: seq<Cr>, ctps: seq<Cr>, pods: seq<Pod>): (specs: map<string, Spec>) {
    if pods == [] then map[] else
    var n := |pods| - 1;
    var before := Specs(ev, tms, ctps, pods[..n]);
    if !Scheduled(pods[n]) || ComputeSpec(ev, pods[n], tms, ctps).None? then before
    else before[pods[n].uid := ComputeSpec(ev, pods[n], tms, ctps).value]
  }

  lemma DescribedNext(ev: Eval, tms: seq<Cr>, ctps: seq<Cr>, kind: Kind, cr: Cr, pods: seq<Pod>, pod: Pod, st: Status,
                      st': Status)
    requires Described(ev, tms, ctps, kind, cr, pods, st)
    requires if Scheduled(pod) then Adds(ev, tms, ctps, kind, cr, pod, st, st') else st' == st
    ensures Described(ev, tms, ctps, kind, cr, pods + [pod], st')
  {
  }

  lemma AllDescribedNext(ev: Eval, tms: seq<Cr>, ctps: seq<Cr>, kind: Kind, pods: seq<Pod>, pod: Pod,
                         status: map<string, Status>, status': map<string, Status>)
    requires AllDescribed(ev, tms, ctps, kind, pods, status) && status'.Keys == status.Keys
    requires if Scheduled(pod) then AllAdd(ev, tms, ctps, kind, pod, status, status') else status' == status
    ensures AllDescribed(ev, tms, ctps, kind, pods + [pod], status')
  {
    forall cr | cr in Listing(kind, tms, ctps)
      ensures Key(kind, cr) in status' && Described(ev, tms, ctps, kind, cr, pods + [pod], status'[Key(kind, cr)])
    {
      DescribedNext(ev, tms, ctps, kind, cr, pods, pod, status[Key(kind, cr)], status'[Key(kind, cr)]);
    }
  }

  /** The keys of a status map: namespace and name of a TrafficMonitor, the name of a ClusterTrafficPolicy. */
  ghost predicate KeyedBy(kind: Kind, crs: seq<Cr>, status: map<string, Status>) {
    forall k :: k in status <==> exists cr :: cr in crs && k == Key(kind, cr)
  }

  lemma KeyedKept(kind: Kind, crs: seq<Cr>, status: map<string, Status>, status': map<string, Status>)
    requires KeyedBy(kind, crs, status) && status'.Keys == status.Keys
    ensures KeyedBy(kind, crs, status')
  {
    forall k ensures k in status' <==> exists cr :: cr in crs && k == Key(kind, cr) {
      assert k in status' <==> k in status;
    }
  }

  method EmptyStatus(kind: Kind, crs: seq<Cr>) returns (status: map<string, Status>)
    ensures forall cr | cr in crs :: Key(kind, cr) in status && status[Key(kind, cr)] == Status([], [], [])
    ensures KeyedBy(kind, crs, status)
  {
    status := map[];
    for i := 0 to |crs|
      invariant forall j | 0 <= j < i :: Key(kind, crs[j]) in status
      invariant forall k | k in status :: exists cr :: cr in crs && k == Key(kind, cr)
      invariant forall k | k in status :: status[k] == Status([], [], [])
    {
      status := status[Key(kind, crs[i]) := Status([], [], [])];
    }
  }

  lemma EmptyDescribed(ev: Eval, tms: seq<Cr>, ctps: seq<Cr>, kind: Kind, status: map<string, Status>)
    requires forall cr | cr in Listing(kind, tms, ctps) ::
               Key(kind, cr) in status && status[Key(kind, cr)] == Status([], [], [])
    ensures AllDescribed(ev, tms, ctps, kind, [], status)
  {
  }

  lemma TrackedAll(ev: Eval, tms: seq<Cr>, ctps: seq<Cr>, pods: seq<Pod>, tm: map<string, Status>,
                   ctp: map<string, Status>)
    requires AllDescribed(ev, tms, ctps, TrafficMonitor, pods, tm)
    requires AllDescribed(ev, tms, ctps, ClusterTrafficPolicy, pods, ctp)
    ensures Tracked(TrafficMonitor, tms, tm) && Tracked(ClusterTrafficPolicy, ctps, ctp)
  {
  }

  ghost function WithSpec(specs: map<string, Spec>, uid: string, spec: Option<Spec>): (specs': map<string, Spec>) {
    if spec.None? then specs else specs[uid := spec.value]
  }

  lemma SpecsSnoc(ev: Eval, tms: seq<Cr>, ctps: seq<Cr>, pods: seq<Pod>, pod: Pod)
    ensures Specs(ev, tms, ctps, pods + [pod]) ==
            if Scheduled(pod) then WithSpec(Specs(ev, tms, ctps, pods), pod.uid, ComputeSpec(ev, pod, tms, ctps))
            else Specs(ev, tms, ctps, pods)
  {
  }

  method AddSpec(ev: Eval, tms: seq<Cr>, ctps: seq<Cr>, pod: Pod, winner: Option<(Kind, Cr)>, specs: map<string, Spec>)
    returns (specs': map<string, Spec>)
    requires winner == Covers(ev, tms, ctps, pod)
    ensures specs' == WithSpec(specs, pod.uid, ComputeSpec(ev, pod, tms, ctps))
  {
    if winner.None? {
      return specs;
    }
    var spec := BuildSpecFromCovering(pod, winner.value.1.core, SourceRef(winner.value.0, winner.value.1));
    if spec.None? {
      return specs;
    }
    return specs[pod.uid := spec.value];
  }

  /** The loop's body for one pod. */
  method VisitPod(ev: Eval, ghost pods: seq<Pod>, pod: Pod, tms: seq<Cr>, ctps: seq<Cr>, specs: map<string, Spec>,
                  tm: map<string, Status>, ctp: map<string, Status>, sorted: seq<Cr> -> seq<Cr>)
    returns (specs': map<string, Spec>, tm': map<string, Status>, ctp': map<string, Status>)
    requires UniqueKeys(TrafficMonitor, tms) && UniqueKeys(ClusterTrafficPolicy, ctps) && SortsByName(sorted)
    requires specs == Specs(ev, tms, ctps, pods)
    requires AllDescribed(ev, tms, ctps, TrafficMonitor, pods, tm)
    requires AllDescribed(ev, tms, ctps, ClusterTrafficPolicy, pods, ctp)
    ensures specs' == Specs(ev, tms, ctps, pods + [pod]) && tm'.Keys == tm.Keys && ctp'.Keys == ctp.Keys
    ensures AllDescribed(ev, tms, ctps, TrafficMonitor, pods + [pod], tm')
    ensures AllDescribed(ev, tms, ctps, ClusterTrafficPolicy, pods + [pod], ctp')
  {
    specs', tm', ctp' := specs, tm, ctp;
    SpecsSnoc(ev, tms, ctps, pods, pod);
    if Scheduled(pod) {
      var winner;
      TrackedAll(ev, tms, ctps, pods, tm, ctp);
      winner, tm', ctp' := CoverPod(ev, tms, ctps, pod, tm, ctp, sorted);
      specs' := AddSpec(ev, tms, ctps, pod, winner, specs);
    }
    AllDescribedNext(ev, tms, ctps, TrafficMonitor, pods, pod, tm, tm');
    AllDescribedNext(ev, tms, ctps, ClusterTrafficPolicy, pods, pod, ctp, ctp');
  }

  method VisitPods(ev: Eval, pods: seq<Pod>, tms: seq<Cr>, ctps: seq<Cr>, tm0: map<string, Status>,
                   ctp0: map<string, Status>, sorted: seq<Cr> -> seq<Cr>)
    returns (specs: map<string, Spec>, tm: map<string, Status>, ctp: map<string, Status>)
    requires UniqueKeys(TrafficMonitor, tms) && UniqueKeys(ClusterTrafficPolicy, ctps) && SortsByName(sorted)
    requires AllDescribed(ev, tms, ctps, TrafficMonitor, [], tm0)
    requires AllDescribed(ev, tms, ctps, ClusterTrafficPolicy, [], ctp0)
    ensures specs == Specs(ev, tms, ctps, pods) && tm.Keys == tm0.Keys && ctp.Keys == ctp0.Keys
    ensures AllDescribed(ev, tms, ctps, TrafficMonitor, pods, tm)
    ensures AllDescribed(ev, tms, ctps, ClusterTrafficPolicy, pods, ctp)
  {
    specs, tm, ctp := map[], tm0, ctp0;
    for i := 0 to |pods|
      invariant specs == Specs(ev, tms, ctps, pods[..i]) && tm.Keys == tm0.Keys && ctp.Keys == ctp0.Keys
      invariant AllDescribed(ev, tms, ctps, TrafficMonitor, pods[..i], tm)
      invariant AllDescribed(ev, tms, ctps, ClusterTrafficPolicy, pods[..i], ctp)
    {
      specs, tm, ctp := VisitPod(ev, pods[..i], pods[i], tms, ctps, specs, tm, ctp, sorted);
      assert pods[..i] + [pods[i]] == pods[..i + 1];
    }
    assert pods[..|pods|] == pods;
  }

  /** `ComputeCoverage`: one pass over the pods yields every pod's spec and every resource's status. */
  method ComputeCoverage(ev: Eval, pods: seq<Pod>, tms: seq<Cr>, ctps: seq<Cr>, sorted: seq<Cr> -> seq<Cr>)
    returns (specs: map<string, Spec>, tm: map<string, Status>, ctp: map<string, Status>)
    requires UniqueKeys(TrafficMonitor, tms) && UniqueKeys(ClusterTrafficPolicy, ctps) && SortsByName(sorted)
    ensures specs == Specs(ev, tms, ctps, pods)
    ensures AllDescribed(ev, tms, ctps, TrafficMonitor, pods, tm)
    ensures AllDescribed(ev, tms, ctps, ClusterTrafficPolicy, pods, ctp)
    ensures forall k :: k in tm <==> exists cr :: cr in tms && k == cr.namespace + "/" + cr.name
    ensures forall k :: k in ctp <==> exists cr :: cr in ctps && k == cr.name
  {
    var tm0 := EmptyStatus(TrafficMonitor, tms);
    var ctp0 := EmptyStatus(ClusterTrafficPolicy, ctps);
    EmptyDescribed(ev, tms, ctps, TrafficMonitor, tm0);
    EmptyDescribed(ev, tms, ctps, ClusterTrafficPolicy, ctp0);
    specs, tm, ctp := VisitPods(ev, pods, tms, ctps, tm0, ctp0, sorted);
    KeyedKept(TrafficMonitor, tms, tm0, tm);
    KeyedKept(ClusterTrafficPolicy, ctps, ctp0, ctp);
  }

  // ---------- what it means ----------

  predicate UniqueUids(pods: seq<Pod>) {
    forall i, j | 0 <= i < j < |pods| :: pods[i].uid != pods[j].uid
  }

  function Find(specs: map<string, Spec>, uid: string): (spec: Option<Spec>) {
    if uid in specs then Some(specs[uid]) else None
  }

  /** Every scheduled pod gets exactly `ComputeSpec`'s answer, and nothing else is dispatched. */
  lemma SpecsExact(ev: Eval, tms: seq<Cr>, ctps: seq<Cr>, pods: seq<Pod>, uid: string)
    requires UniqueUids(pods)
    ensures forall pod | pod in pods && pod.uid == uid && Scheduled(pod) ::
              ComputeSpec(ev, pod, tms, ctps) ==
              if uid in Specs(ev, tms, ctps, pods) then Some(Specs(ev, tms, ctps, pods)[uid]) else None
    ensures uid in Specs(ev, tms, ctps, pods) ==> exists pod :: pod in pods && pod.uid == uid && Scheduled(pod)
  {
    forall pod | pod in pods && pod.uid == uid && Scheduled(pod)
      ensures ComputeSpec(ev, pod, tms, ctps) == Find(Specs(ev, tms, ctps, pods), uid)
    {
      var k :| 0 <= k < |pods| && pods[k] == pod;
      SpecOf(ev, tms, ctps, pods, k);
    }
    SpecsListed(ev, tms, ctps, pods, uid);
  }

  lemma {:induction false} SpecsListed(ev: Eval, tms: seq<Cr>, ctps: seq<Cr>, pods: seq<Pod>, uid: string)
    ensures uid in Specs(ev, tms, ctps, pods) ==> exists pod :: pod in pods && pod.uid == uid && Scheduled(pod)
  {
    if pods != [] {
      var n := |pods| - 1;
      assert pods == pods[..n] + [pods[n]];
      SpecsListed(ev, tms, ctps, pods[..n], uid);
      SpecsSnoc(ev, tms, ctps, pods[..n], pods[n]);
      assert pods[n] in pods;
    }
  }

  lemma {:induction false} SpecOf(ev: Eval, tms: seq<Cr>, ctps: seq<Cr>, pods: seq<Pod>, k: nat)
    requires UniqueUids(pods) && k < |pods| && Scheduled(pods[k])
    ensures Find(Specs(ev, tms, ctps, pods), pods[k].uid) == ComputeSpec(ev, pods[k], tms, ctps)
  {
    var n := |pods| - 1;
    assert pods == pods[..n] + [pods[n]];
    SpecsSnoc(ev, tms, ctps, pods[..n], pods[n]);
    if k < n {
      SpecOf(ev, tms, ctps, pods[..n], k);
    } else {
      SpecsListed(ev, tms, ctps, pods[..n], pods[n].uid);
    }
  }

  /** The matched pods of a resource are, in order, the scheduled pods that it selects. */
  lemma {:induction false} MatchedPodsMean(ev: Eval, kind: Kind, cr: Cr, pods: seq<Pod>) returns (at: seq<nat>)
    ensures Picks(pods, MatchedPods(ev, kind, cr, pods), at)
    ensures forall i | 0 <= i < |pods| ::
              i in at <==> && pods[i].node != "" && (kind.TrafficMonitor? ==> cr.namespace == pods[i].namespace)
                           && (cr.selector.Some? ==> ev(cr.selector.value, pods[i].labels) == Some(true))
  {
    if pods == [] {
      at := [];
    } else {
      var n := |pods| - 1;
      at := MatchedPodsMean(ev, kind, cr, pods[..n]);
      PicksSnoc(pods[..n], MatchedPods(ev, kind, cr, pods[..n]), at, pods[n]);
      assert pods[..n] + [pods[n]] == pods;
      if Scheduled(pods[n]) && Matches(ev, kind, cr, pods[n]) {
        at := at + [n];
      }
    }
  }

  ghost function CoveredBy(ev: Eval, tms: seq<Cr>, ctps: seq<Cr>, kind: Kind, cr: Cr): (p: Pod -> bool) {
    (pod: Pod) => pod.node != "" && Covers(ev, tms, ctps, pod) == Some((kind, cr))
  }

  lemma {:induction false} CoveredIsWhere(ev: Eval, tms: seq<Cr>, ctps: seq<Cr>, kind: Kind, cr: Cr, pods: seq<Pod>)
    ensures CoveredPods(ev, tms, ctps, kind, cr, pods) == Where(pods, CoveredBy(ev, tms, ctps, kind, cr))
  {
    if pods != [] {
      CoveredIsWhere(ev, tms, ctps, kind, cr, pods[..|pods| - 1]);
    }
  }

  /** And its covered pods, in order, those that it covers. */
  lemma CoveredPodsMean(ev: Eval, tms: seq<Cr>, ctps: seq<Cr>, kind: Kind, cr: Cr, pods: seq<Pod>)
    returns (at: seq<nat>)
    ensures PicksWhere(pods, CoveredPods(ev, tms, ctps, kind, cr, pods), at, CoveredBy(ev, tms, ctps, kind, cr))
  {
    CoveredIsWhere(ev, tms, ctps, kind, cr, pods);
    at := WherePicks(pods, CoveredBy(ev, tms, ctps, kind, cr));
  }

  /** The two resources disagree, both match the pod, and one of them covers it. */
  ghost predicate Quarrel(ev: Eval, tms: seq<Cr>, ctps: seq<Cr>, kind: Kind, cr: Cr, other: Cr, pod: Pod) {
    && !Agree(cr.core, other.core) && Matches(ev, kind, cr, pod) && Matches(ev, kind, other, pod)
    && (Covers(ev, tms, ctps, pod) == Some((kind, cr)) || Covers(ev, tms, ctps, pod) == Some((kind, other)))
  }

  /** A resource reports exactly the names of those that it quarrels with over some scheduled pod. */
  lemma InConflictMeans(ev: Eval, tms: seq<Cr>, ctps: seq<Cr>, kind: Kind, cr: Cr, pods: seq<Pod>, name: string)
    requires cr in Listing(kind, tms, ctps)
    ensures InConflict(ev, tms, ctps, kind, cr, pods, name) <==>
            exists pod, other :: && pod in pods && pod.node != "" && other in Listing(kind, tms, ctps)
                                 && name == (if kind.TrafficMonitor? then other.namespace + "/" else "") + other.name
                                 && Quarrel(ev, tms, ctps, kind, cr, other, pod)
  {
    forall pod
      ensures name in PodConflicts(ev, tms, ctps, kind, cr, pod) <==>
              exists other :: && other in Listing(kind, tms, ctps) && name == Key(kind, other)
                              && Quarrel(ev, tms, ctps, kind, cr, other, pod)
    {
      PodConflictsMean(ev, tms, ctps, kind, cr, pod, name);
    }
    forall other: Cr
      ensures Key(kind, other) == (if kind.TrafficMonitor? then other.namespace + "/" else "") + other.name
    {
      assert other.namespace + "/" + other.name == (other.namespace + "/") + other.name;
      assert "" + other.name == other.name;
    }
  }

  lemma PodConflictsMean(ev: Eval, tms: seq<Cr>, ctps: seq<Cr>, kind: Kind, cr: Cr, pod: Pod, name: string)
    requires cr in Listing(kind, tms, ctps)
    ensures name in PodConflicts(ev, tms, ctps, kind, cr, pod) <==>
            exists other :: && other in Listing(kind, tms, ctps) && name == Key(kind, other)
                            && Quarrel(ev, tms, ctps, kind, cr, other, pod)
  {
    AgreeReflexive(cr.core);
    if Covers(ev, tms, ctps, pod).Some? {
      AgreeSymmetric(cr.core, Covers(ev, tms, ctps, pod).value.1.core);
    }
  }

  /** A pod that anything matches is covered. */
  lemma CoveredIffMatched(ev: Eval, tms: seq<Cr>, ctps: seq<Cr>, pod: Pod)
    ensures Covers(ev, tms, ctps, pod).Some? <==>
            || (exists cr :: cr in tms && Matches(ev, TrafficMonitor, cr, pod))
            || (exists cr :: cr in ctps && Matches(ev, ClusterTrafficPolicy, cr, pod))
  {
  }

  /** Each matched scheduled pod is in the covered pods of exactly one resource, which matches it. */
  lemma OneOwner(ev: Eval, tms: seq<Cr>, ctps: seq<Cr>, pods: seq<Pod>, pod: Pod)
    requires pod in pods && Scheduled(pod) && Covers(ev, tms, ctps, pod).Some?
    ensures var (kind, owner) := Covers(ev, tms, ctps, pod).value;
            && owner in Listing(kind, tms, ctps) && pod in MatchedPods(ev, kind, owner, pods)
            && forall k, cr :: pod in CoveredPods(ev, tms, ctps, k, cr, pods) <==> k == kind && cr == owner
  {
  }

  lemma PodConflictSymmetric(ev: Eval, tms: seq<Cr>, ctps: seq<Cr>, kind: Kind, a: Cr, b: Cr, pod: Pod)
    requires UniqueKeys(kind, Listing(kind, tms, ctps))
    requires a in Listing(kind, tms, ctps) && b in Listing(kind, tms, ctps)
    requires Key(kind, b) in PodConflicts(ev, tms, ctps, kind, a, pod)
    ensures Key(kind, a) in PodConflicts(ev, tms, ctps, kind, b, pod)
  {
    var crs := Listing(kind, tms, ctps);
    var winner := Covers(ev, tms, ctps, pod).value.1;
    AgreeReflexive(a.core);
    if a == winner {
      var o :| o in Matching(ev, kind, crs, pod) && !Agree(winner.core, o.core) && Key(kind, o) == Key(kind, b);
      SameKey(kind, crs, o, b);
    } else {
      SameKey(kind, crs, winner, b);
      assert a in Matching(ev, kind, crs, pod);
    }
  }

  lemma SameKey(kind: Kind, crs: seq<Cr>, a: Cr, b: Cr)
    requires UniqueKeys(kind, crs) && a in crs && b in crs && Key(kind, a) == Key(kind, b)
    ensures a == b
  {
  }

  /** If one resource reports a conflict with another, the other reports one with it. */
  lemma ConflictSymmetric(ev: Eval, tms: seq<Cr>, ctps: seq<Cr>, kind: Kind, a: Cr, b: Cr, pods: seq<Pod>)
    requires UniqueKeys(kind, Listing(kind, tms, ctps))
    requires a in Listing(kind, tms, ctps) && b in Listing(kind, tms, ctps)
    ensures InConflict(ev, tms, ctps, kind, a, pods, Key(kind, b)) <==>
            InConflict(ev, tms, ctps, kind, b, pods, Key(kind, a))
  {
    if InConflict(ev, tms, ctps, kind, a, pods, Key(kind, b)) {
      ConflictTurns(ev, tms, ctps, kind, a, b, pods);
    }
    if InConflict(ev, tms, ctps, kind, b, pods, Key(kind, a)) {
      ConflictTurns(ev, tms, ctps, kind, b, a, pods);
    }
  }

  lemma ConflictTurns(ev: Eval, tms: seq<Cr>, ctps: seq<Cr>, kind: Kind, a: Cr, b: Cr, pods: seq<Pod>)
    requires UniqueKeys(kind, Listing(kind, tms, ctps))
    requires a in Listing(kind, tms, ctps) && b in Listing(kind, tms, ctps)
    requires InConflict(ev, tms, ctps, kind, a, pods, Key(kind, b))
    ensures InConflict(ev, tms, ctps, kind, b, pods, Key(kind, a))
  {
    var pod :| pod in pods && Scheduled(pod) && Key(kind, b) in PodConflicts(ev, tms, ctps, kind, a, pod);
    PodConflictSymmetric(ev, tms, ctps, kind, a, b, pod);
  }

  /** A resource that reports no conflict could be replaced by any other of its kind that matches one of its pods: the
      protocols and ports on the wire would be the same. */
  lemma NoConflictSameWire(ev: Eval, tms: seq<Cr>, ctps: seq<Cr>, kind: Kind, cr: Cr, pods: seq<Pod>, pod: Pod,
                           other: Cr)
    requires forall name :: !InConflict(ev, tms, ctps, kind, cr, pods, name)
    requires pod in CoveredPods(ev, tms, ctps, kind, cr, pods)
    requires other in Listing(kind, tms, ctps) && Matches(ev, kind, other, pod)
    ensures Bits(other.core) == Bits(cr.core) && WirePorts(other.core) == WirePorts(cr.core)
  {
    assert !InConflict(ev, tms, ctps, kind, cr, pods, Key(kind, other));
    assert other in Matching(ev, kind, Listing(kind, tms, ctps), pod);
    assert Key(kind, other) !in PodConflicts(ev, tms, ctps, kind, cr, pod);
    AgreeSameWire(cr.core, other.core);
  }

  /** The order in which the resources are listed makes no difference to specs, coverage or conflicts. */
  lemma {:induction false} CoverageOrderFree(ev: Eval, tms: seq<Cr>, tms': seq<Cr>, ctps: seq<Cr>, ctps': seq<Cr>,
                                             pods: seq<Pod>, kind: Kind, cr: Cr)
    requires UniqueKeys(TrafficMonitor, tms) && multiset(tms) == multiset(tms')
    requires UniqueKeys(ClusterTrafficPolicy, ctps) && multiset(ctps) == multiset(ctps')
    ensures Specs(ev, tms', ctps', pods) == Specs(ev, tms, ctps, pods)
    ensures CoveredPods(ev, tms', ctps', kind, cr, pods) == CoveredPods(ev, tms, ctps, kind, cr, pods)
  {
    if pods != [] {
      var n := |pods| - 1;
      CoverageOrderFree(ev, tms, tms', ctps, ctps', pods[..n], kind, cr);
      SpecOrderFree(ev, pods[n], tms, tms', ctps, ctps');
    }
  }

  lemma ConflictOrderFree(ev: Eval, tms: seq<Cr>, tms': seq<Cr>, ctps: seq<Cr>, ctps': seq<Cr>, pods: seq<Pod>,
                          kind: Kind, cr: Cr, name: string)
    requires UniqueKeys(TrafficMonitor, tms) && multiset(tms) == multiset(tms')
    requires UniqueKeys(ClusterTrafficPolicy, ctps) && multiset(ctps) == multiset(ctps')
    ensures InConflict(ev, tms', ctps', kind, cr, pods, name) <==> InConflict(ev, tms, ctps, kind, cr, pods, name)
  {
    forall pod
      ensures PodConflicts(ev, tms', ctps', kind, cr, pod) == PodConflicts(ev, tms, ctps, kind, cr, pod)
    {
      PodConflictOrderFree(ev, tms, tms', ctps, ctps', kind, cr, pod);
    }
  }

  lemma PodConflictOrderFree(ev: Eval, tms: seq<Cr>, tms': seq<Cr>, ctps: seq<Cr>, ctps': seq<Cr>, kind: Kind, cr: Cr,
                             pod: Pod)
    requires UniqueKeys(TrafficMonitor, tms) && multiset(tms) == multiset(tms')
    requires UniqueKeys(ClusterTrafficPolicy, ctps) && multiset(ctps) == multiset(ctps')
    ensures PodConflicts(ev, tms', ctps', kind, cr, pod) == PodConflicts(ev, tms, ctps, kind, cr, pod)
  {
    SpecOrderFree(ev, pod, tms, tms', ctps, ctps');
    SameMatching(ev, kind, Listing(kind, tms, ctps), Listing(kind, tms', ctps'), pod);
    if Covers(ev, tms, ctps, pod).Some? {
      ClashMembers(kind, Covers(ev, tms, ctps, pod).value.1, Matching(ev, kind, Listing(kind, tms, ctps), pod),
                   Matching(ev, kind, Listing(kind, tms', ctps'), pod), cr);
    }
  }

  lemma ClashMembers(kind: Kind, winner: Cr, ms: seq<Cr>, ms': seq<Cr>, cr: Cr)
    requires forall o :: o in ms <==> o in ms'
    ensures Clash(kind, winner, ms', cr) == Clash(kind, winner, ms, cr)
  {
  }

  lemma SameMatching(ev: Eval, kind: Kind, crs: seq<Cr>, crs': seq<Cr>, pod: Pod)
    requires multiset(crs) == multiset(crs')
    ensures forall o :: o in Matching(ev, kind, crs', pod) <==> o in Matching(ev, kind, crs, pod)
  {
    forall o
      ensures o in crs <==> o in crs'
    {
      assert o in crs <==> o in multiset(crs);
      assert o in crs' <==> o in multiset(crs');
    }
  }
}
