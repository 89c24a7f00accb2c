/** Which custom resource covers which pod (coverage.go, spec.go).

    `TrafficMonitor`s and `ClusterTrafficPolicy`s are both `Cr`s here.  Whether a label selector is valid and matches
    is the Kubernetes library's business: `Eval` gives its answer, and `None` when the selector is in error. */
module Coverage {
  import opened Prelude
  import opened ControlPlane

  type Int32 = x: int | -0x8000_0000 <= x < 0x8000_0000
  type Labels = map<string, string>
  type Eval = (string, Labels) -> Option<bool>

  datatype Pod = Pod(uid: string, name: string, namespace: string, node: string, labels: Labels)

  datatype L7 = L7(enabled: bool, ports: seq<Int32>)
  datatype Core = Core(l4: Option<bool>, http: Option<L7>, grpc: Option<L7>)

  /** A cluster policy may have no selector; it then selects every pod. */
  datatype Cr = Cr(namespace: string, name: string, selector: Option<string>, core: Core)

  datatype Kind = TrafficMonitor | ClusterTrafficPolicy

  predicate L4Enabled(c: Core) { c.l4 == Some(true) }
  predicate HttpEnabled(c: Core) { c.http.Some? && c.http.value.enabled }
  predicate GrpcEnabled(c: Core) { c.grpc.Some? && c.grpc.value.enabled }

  const L4_TCP: nat := 1
  const HTTP1: nat := 2
  const GRPC: nat := 8

  // ---------- the wire spec ----------

  /** The protocols of a resource, one bit each. */
  function Bits(c: Core): (n: nat) {
    (if L4Enabled(c) then L4_TCP else 0) + (if HttpEnabled(c) then HTTP1 else 0) + (if GrpcEnabled(c) then GRPC else 0)
  }

  /** HTTP and gRPC ports together. */
  function PortSet(c: Core): (ps: set<Int32>) {
    (set p | HttpEnabled(c) && p in c.http.value.ports) + (set p | GrpcEnabled(c) && p in c.grpc.value.ports)
  }

  /** Go's conversion to `uint32`. */
  function ToU32(p: Int32): (n: nat) {
    if p < 0 then p + 0x1_0000_0000 else p
  }

  predicate Ascending(s: seq<int>) {
    forall i, j | 0 <= i < j < |s| :: s[i] <= s[j]
  }

  function SortInts(s: seq<int>): (r: seq<int>)
    ensures Ascending(r) && multiset(r) == multiset(s)
  {
    if s == [] then [] else
    assert s == [s[0]] + s[1..];
    InsertInt(s[0], SortInts(s[1..]))
  }

  function InsertInt(x: int, s: seq<int>): (r: seq<int>)
    requires Ascending(s)
    ensures multiset(r) == multiset{x} + multiset(s) && Ascending(r)
    ensures r != [] && r[0] == if s == [] || x <= s[0] then x else s[0]
  {
    if s == [] || x <= s[0] then [x] + s
    else
      assert s == [s[0]] + s[1..];
      [s[0]] + InsertInt(x, s[1..])
  }

  lemma HeadIsLeast(s: seq<int>, x: int)
    requires Ascending(s) && x in multiset(s)
    ensures s != [] && s[0] <= x
  {
  }

  lemma TailBag(s: seq<int>)
    requires s != []
    ensures multiset(s[1..]) == multiset(s) - multiset{s[0]}
  {
    assert s == [s[0]] + s[1..];
  }

  lemma SameLength<T>(a: seq<T>, b: seq<T>)
    requires multiset(a) == multiset(b)
    ensures |a| == |b|
  {
    assert |multiset(a)| == |a| && |multiset(b)| == |b|;
  }

  lemma SameHead(a: seq<int>, b: seq<int>)
    requires Ascending(a) && Ascending(b) && multiset(a) == multiset(b) && a != [] && b != []
    ensures a[0] == b[0]
  {
    assert a[0] in multiset(a) && b[0] in multiset(b);
    HeadIsLeast(a, b[0]);
    HeadIsLeast(b, a[0]);
  }

  lemma AscendingTail(s: seq<int>)
    requires s != [] && Ascending(s)
    ensures Ascending(s[1..])
  {
  }

  lemma ConsInjective(a: seq<int>, b: seq<int>)
    requires a != [] && b != [] && a[0] == b[0] && a[1..] == b[1..]
    ensures a == b
  {
  }

  /** There is one way to sort a bag of numbers. */
  lemma {:induction false} SortedOnce(a: seq<int>, b: seq<int>)
    requires Ascending(a) && Ascending(b) && multiset(a) == multiset(b)
    ensures a == b
    decreases |a|
  {
    SameLength(a, b);
    if a != [] {
      SameHead(a, b);
      TailBag(a);
      TailBag(b);
      AscendingTail(a);
      AscendingTail(b);
      SortedOnce(a[1..], b[1..]);
      ConsInjective(a, b);
    }
  }

  // ---------- agreement ----------

  /** The bags of ports agree where the protocol is enabled. */
  predicate PortsAgree(a: Option<L7>, b: Option<L7>) {
    a.Some? && b.Some? && multiset(a.value.ports) == multiset(b.value.ports)
  }

  predicate Agree(a: Core, b: Core) {
    && L4Enabled(a) == L4Enabled(b)
    && HttpEnabled(a) == HttpEnabled(b) && (HttpEnabled(a) ==> PortsAgree(a.http, b.http))
    && GrpcEnabled(a) == GrpcEnabled(b) && (GrpcEnabled(a) ==> PortsAgree(a.grpc, b.grpc))
  }

  /** The comparison of two normalized port lists inside `specsAgree`. */
  method SameLists(ap: seq<int>, bp: seq<int>) returns (same: bool)
    ensures same <==> ap == bp
  {
    if |ap| != |bp| {
      return false;
    }
    for i := 0 to |ap|
      invariant forall j | 0 <= j < i :: ap[j] == bp[j]
    {
      if ap[i] != bp[i] {
        return false;
      }
    }
    return true;
  }

  method SamePorts(a: seq<Int32>, b: seq<Int32>) returns (same: bool)
    ensures same <==> multiset(a) == multiset(b)
  {
    SortedIff(a, b);
    same := SameLists(SortInts(a), SortInts(b));
  }

  lemma SortedIff(a: seq<int>, b: seq<int>)
    ensures SortInts(a) == SortInts(b) <==> multiset(a) == multiset(b)
  {
    if multiset(a) == multiset(b) {
      SortedOnce(SortInts(a), SortInts(b));
    }
  }

  method SpecsAgree(a: Core, b: Core) returns (agree: bool)
    ensures agree <==> Agree(a, b)
  {
    if L4Enabled(a) != L4Enabled(b) || HttpEnabled(a) != HttpEnabled(b) {
      return false;
    }
    if HttpEnabled(a) {
      var same := SamePorts(a.http.value.ports, b.http.value.ports);
      if !same {
        return false;
      }
    }
    if GrpcEnabled(a) != GrpcEnabled(b) {
      return false;
    }
    if GrpcEnabled(a) {
      var same := SamePorts(a.grpc.value.ports, b.grpc.value.ports);
      if !same {
        return false;
      }
    }
    return true;
  }

  /** What agrees looks the same on the wire. */
  lemma AgreeSameWire(a: Core, b: Core)
    requires Agree(a, b)
    ensures Bits(a) == Bits(b) && PortSet(a) == PortSet(b)
  {
    if HttpEnabled(a) {
      SameMembers(a.http.value.ports, b.http.value.ports);
    }
    if GrpcEnabled(a) {
      SameMembers(a.grpc.value.ports, b.grpc.value.ports);
    }
  }

  lemma SameMembers(a: seq<Int32>, b: seq<Int32>)
    requires multiset(a) == multiset(b)
    ensures forall p :: p in a <==> p in b
  {
    forall p
      ensures p in a <==> p in b
    {
      assert p in a <==> p in multiset(a);
      assert p in b <==> p in multiset(b);
    }
  }

  // ---------- agreement and the documented comparison of port sets ----------

  predicate NoRepeats(ports: seq<Int32>) {
    forall i, j | 0 <= i < j < |ports| :: ports[i] != ports[j]
  }

  /** No enabled protocol lists a port twice. */
  predicate RepeatFree(c: Core) {
    (HttpEnabled(c) ==> NoRepeats(c.http.value.ports)) && (GrpcEnabled(c) ==> NoRepeats(c.grpc.value.ports))
  }

  ghost predicate SamePortSet(a: seq<Int32>, b: seq<Int32>) {
    forall p: Int32 :: p in a <==> p in b
  }

  predicate SameProtocols(a: Core, b: Core) {
    L4Enabled(a) == L4Enabled(b) && HttpEnabled(a) == HttpEnabled(b) && GrpcEnabled(a) == GrpcEnabled(b)
  }

  /** What the comment on `specsAgree` says: the same protocols with the same port sets. */
  ghost predicate SetAgree(a: Core, b: Core) {
    && SameProtocols(a, b)
    && (HttpEnabled(a) ==> SamePortSet(a.http.value.ports, b.http.value.ports))
    && (GrpcEnabled(a) ==> SamePortSet(a.grpc.value.ports, b.grpc.value.ports))
  }

  ghost predicate SameWire(a: Core, b: Core) {
    Bits(a) == Bits(b) && PortSet(a) == PortSet(b)
  }

  /** A list without repeats has each of its ports once. */
  lemma {:induction false} OnceEach(ports: seq<Int32>, p: Int32)
    requires NoRepeats(ports)
    ensures multiset(ports)[p] == if p in ports then 1 else 0
  {
    if ports != [] {
      var n := |ports| - 1;
      assert ports == ports[..n] + [ports[n]];
      OnceEach(ports[..n], p);
    }
  }

  lemma SetsAreBags(a: seq<Int32>, b: seq<Int32>)
    requires NoRepeats(a) && NoRepeats(b)
    ensures multiset(a) == multiset(b) <==> SamePortSet(a, b)
  {
    if SamePortSet(a, b) {
      forall p: Int32
        ensures multiset(a)[p] == multiset(b)[p]
      {
        OnceEach(a, p);
        OnceEach(b, p);
      }
    } else if multiset(a) == multiset(b) {
      SameMembers(a, b);
    }
  }

  /** Where no port is listed twice, the code compares port sets as its comment says. */
  lemma AgreeIsSetAgree(a: Core, b: Core)
    requires RepeatFree(a) && RepeatFree(b)
    ensures Agree(a, b) <==> SetAgree(a, b)
  {
    if SameProtocols(a, b) && HttpEnabled(a) {
      SetsAreBags(a.http.value.ports, b.http.value.ports);
    }
    if SameProtocols(a, b) && GrpcEnabled(a) {
      SetsAreBags(a.grpc.value.ports, b.grpc.value.ports);
    }
  }

  /** A resource with no port to list twice. */
  predicate NoPorts(c: Core) {
    (HttpEnabled(c) ==> c.http.value.ports == []) && (GrpcEnabled(c) ==> c.grpc.value.ports == [])
  }

  /** The same list with its first port once more: the same set, and another bag. */
  lemma Doubled(ports: seq<Int32>)
    requires ports != []
    ensures SamePortSet(ports, ports + [ports[0]]) && multiset(ports) != multiset(ports + [ports[0]])
  {
    assert |multiset(ports + [ports[0]])| == |ports| + 1 && |multiset(ports)| == |ports|;
  }

  lemma SameSetAsNone(ports: seq<Int32>)
    ensures SamePortSet([], ports) <==> ports == []
  {
    if ports != [] {
      assert ports[0] in ports;
    }
  }

  /** The repeated port is all there is to it: a resource agrees with every other one that has the same port sets,
      if and only if it lists no ports. */
  lemma SetAgreeSufficesIff(a: Core)
    ensures (forall b :: SetAgree(a, b) ==> Agree(a, b)) <==> NoPorts(a)
  {
    if HttpEnabled(a) && a.http.value.ports != [] {
      var ports := a.http.value.ports;
      Doubled(ports);
      var b := a.(http := Some(L7(true, ports + [ports[0]])));
      assert SetAgree(a, b) && !Agree(a, b);
    } else if GrpcEnabled(a) && a.grpc.value.ports != [] {
      var ports := a.grpc.value.ports;
      Doubled(ports);
      var b := a.(grpc := Some(L7(true, ports + [ports[0]])));
      assert SetAgree(a, b) && !Agree(a, b);
    } else {
      forall b | SetAgree(a, b)
        ensures Agree(a, b)
      {
        if HttpEnabled(a) {
          SameSetAsNone(b.http.value.ports);
        }
        if GrpcEnabled(a) {
          SameSetAsNone(b.grpc.value.ports);
        }
      }
    }
  }

  /** The bits tell which protocols are enabled. */
  lemma BitsTell(a: Core, b: Core)
    ensures Bits(a) == Bits(b) <==> SameProtocols(a, b)
  {
  }

  /** Only one of the two protocols that carry ports. */
  lemma OneProtocolWire(a: Core, b: Core)
    requires SameWire(a, b) && !(HttpEnabled(a) && GrpcEnabled(a))
    ensures SetAgree(a, b)
  {
    BitsTell(a, b);
    forall p: Int32
      ensures HttpEnabled(a) ==> (p in a.http.value.ports <==> p in b.http.value.ports)
      ensures GrpcEnabled(a) ==> (p in a.grpc.value.ports <==> p in b.grpc.value.ports)
    {
      assert p in PortSet(a) <==> p in PortSet(b);
    }
  }

  lemma PortSetEmpty(c: Core)
    ensures PortSet(c) == {} <==> NoPorts(c)
  {
    assert HttpEnabled(c) && c.http.value.ports != [] ==> c.http.value.ports[0] in PortSet(c);
    assert GrpcEnabled(c) && c.grpc.value.ports != [] ==> c.grpc.value.ports[0] in PortSet(c);
  }

  /** A resource with the same wire form that lists a port twice. */
  lemma DoubledWire(a: Core)
    requires !NoPorts(a)
    ensures exists b :: SameWire(a, b) && !Agree(a, b)
  {
    if HttpEnabled(a) && a.http.value.ports != [] {
      var ports := a.http.value.ports;
      Doubled(ports);
      var b := a.(http := Some(L7(true, ports + [ports[0]])));
      assert SameWire(a, b) && !Agree(a, b);
    } else {
      var ports := a.grpc.value.ports;
      Doubled(ports);
      var b := a.(grpc := Some(L7(true, ports + [ports[0]])));
      assert SameWire(a, b) && !Agree(a, b);
    }
  }

  /** The wire form decides agreement with every other resource, if and only if there are no ports. */
  lemma WireDecidesIff(a: Core)
    ensures (forall b | SameWire(a, b) :: Agree(a, b)) <==> PortSet(a) == {}
  {
    PortSetEmpty(a);
    if PortSet(a) == {} {
      forall b | SameWire(a, b)
        ensures Agree(a, b)
      {
        PortSetEmpty(b);
        BitsTell(a, b);
      }
    } else {
      DoubledWire(a);
    }
  }

  /** A list with one more port, or an emptied one, is another bag. */
  lemma OtherBag(ports: seq<Int32>, p: Int32)
    ensures multiset(ports) != multiset(ports + [p])
    ensures ports != [] ==> multiset(ports) != multiset{}
  {
    assert |multiset(ports + [p])| == |ports| + 1 && |multiset(ports)| == |ports|;
  }

  /** With both protocols enabled, a port can be listed under either. */
  lemma MovedPort(a: Core)
    requires RepeatFree(a) && HttpEnabled(a) && GrpcEnabled(a) && !NoPorts(a)
    ensures exists b :: RepeatFree(b) && SameWire(a, b) && !Agree(a, b)
  {
    var h, g := a.http.value.ports, a.grpc.value.ports;
    if p: Int32 :| p in h && p !in g {
      OtherBag(g, p);
      var b := a.(grpc := Some(L7(true, g + [p])));
      assert RepeatFree(b) && SameWire(a, b) && !Agree(a, b);
    } else if p: Int32 :| p in g && p !in h {
      OtherBag(h, p);
      var b := a.(http := Some(L7(true, h + [p])));
      assert RepeatFree(b) && SameWire(a, b) && !Agree(a, b);
    } else {
      assert h != [] ==> h[0] in g;
      assert g != [] ==> g[0] in h;
      OtherBag(h, 0);
      var b := a.(http := Some(L7(true, [])));
      assert RepeatFree(b) && SameWire(a, b) && !Agree(a, b);
    }
  }

  /** Among resources that list no port twice, the wire form decides agreement unless ports could move between HTTP and
      gRPC: both are enabled, and there are ports. */
  lemma WireDecidesRepeatFreeIff(a: Core)
    requires RepeatFree(a)
    ensures (forall b | RepeatFree(b) && SameWire(a, b) :: Agree(a, b)) <==>
            !(HttpEnabled(a) && GrpcEnabled(a)) || PortSet(a) == {}
  {
    PortSetEmpty(a);
    if HttpEnabled(a) && GrpcEnabled(a) && PortSet(a) != {} {
      MovedPort(a);
    } else if PortSet(a) == {} {
      WireDecidesIff(a);
    } else {
      forall b | RepeatFree(b) && SameWire(a, b)
        ensures Agree(a, b)
      {
        OneProtocolWire(a, b);
        AgreeIsSetAgree(a, b);
      }
    }
  }

  /** A port listed twice, and ports exchanged between HTTP and gRPC: the same on the wire, and a disagreement. */
  lemma SameWireMayDisagree()
    ensures var once, twice := Core(None, Some(L7(true, [80])), None), Core(None, Some(L7(true, [80, 80])), None);
            SetAgree(once, twice) && SameWire(once, twice) && !Agree(once, twice)
    ensures var a := Core(None, Some(L7(true, [80])), Some(L7(true, [90])));
            var b := Core(None, Some(L7(true, [90])), Some(L7(true, [80])));
            RepeatFree(a) && RepeatFree(b) && SameWire(a, b) && !Agree(a, b)
  {
  }

  ghost function Some1<T>(s: set<T>): (x: T)
    requires s != {}
    ensures x in s
  {
    var x :| x in s;
    x
  }

  /** A set of numbers in order. */
  ghost function InOrder(s: set<int>): (r: seq<int>)
    ensures Ascending(r) && multiset(r) == multiset(s)
  {
    if s == {} then [] else
    var x := Some1(s);
    assert multiset(s) == multiset(s - {x}) + multiset{x};
    InsertInt(x, InOrder(s - {x}))
  }

  function AsU32(ps: set<Int32>): (ns: set<int>) {
    set p | p in ps :: ToU32(p) as int
  }

  ghost function WirePorts(c: Core): (r: seq<int>) {
    InOrder(AsU32(PortSet(c)))
  }

  /** `buildSpecFromCovering`. */
  ghost function BuildSpec(pod: Pod, core: Core, ref: string): (r: Option<Spec>) {
    if Bits(core) == 0 then None
    else Some(Spec(pod.uid, pod.name, pod.namespace, pod.node, Bits(core), WirePorts(core), ref))
  }

  /** Nothing if no protocol is enabled; else the pod's identity, a bit for each enabled protocol, and every port of an
      enabled protocol once, as an unsigned number, in order. */
  lemma BuildSpecMeans(pod: Pod, core: Core, ref: string)
    ensures var http, grpc := core.http.Some? && core.http.value.enabled, core.grpc.Some? && core.grpc.value.enabled;
            match BuildSpec(pod, core, ref)
            case None => core.l4 != Some(true) && !http && !grpc
            case Some(s) =>
              && s.podUid == pod.uid && s.podName == pod.name && s.namespace == pod.namespace && s.node == pod.node
              && s.sourceRef == ref
              && s.protocols ==
                 (if core.l4 == Some(true) then 1 else 0) + (if http then 2 else 0) + (if grpc then 8 else 0)
              && s.protocols > 0
              && (forall i, j | 0 <= i < j < |s.httpPorts| :: s.httpPorts[i] < s.httpPorts[j])
              && (forall n :: n in s.httpPorts <==> exists p :: OpensPort(core, p, n))
  {
    WirePortsMean(core);
  }

  /** The resource lists port `p` for an enabled protocol, and `n` is what it is on the wire. */
  predicate OpensPort(core: Core, p: Int32, n: int) {
    && (|| (core.http.Some? && core.http.value.enabled && p in core.http.value.ports)
        || (core.grpc.Some? && core.grpc.value.enabled && p in core.grpc.value.ports))
    && n == if p < 0 then p + 0x1_0000_0000 else p
  }

  lemma WirePortsMean(core: Core)
    ensures forall i, j | 0 <= i < j < |WirePorts(core)| :: WirePorts(core)[i] < WirePorts(core)[j]
    ensures forall n :: n in WirePorts(core) <==> exists p :: OpensPort(core, p, n)
  {
    SetInOrder(AsU32(PortSet(core)), WirePorts(core));
    forall n
      ensures n in WirePorts(core) <==> exists p :: OpensPort(core, p, n)
    {
      PortOnWire(core, n);
    }
  }

  lemma PortOnWire(core: Core, n: int)
    ensures n in AsU32(PortSet(core)) <==> exists p :: OpensPort(core, p, n)
  {
    if n in AsU32(PortSet(core)) {
      var p :| p in PortSet(core) && n == ToU32(p);
      assert OpensPort(core, p, n);
    }
    if p :| OpensPort(core, p, n) {
      assert p in PortSet(core) && n == ToU32(p);
    }
  }

  lemma SetInOrder(ns: set<int>, s: seq<int>)
    requires Ascending(s) && multiset(s) == multiset(ns)
    ensures forall i, j | 0 <= i < j < |s| :: s[i] < s[j]
    ensures forall n :: n in s <==> n in ns
  {
    forall n
      ensures n in s <==> n in ns
    {
      assert n in s <==> n in multiset(s);
    }
    forall i, j | 0 <= i < j < |s|
      ensures s[i] < s[j]
    {
      assert multiset(ns)[s[i]] <= 1;
      if s[i] == s[j] {
        TwiceThere(s, i, j);
      }
    }
  }

  lemma TwiceThere(s: seq<int>, i: nat, j: nat)
    requires i < j < |s| && s[i] == s[j]
    ensures multiset(s)[s[i]] >= 2
  {
    assert s == s[..j] + [s[j]] + s[j + 1..];
    assert s[..j][i] in multiset(s[..j]);
  }

  lemma AgreeSymmetric(a: Core, b: Core)
    ensures Agree(a, b) <==> Agree(b, a)
  {
  }

  method BuildSpecFromCovering(pod: Pod, core: Core, ref: string) returns (r: Option<Spec>)
    ensures r == BuildSpec(pod, core, ref)
  {
    var protocols, httpPorts := Fold(core);
    if protocols == 0 {
      return None;
    }
    var ports := SortPorts(httpPorts);
    SortedOnce(ports, WirePorts(core));
    return Some(Spec(pod.uid, pod.name, pod.namespace, pod.node, protocols, ports, ref));
  }

  /** Its first half: the enabled protocols and their ports. */
  method Fold(core: Core) returns (protocols: nat, httpPorts: set<Int32>)
    ensures protocols == Bits(core) && httpPorts == PortSet(core)
  {
    protocols, httpPorts := 0, {};
    if L4Enabled(core) {
      protocols := protocols + L4_TCP;
    }
    if HttpEnabled(core) {
      protocols := protocols + HTTP1;
      httpPorts := AddPorts(httpPorts, core.http.value.ports);
    }
    if GrpcEnabled(core) {
      protocols := protocols + GRPC;
      httpPorts := AddPorts(httpPorts, core.grpc.value.ports);
    }
  }

  method AddPorts(ports: set<Int32>, more: seq<Int32>) returns (ports': set<Int32>)
    ensures ports' == ports + set p | p in more
  {
    ports' := ports;
    for i := 0 to |more|
      invariant ports' == ports + set p | p in more[..i]
    {
      assert more[..i + 1] == more[..i] + [more[i]];
      ports' := ports' + {more[i]};
    }
    assert more[..|more|] == more;
  }

  method SortPorts(httpPorts: set<Int32>) returns (ports: seq<int>)
    ensures Ascending(ports) && multiset(ports) == multiset(AsU32(httpPorts))
  {
    var list: seq<int> := [];
    var todo := httpPorts;
    ghost var done: set<Int32> := {};
    while todo != {}
      invariant todo <= httpPorts && done == httpPorts - todo && multiset(list) == multiset(AsU32(done))
      decreases |todo|
    {
      var p :| p in todo;
      OneMorePort(done, p);
      todo, done := todo - {p}, done + {p};
      list := list + [ToU32(p)];
    }
    ports := SortInts(list);
  }

  /** The conversion keeps ports apart. */
  lemma OneMorePort(ps: set<Int32>, p: Int32)
    requires p !in ps
    ensures multiset(AsU32(ps + {p})) == multiset(AsU32(ps)) + multiset{ToU32(p) as int}
  {
  }
}
