/** The sink's writer: type codes, message appends and shard rotation (`writer.go`).

    `codeForType` publishes a new code under one lock and declares it in the file under another, and a
    rotation may come between any two of a writer's steps, or even between opening the new shard and
    re-declaring the known codes in it.  `Next` is that system, step by step, for any number of
    goroutines that call `WriteObject`, any of whose writes may fail; the class `Writer` is the same operations
    called in sequence. */
module ShardWriter {
  import opened Prelude
  import opened Wire
  import opened ShardFormat
  import opened MapRange

  const FIRST_CODE: UInt32 := 32

  /** "otlptracefile.ObjectType" */
  const OBJECT_TYPE_NAME: Bytes :=
    [111, 116, 108, 112, 116, 114, 97, 99, 101, 102, 105, 108, 101, 46, 79, 98, 106, 101, 99, 116, 84, 121, 112, 101]

  /** One object on its way into the file. */
  datatype Item<M> = Item(name: Bytes, data: Bytes, msg: M)

  /** Where a goroutine stands in `WriteObject`: outside; with a code it has published but not yet
      declared; or with a code in hand, about to append. */
  datatype Phase<M> = Idle | Published(item: Item<M>, code: UInt32) | Coded(item: Item<M>, code: UInt32)

  /** `shards` ends with the open one.  `rotating` holds from the moment a new shard is opened until the
      codes are re-declared in it; the file lock is held all that time.  The rest is history: `announced` are the types
      that some shard has declared, `failed` those whose declaration has failed and that no rotation has declared since,
      and `written` the messages appended so far. */
  datatype Sys<M> = Sys(
    typeCodes: map<Bytes, UInt32>,
    next: nat,
    shards: seq<seq<Record<M>>>,
    rotating: bool,
    writers: map<nat, Phase<M>>,
    announced: set<Bytes>,
    failed: set<Bytes>,
    written: seq<M>)

  datatype Action<M> =
    | Call(w: nat, item: Item<M>)
    | Declare(w: nat)
    | Append(w: nat)
    | WriteFails(w: nat)
    | RotateOpen
    | RotateDeclare(order: seq<Bytes>)

  ghost predicate ItemOk<M>(env: Env<M>, item: Item<M>) {
    env.known(item.name) && env.decode(item.name, item.data) == Some(item.msg)
  }

  /** File steps wait for the file lock.  The 32-bit code counter must not have been used up. */
  ghost predicate Enabled<M>(env: Env<M>, s: Sys<M>, a: Action<M>) {
    match a
    case Call(w, item) => w in s.writers && s.writers[w].Idle? && ItemOk(env, item) && s.next < U32
    case Declare(w) => w in s.writers && s.writers[w].Published? && !s.rotating
    case Append(w) => w in s.writers && s.writers[w].Coded? && !s.rotating
    case WriteFails(w) => w in s.writers && !s.writers[w].Idle? && !s.rotating
    case RotateOpen => !s.rotating
    case RotateDeclare(order) => s.rotating && Enumerates(order, s.typeCodes.Keys)
  }

  function AppendOpen<M>(shards: seq<seq<Record<M>>>, rs: seq<Record<M>>): (r: seq<seq<Record<M>>>)
    requires |shards| > 0
  {
    shards[|shards| - 1 := shards[|shards| - 1] + rs]
  }

  function Declarations<M>(codes: map<Bytes, UInt32>, order: seq<Bytes>): (rs: seq<Record<M>>)
    requires forall name | name in order :: name in codes
    ensures |rs| == |order|
    ensures forall i | 0 <= i < |rs| :: rs[i] == Announce(codes[order[i]], order[i])
  {
    seq(|order|, i requires 0 <= i < |order| => Announce(codes[order[i]], order[i]))
  }

  ghost function Next<M>(env: Env<M>, s: Sys<M>, a: Action<M>): (s': Sys<M>)
    requires |s.shards| > 0 && Enabled(env, s, a)
  {
    match a
    case Call(w, item) =>
      if item.name in s.typeCodes then
        s.(writers := s.writers[w := Coded(item, s.typeCodes[item.name])])
      else
        s.(typeCodes := s.typeCodes[item.name := s.next], next := s.next + 1,
           writers := s.writers[w := Published(item, s.next)])
    case Declare(w) =>
      var Published(item, code) := s.writers[w];
      s.(shards := AppendOpen(s.shards, [Announce(code, item.name)]),
         announced := s.announced + {item.name}, failed := s.failed - {item.name},
         writers := s.writers[w := Coded(item, code)])
    case Append(w) =>
      var Coded(item, code) := s.writers[w];
      s.(shards := AppendOpen(s.shards, [Message(code, item.data, item.msg)]),
         written := s.written + [item.msg],
         writers := s.writers[w := Idle])
    // `WriteObject` returns the error; the code stays published.
    case WriteFails(w) =>
      s.(writers := s.writers[w := Idle],
         failed := if s.writers[w].Published? then s.failed + ({s.writers[w].item.name} - s.announced) else s.failed)
    case RotateOpen =>
      s.(shards := s.shards + [[]], rotating := true)
    case RotateDeclare(order) =>
      s.(shards := AppendOpen(s.shards, Redeclaration(s.typeCodes, order)),
         announced := s.announced + s.typeCodes.Keys, failed := {},
         rotating := false)
  }

  // ---------- what every step keeps, for any number of goroutines ----------

  /** Codes start at 32, are below the counter, and no two types share one. */
  ghost predicate CodesOk(codes: map<Bytes, UInt32>, next: nat) {
    && FIRST_CODE <= next <= U32
    && (forall n | n in codes :: FIRST_CODE <= codes[n] < next)
    && (forall m, n | m in codes && n in codes && codes[m] == codes[n] :: m == n)
  }

  /** A shard only declares the reserved code 1 and codes that are in force. */
  ghost predicate DeclaresOnly<M>(shard: seq<Record<M>>, codes: map<Bytes, UInt32>, announced: set<Bytes>) {
    forall i | 0 <= i < |shard| && shard[i].Announce? ::
      || shard[i].code == OBJECT_TYPE
      || (shard[i].name in announced && shard[i].name in codes && codes[shard[i].name] == shard[i].code)
  }

  ghost predicate PhaseOk<M>(env: Env<M>, p: Phase<M>, codes: map<Bytes, UInt32>) {
    p.Idle? || (ItemOk(env, p.item) && p.item.name in codes && codes[p.item.name] == p.code)
  }

  ghost predicate HasPublisher<M>(writers: map<nat, Phase<M>>, n: Bytes) {
    exists w :: w in writers && writers[w].Published? && writers[w].item.name == n
  }

  ghost predicate Inv<M>(env: Env<M>, s: Sys<M>) {
    && |s.shards| > 0
    && CodesOk(s.typeCodes, s.next)
    && s.announced <= s.typeCodes.Keys && s.failed <= s.typeCodes.Keys && s.failed !! s.announced
    && (forall w | w in s.writers :: PhaseOk(env, s.writers[w], s.typeCodes))
    && (forall k | 0 <= k < |s.shards| :: DeclaresOnly(s.shards[k], s.typeCodes, s.announced))
    // An announced type is declared in the open shard, once rotation has finished.
    && (!s.rotating ==> forall n | n in s.announced ::
          Announce(s.typeCodes[n], n) in s.shards[|s.shards| - 1])
    // A type is unannounced only while the goroutine that published its code has not declared it, or if that failed.
    && (forall n | n in s.typeCodes && n !in s.announced && n !in s.failed :: HasPublisher(s.writers, n))
    && s.written == AllMessages(s.shards)
  }

  function AllMessages<M>(shards: seq<seq<Record<M>>>): (ms: seq<M>) {
    if shards == [] then [] else AllMessages(shards[..|shards| - 1]) + Messages(shards[|shards| - 1])
  }

  ghost function Initial<M>(ws: set<nat>): (s: Sys<M>) {
    Sys(map[], FIRST_CODE, [[Announce(OBJECT_TYPE, OBJECT_TYPE_NAME)]], false, map w | w in ws :: Idle, {}, {}, [])
  }

  lemma {:induction false} MessagesAppend<M>(a: seq<Record<M>>, b: seq<Record<M>>)
    ensures Messages(a + b) == Messages(a) + Messages(b)
  {
    if a == [] {
      assert a + b == b;
    } else {
      assert (a + b)[0] == a[0] && (a + b)[1..] == a[1..] + b;
      MessagesAppend(a[1..], b);
    }
  }

  lemma {:induction false} NoMessages<M>(rs: seq<Record<M>>)
    requires forall i | 0 <= i < |rs| :: rs[i].Announce?
    ensures Messages(rs) == []
  {
    if rs != [] {
      NoMessages(rs[1..]);
    }
  }

  lemma AllMessagesAppend<M>(shards: seq<seq<Record<M>>>, rs: seq<Record<M>>)
    requires |shards| > 0
    ensures AllMessages(AppendOpen(shards, rs)) == AllMessages(shards) + Messages(rs)
  {
    var n := |shards| - 1;
    MessagesAppend(shards[n], rs);
    AllMessagesLast(shards[..n], shards[n]);
    AllMessagesLast(shards[..n], shards[n] + rs);
    assert shards == shards[..n] + [shards[n]];
    assert AppendOpen(shards, rs) == shards[..n] + [shards[n] + rs];
    Associate(AllMessages(shards[..n]), Messages(shards[n]), Messages(rs));
  }

  lemma AllMessagesLast<M>(shards: seq<seq<Record<M>>>, log: seq<Record<M>>)
    ensures AllMessages(shards + [log]) == AllMessages(shards) + Messages(log)
  {
    assert (shards + [log])[..|shards|] == shards;
  }

  lemma Associate<T>(a: seq<T>, b: seq<T>, c: seq<T>)
    ensures a + (b + c) == (a + b) + c
  {
  }

  lemma InitialInv<M>(env: Env<M>, ws: set<nat>)
    ensures Inv(env, Initial<M>(ws))
  {
    var s := Initial<M>(ws);
    assert s.shards[..0] == [];
    NoMessages(s.shards[0]);
  }

  /** Codes are never reassigned: the table only grows. */
  lemma CodesNeverChange<M>(env: Env<M>, s: Sys<M>, a: Action<M>)
    requires Inv(env, s) && Enabled(env, s, a)
    ensures forall n | n in s.typeCodes ::
              n in Next(env, s, a).typeCodes && Next(env, s, a).typeCodes[n] == s.typeCodes[n]
  {
  }

  /** A step of `w` leaves the other publishers in place. */
  lemma PublishersStay<M>(writers: map<nat, Phase<M>>, w: nat, p: Phase<M>, n: Bytes)
    requires w in writers && HasPublisher(writers, n)
    requires writers[w].Published? ==> writers[w].item.name != n
    ensures HasPublisher(writers[w := p], n)
  {
    var v :| v in writers && writers[v].Published? && writers[v].item.name == n;
    assert writers[w := p][v] == writers[v];
  }

  lemma KnownCallKeeps<M>(env: Env<M>, s: Sys<M>, w: nat, item: Item<M>)
    requires Inv(env, s) && Enabled(env, s, Call(w, item)) && item.name in s.typeCodes
    ensures Inv(env, Next(env, s, Call(w, item)))
  {
    var s' := Next(env, s, Call(w, item));
    forall n | n in s'.typeCodes && n !in s'.announced && n !in s'.failed
      ensures HasPublisher(s'.writers, n)
    {
      PublishersStay(s.writers, w, s'.writers[w], n);
    }
  }

  lemma NewCallKeeps<M>(env: Env<M>, s: Sys<M>, w: nat, item: Item<M>)
    requires Inv(env, s) && Enabled(env, s, Call(w, item)) && item.name !in s.typeCodes
    ensures Inv(env, Next(env, s, Call(w, item)))
  {
    var s' := Next(env, s, Call(w, item));
    forall n | n in s'.typeCodes && n !in s'.announced && n !in s'.failed
      ensures HasPublisher(s'.writers, n)
    {
      if n == item.name {
        assert s'.writers[w].item.name == n;
      } else {
        PublishersStay(s.writers, w, s'.writers[w], n);
      }
    }
    forall k | 0 <= k < |s.shards|
      ensures DeclaresOnly(s.shards[k], s'.typeCodes, s.announced)
    {
      var shard := s.shards[k];
      assert DeclaresOnly(shard, s.typeCodes, s.announced);
    }
    forall v | v in s'.writers
      ensures PhaseOk(env, s'.writers[v], s'.typeCodes)
    {
      assert v != w ==> PhaseOk(env, s.writers[v], s.typeCodes);
    }
  }

  lemma DeclaresSnoc<M>(shard: seq<Record<M>>, r: Record<M>, codes: map<Bytes, UInt32>, announced: set<Bytes>)
    requires DeclaresOnly(shard, codes, announced) && DeclaresOnly([r], codes, announced)
    ensures DeclaresOnly(shard + [r], codes, announced)
    ensures forall x :: x in shard + [r] <==> x in shard || x == r
  {
  }

  lemma DeclareKeeps<M>(env: Env<M>, s: Sys<M>, w: nat)
    requires Inv(env, s) && Enabled(env, s, Declare(w))
    ensures Inv(env, Next(env, s, Declare(w)))
  {
    var s', open := Next(env, s, Declare(w)), |s.shards| - 1;
    var r: Record<M> := Announce(s.writers[w].code, s.writers[w].item.name);
    AllMessagesAppend(s.shards, [r]);
    NoMessages([r]);
    DeclaresSnoc(s.shards[open], r, s.typeCodes, s.announced + {r.name});
    forall n | n in s'.typeCodes && n !in s'.announced && n !in s'.failed
      ensures HasPublisher(s'.writers, n)
    {
      PublishersStay(s.writers, w, s'.writers[w], n);
    }
  }

  lemma AppendKeeps<M>(env: Env<M>, s: Sys<M>, w: nat)
    requires Inv(env, s) && Enabled(env, s, Append(w))
    ensures Inv(env, Next(env, s, Append(w)))
  {
    var s', open := Next(env, s, Append(w)), |s.shards| - 1;
    var Coded(item, code) := s.writers[w];
    var r := Message(code, item.data, item.msg);
    AllMessagesAppend(s.shards, [r]);
    assert [r][1..] == [] && Messages([r]) == [r.msg];
    DeclaresSnoc(s.shards[open], r, s.typeCodes, s.announced);
    forall n | n in s'.typeCodes && n !in s'.announced && n !in s'.failed
      ensures HasPublisher(s'.writers, n)
    {
      PublishersStay(s.writers, w, s'.writers[w], n);
    }
  }

  lemma WriteFailsKeeps<M>(env: Env<M>, s: Sys<M>, w: nat)
    requires Inv(env, s) && Enabled(env, s, WriteFails(w))
    ensures Inv(env, Next(env, s, WriteFails(w)))
  {
    var s' := Next(env, s, WriteFails(w));
    assert PhaseOk(env, s.writers[w], s.typeCodes);
    forall n | n in s'.typeCodes && n !in s'.announced && n !in s'.failed
      ensures HasPublisher(s'.writers, n)
    {
      PublishersStay(s.writers, w, s'.writers[w], n);
    }
  }

  lemma RotateOpenKeeps<M>(env: Env<M>, s: Sys<M>)
    requires Inv(env, s) && Enabled(env, s, RotateOpen)
    ensures Inv(env, Next(env, s, RotateOpen))
  {
  }

  function Redeclaration<M>(codes: map<Bytes, UInt32>, order: seq<Bytes>): (rs: seq<Record<M>>)
    requires forall name | name in order :: name in codes
  {
    [Announce(OBJECT_TYPE, OBJECT_TYPE_NAME)] + Declarations(codes, order)
  }

  /** Whatever the map order, re-declaring leaves every code declared and nothing else. */
  lemma RedeclarationComplete<M>(shard: seq<Record<M>>, codes: map<Bytes, UInt32>, announced: set<Bytes>,
                                 order: seq<Bytes>)
    requires Enumerates(order, codes.Keys) && DeclaresOnly(shard, codes, announced)
    ensures var shard' := shard + Redeclaration(codes, order);
            && (forall name | name in codes :: Announce(codes[name], name) in shard')
            && DeclaresOnly(shard', codes, codes.Keys + announced)
    ensures Messages(Redeclaration<M>(codes, order)) == []
  {
    var rs := Redeclaration<M>(codes, order);
    NoMessages(rs);
    forall name | name in codes
      ensures Announce(codes[name], name) in shard + rs
    {
      var i :| 0 <= i < |order| && order[i] == name;
      assert (shard + rs)[|shard| + 1 + i] == Announce(codes[name], name);
    }
  }

  lemma RotateDeclareKeeps<M>(env: Env<M>, s: Sys<M>, order: seq<Bytes>)
    requires Inv(env, s) && Enabled(env, s, RotateDeclare(order))
    ensures Inv(env, Next(env, s, RotateDeclare(order)))
  {
    var open := |s.shards| - 1;
    AllMessagesAppend(s.shards, Redeclaration(s.typeCodes, order));
    RedeclarationComplete(s.shards[open], s.typeCodes, s.announced, order);
  }

  lemma StepKeeps<M>(env: Env<M>, s: Sys<M>, a: Action<M>)
    requires Inv(env, s) && Enabled(env, s, a)
    ensures Inv(env, Next(env, s, a))
  {
    match a
    case Call(w, item) =>
      if item.name in s.typeCodes {
        KnownCallKeeps(env, s, w, item);
      } else {
        NewCallKeeps(env, s, w, item);
      }
    case Declare(w) => DeclareKeeps(env, s, w);
    case Append(w) => AppendKeeps(env, s, w);
    case WriteFails(w) => WriteFailsKeeps(env, s, w);
    case RotateOpen => RotateOpenKeeps(env, s);
    case RotateDeclare(order) => RotateDeclareKeeps(env, s, order);
  }

  // ---------- which records can be read back ----------

  ghost predicate AllReadable<M>(env: Env<M>, s: Sys<M>) {
    forall k | 0 <= k < |s.shards| :: SelfContained(env, s.shards[k], map[])
  }

  /** In a shard that declares only codes in force, a reader knows a type's code exactly when the type is
      declared there, and knows it as that type. */
  lemma ReaderKnows<M>(shard: seq<Record<M>>, codes: map<Bytes, UInt32>, next: nat, announced: set<Bytes>, n: Bytes)
    requires CodesOk(codes, next) && DeclaresOnly(shard, codes, announced) && n in codes
    ensures var t := TypesAfter(shard, map[]);
            && (codes[n] in t <==> Announce(codes[n], n) in shard)
            && (codes[n] in t ==> t[codes[n]] == n)
  {
    KnownFromLog(shard, map[], codes[n]);
  }

  /** Appending a message keeps its shard readable exactly when the message's type is announced: when the
      first `codeForType` call for it has returned, or a rotation has declared it since. */
  lemma AppendReadableIff<M>(env: Env<M>, s: Sys<M>, w: nat)
    requires Inv(env, s) && Enabled(env, s, Append(w))
    ensures var open := |s.shards| - 1;
            SelfContained(env, Next(env, s, Append(w)).shards[open], map[]) <==>
            SelfContained(env, s.shards[open], map[]) && s.writers[w].item.name in s.announced
  {
    var shard := s.shards[|s.shards| - 1];
    var Coded(item, code) := s.writers[w];
    assert DeclaresOnly(shard, s.typeCodes, s.announced);
    assert PhaseOk(env, s.writers[w], s.typeCodes);
    SelfContainedSnoc(env, shard, Message(code, item.data, item.msg), map[]);
    ReaderKnows(shard, s.typeCodes, s.next, s.announced, item.name);
  }

  lemma {:induction false} DeclarationsReadable<M>(env: Env<M>, shard: seq<Record<M>>, rs: seq<Record<M>>)
    requires SelfContained(env, shard, map[])
    requires forall i | 0 <= i < |rs| :: rs[i].Announce?
    ensures SelfContained(env, shard + rs, map[])
  {
    if rs == [] {
      assert shard + rs == shard;
    } else {
      var n := |rs| - 1;
      DeclarationsReadable(env, shard, rs[..n]);
      SelfContainedSnoc(env, shard + rs[..n], rs[n], map[]);
      assert shard + rs == (shard + rs[..n]) + [rs[n]];
    }
  }

  /** Declarations neither make nor mend an unreadable record. */
  lemma DeclarationsReadableIff<M>(env: Env<M>, shard: seq<Record<M>>, rs: seq<Record<M>>)
    requires forall i | 0 <= i < |rs| :: rs[i].Announce?
    ensures SelfContained(env, shard + rs, map[]) <==> SelfContained(env, shard, map[])
  {
    if SelfContained(env, shard, map[]) {
      DeclarationsReadable(env, shard, rs);
    }
    if SelfContained(env, shard + rs, map[]) {
      SelfContainedPrefix(env, shard + rs, map[], |shard|);
      assert (shard + rs)[..|shard|] == shard;
    }
  }

  /** A change of the open shard. */
  lemma OpenReadableIff<M>(env: Env<M>, s: Sys<M>, rs: seq<Record<M>>, ok: bool)
    requires |s.shards| > 0
    requires var open := s.shards[|s.shards| - 1];
             SelfContained(env, open + rs, map[]) <==> SelfContained(env, open, map[]) && ok
    ensures var s' := s.(shards := AppendOpen(s.shards, rs));
            AllReadable(env, s') <==> AllReadable(env, s) && ok
  {
    var shards', n := AppendOpen(s.shards, rs), |s.shards| - 1;
    assert forall k | 0 <= k < n :: shards'[k] == s.shards[k];
    assert shards'[n] == s.shards[n] + rs;
    if AllReadable(env, s.(shards := shards')) {
      assert SelfContained(env, shards'[n], map[]);
      forall k | 0 <= k < |s.shards|
        ensures SelfContained(env, s.shards[k], map[])
      {
        assert SelfContained(env, shards'[k], map[]);
      }
    }
  }

  /** A step leaves every shard readable if and only if every shard was, and it does not append a message whose type is
      not announced. */
  lemma StepReadableIff<M>(env: Env<M>, s: Sys<M>, a: Action<M>)
    requires Inv(env, s) && Enabled(env, s, a)
    ensures AllReadable(env, Next(env, s, a)) <==>
            AllReadable(env, s) && (a.Append? ==> s.writers[a.w].item.name in s.announced)
  {
    var open := |s.shards| - 1;
    match a
    case Append(w) =>
      var Coded(item, code) := s.writers[w];
      AppendReadableIff(env, s, w);
      OpenReadableIff(env, s, [Message(code, item.data, item.msg)], item.name in s.announced);
    case Declare(w) =>
      var rs: seq<Record<M>> := [Announce(s.writers[w].code, s.writers[w].item.name)];
      DeclarationsReadableIff(env, s.shards[open], rs);
      OpenReadableIff(env, s, rs, true);
    case RotateDeclare(order) =>
      DeclarationsReadableIff(env, s.shards[open], Redeclaration(s.typeCodes, order));
      OpenReadableIff(env, s, Redeclaration(s.typeCodes, order), true);
    case RotateOpen =>
      var s' := Next(env, s, RotateOpen);
      assert forall k | 0 <= k < |s.shards| :: s'.shards[k] == s.shards[k];
    case _ =>
  }

  // ---------- whole runs ----------

  /** `acts` can be taken one after the other from `s`. */
  ghost predicate IsRun<M>(env: Env<M>, s: Sys<M>, acts: seq<Action<M>>)
    decreases |acts|
  {
    acts == [] || (|s.shards| > 0 && Enabled(env, s, acts[0]) && IsRun(env, Next(env, s, acts[0]), acts[1..]))
  }

  ghost function RunTo<M>(env: Env<M>, s: Sys<M>, acts: seq<Action<M>>): (s': Sys<M>)
    requires IsRun(env, s, acts)
    decreases |acts|
  {
    if acts == [] then s else RunTo(env, Next(env, s, acts[0]), acts[1..])
  }

  /** No message is appended before its type is announced. */
  ghost predicate Patient<M>(env: Env<M>, s: Sys<M>, acts: seq<Action<M>>)
    requires IsRun(env, s, acts)
    decreases |acts|
  {
    acts != [] ==>
      && (acts[0].Append? ==> s.writers[acts[0].w].item.name in s.announced)
      && Patient(env, Next(env, s, acts[0]), acts[1..])
  }

  lemma {:induction false} RunKeeps<M>(env: Env<M>, s: Sys<M>, acts: seq<Action<M>>)
    requires Inv(env, s) && IsRun(env, s, acts)
    ensures Inv(env, RunTo(env, s, acts))
    decreases |acts|
  {
    if acts != [] {
      StepKeeps(env, s, acts[0]);
      RunKeeps(env, Next(env, s, acts[0]), acts[1..]);
    }
  }

  /** An unreadable shard stays so. */
  lemma {:induction false} StaysUnreadable<M>(env: Env<M>, s: Sys<M>, acts: seq<Action<M>>)
    requires Inv(env, s) && IsRun(env, s, acts) && !AllReadable(env, s)
    ensures !AllReadable(env, RunTo(env, s, acts))
    decreases |acts|
  {
    if acts != [] {
      StepKeeps(env, s, acts[0]);
      StepReadableIff(env, s, acts[0]);
      StaysUnreadable(env, Next(env, s, acts[0]), acts[1..]);
    }
  }

  /** Any number of goroutines: a run leaves every shard readable if and only if it is patient. */
  lemma {:induction false} PatientIffReadable<M>(env: Env<M>, s: Sys<M>, acts: seq<Action<M>>)
    requires Inv(env, s) && AllReadable(env, s) && IsRun(env, s, acts)
    ensures AllReadable(env, RunTo(env, s, acts)) <==> Patient(env, s, acts)
    decreases |acts|
  {
    if acts != [] {
      var s' := Next(env, s, acts[0]);
      StepKeeps(env, s, acts[0]);
      StepReadableIff(env, s, acts[0]);
      if AllReadable(env, s') {
        PatientIffReadable(env, s', acts[1..]);
      } else {
        StaysUnreadable(env, s', acts[1..]);
      }
    }
  }

  /** Whatever the goroutines do, no record is read as anything else than it was written as. */
  ghost predicate AllRight<M>(env: Env<M>, s: Sys<M>) {
    forall k | 0 <= k < |s.shards| :: NoneMisread(env, s.shards[k], map[])
  }

  lemma {:induction false} DeclarationsRight<M>(env: Env<M>, shard: seq<Record<M>>, rs: seq<Record<M>>)
    requires NoneMisread(env, shard, map[]) && forall i | 0 <= i < |rs| :: rs[i].Announce?
    ensures NoneMisread(env, shard + rs, map[])
  {
    if rs == [] {
      assert shard + rs == shard;
    } else {
      var n := |rs| - 1;
      DeclarationsRight(env, shard, rs[..n]);
      NoneMisreadSnoc(env, shard + rs[..n], rs[n], map[]);
      assert shard + rs == (shard + rs[..n]) + [rs[n]];
    }
  }

  lemma AppendRight<M>(env: Env<M>, s: Sys<M>, w: nat)
    requires Inv(env, s) && Enabled(env, s, Append(w))
    requires NoneMisread(env, s.shards[|s.shards| - 1], map[])
    ensures var Coded(item, code) := s.writers[w];
            NoneMisread(env, s.shards[|s.shards| - 1] + [Message(code, item.data, item.msg)], map[])
  {
    var shard := s.shards[|s.shards| - 1];
    var Coded(item, code) := s.writers[w];
    assert DeclaresOnly(shard, s.typeCodes, s.announced);
    assert PhaseOk(env, s.writers[w], s.typeCodes);
    ReaderKnows(shard, s.typeCodes, s.next, s.announced, item.name);
    NoneMisreadSnoc(env, shard, Message(code, item.data, item.msg), map[]);
  }

  lemma StepRight<M>(env: Env<M>, s: Sys<M>, a: Action<M>)
    requires Inv(env, s) && Enabled(env, s, a) && AllRight(env, s)
    ensures AllRight(env, Next(env, s, a))
  {
    var open := |s.shards| - 1;
    match a
    case Append(w) => AppendRight(env, s, w);
    case Declare(w) =>
      DeclarationsRight(env, s.shards[open], [Announce(s.writers[w].code, s.writers[w].item.name)]);
    case RotateDeclare(order) => DeclarationsRight(env, s.shards[open], Redeclaration(s.typeCodes, order));
    case _ =>
  }

  lemma {:induction false} RunRight<M>(env: Env<M>, s: Sys<M>, acts: seq<Action<M>>)
    requires Inv(env, s) && IsRun(env, s, acts) && AllRight(env, s)
    ensures AllRight(env, RunTo(env, s, acts))
    decreases |acts|
  {
    if acts != [] {
      StepKeeps(env, s, acts[0]);
      StepRight(env, s, acts[0]);
      RunRight(env, Next(env, s, acts[0]), acts[1..]);
    }
  }

  ghost predicate AllReadBack<M>(env: Env<M>, s: Sys<M>)
    requires forall k | 0 <= k < |s.shards| :: AllWritable(s.shards[k])
  {
    forall k | 0 <= k < |s.shards| :: ReadShard(env, ShardBytes(env, s.shards[k])) == Parsed(Messages(s.shards[k]))
  }

  /** In the terms of the reader: for any number of goroutines, any rotations and any failed writes, every shard parses
      to exactly the messages written to it, if and only if no message was appended before its type was announced. */
  lemma ReadBackIffPatient<M>(env: Env<M>, ws: set<nat>, acts: seq<Action<M>>)
    requires IsRun(env, Initial<M>(ws), acts)
    requires var s := RunTo(env, Initial<M>(ws), acts); forall k | 0 <= k < |s.shards| :: AllWritable(s.shards[k])
    ensures AllReadBack(env, RunTo(env, Initial<M>(ws), acts)) <==> Patient(env, Initial<M>(ws), acts)
  {
    var s0 := Initial<M>(ws);
    InitialReadable(env, ws);
    NoneMisreadSnoc(env, [], s0.shards[0][0], map[]);
    assert [] + [s0.shards[0][0]] == s0.shards[0];
    RunRight(env, s0, acts);
    PatientIffReadable(env, s0, acts);
    AllReadBackIff(env, RunTo(env, s0, acts));
  }

  lemma AllReadBackIff<M>(env: Env<M>, s: Sys<M>)
    requires AllRight(env, s) && forall k | 0 <= k < |s.shards| :: AllWritable(s.shards[k])
    ensures AllReadBack(env, s) <==> AllReadable(env, s)
  {
    forall k | 0 <= k < |s.shards|
      ensures ReadShard(env, ShardBytes(env, s.shards[k])) == Parsed(Messages(s.shards[k])) <==>
              SelfContained(env, s.shards[k], map[])
    {
      ReadsBackIff(env, s.shards[k]);
    }
  }

  /** No message is appended whose type's declaration has failed, unless a rotation has made up for it. */
  ghost predicate Careful<M>(env: Env<M>, s: Sys<M>, acts: seq<Action<M>>)
    requires IsRun(env, s, acts)
    decreases |acts|
  {
    acts != [] ==>
      && (acts[0].Append? ==> s.writers[acts[0].w].item.name !in s.failed)
      && Careful(env, Next(env, s, acts[0]), acts[1..])
  }

  /** For one goroutine that is all there is to patience, wherever the rotations fall. */
  lemma {:induction false} OneWriterPatientIff<M>(env: Env<M>, s: Sys<M>, acts: seq<Action<M>>, w: nat)
    requires Inv(env, s) && IsRun(env, s, acts) && s.writers.Keys == {w}
    ensures Patient(env, s, acts) <==> Careful(env, s, acts)
    decreases |acts|
  {
    if acts != [] {
      StepKeeps(env, s, acts[0]);
      if acts[0].Append? {
        OneWriterAnnounced(env, s, w);
      }
      OneWriterPatientIff(env, Next(env, s, acts[0]), acts[1..], w);
    }
  }

  lemma OneWriterAnnounced<M>(env: Env<M>, s: Sys<M>, w: nat)
    requires Inv(env, s) && s.writers.Keys == {w} && s.writers[w].Coded?
    ensures s.writers[w].item.name in s.announced <==> s.writers[w].item.name !in s.failed
  {
    assert PhaseOk(env, s.writers[w], s.typeCodes);
  }

  lemma InitialReadable<M>(env: Env<M>, ws: set<nat>)
    ensures Inv(env, Initial<M>(ws)) && AllReadable(env, Initial<M>(ws))
  {
    var shard := Initial<M>(ws).shards[0];
    InitialInv(env, ws);
    SelfContainedSnoc(env, [], shard[0], map[]);
    assert [] + [shard[0]] == shard;
  }

  /** With one goroutine every shard parses to exactly the messages written to it, if and only if it is careful. */
  lemma ReadBackIffCareful<M>(env: Env<M>, w: nat, acts: seq<Action<M>>)
    requires IsRun(env, Initial<M>({w}), acts)
    requires var s := RunTo(env, Initial<M>({w}), acts); forall k | 0 <= k < |s.shards| :: AllWritable(s.shards[k])
    ensures AllReadBack(env, RunTo(env, Initial<M>({w}), acts)) <==> Careful(env, Initial<M>({w}), acts)
  {
    InitialReadable(env, {w});
    ReadBackIffPatient(env, {w}, acts);
    OneWriterPatientIff(env, Initial<M>({w}), acts, w);
  }

  /** With one careful goroutine and any rotations, every shard parses to exactly the messages written to it, the
      shards together hold every written message in order, and a shard cut at any length from the header
      on still parses to a prefix of its messages. */
  lemma NoObjectUnreadable<M>(env: Env<M>, w: nat, acts: seq<Action<M>>, k: nat)
    requires IsRun(env, Initial<M>({w}), acts) && Careful(env, Initial<M>({w}), acts)
    requires k < |RunTo(env, Initial<M>({w}), acts).shards|
    requires AllWritable(RunTo(env, Initial<M>({w}), acts).shards[k])
    ensures var s := RunTo(env, Initial<M>({w}), acts);
            var bytes := ShardBytes(env, s.shards[k]);
            && s.written == AllMessages(s.shards)
            && ReadShard(env, bytes) == Parsed(Messages(s.shards[k]))
            && forall n | HEADER_SIZE <= n <= |bytes| ::
                 ReadShard(env, bytes[..n]).Parsed? && ReadShard(env, bytes[..n]).msgs <= Messages(s.shards[k])
  {
    InitialReadable(env, {w});
    RunKeeps(env, Initial<M>({w}), acts);
    OneWriterPatientIff(env, Initial<M>({w}), acts, w);
    PatientIffReadable(env, Initial<M>({w}), acts);
    var shard := RunTo(env, Initial<M>({w}), acts).shards[k];
    ShardRoundTrip(env, shard);
    forall n | HEADER_SIZE <= n <= |ShardBytes(env, shard)|
      ensures ReadShard(env, ShardBytes(env, shard)[..n]).Parsed?
      ensures ReadShard(env, ShardBytes(env, shard)[..n]).msgs <= Messages(shard)
    {
      TruncatedShard(env, shard, n);
    }
  }

  lemma RunCons<M>(env: Env<M>, s: Sys<M>, a: Action<M>, acts: seq<Action<M>>)
    requires |s.shards| > 0 && Enabled(env, s, a) && IsRun(env, Next(env, s, a), acts)
    ensures IsRun(env, s, [a] + acts) && RunTo(env, s, [a] + acts) == RunTo(env, Next(env, s, a), acts)
  {
    assert ([a] + acts)[1..] == acts;
  }

  /** One goroutine that is not: the declaration of a new type fails, and the next object of the type is appended. */
  lemma FailedDeclarationLosesARecord<M>(env: Env<M>, w: nat, item: Item<M>)
    requires ItemOk(env, item)
    ensures var acts := [Call(w, item)] + ([WriteFails(w)] + ([Call(w, item)] + ([Append(w)] + [])));
            && IsRun(env, Initial<M>({w}), acts)
            && RunTo(env, Initial<M>({w}), acts).written == [item.msg]
            && !AllReadable(env, RunTo(env, Initial<M>({w}), acts))
  {
    var s0 := Initial<M>({w});
    InitialInv(env, {w});
    var s1 := Next(env, s0, Call(w, item));
    StepKeeps(env, s0, Call(w, item));
    var s2 := Next(env, s1, WriteFails(w));
    StepKeeps(env, s1, WriteFails(w));
    var s3 := Next(env, s2, Call(w, item));
    StepKeeps(env, s2, Call(w, item));
    StepReadableIff(env, s3, Append(w));
    RunCons(env, s3, Append(w), []);
    RunCons(env, s2, Call(w, item), [Append(w)] + []);
    RunCons(env, s1, WriteFails(w), [Call(w, item)] + ([Append(w)] + []));
    RunCons(env, s0, Call(w, item), [WriteFails(w)] + ([Call(w, item)] + ([Append(w)] + [])));
  }

  /** Two goroutines are not patient even so: the second can take the published code and append before the first has
      declared it.  `SkippedRecord` is what a reader then makes of the shard: nothing. */
  lemma TwoWritersLoseARecord<M>(env: Env<M>, ws: set<nat>, v: nat, w: nat, item: Item<M>)
    requires v in ws && w in ws && v != w && ItemOk(env, item)
    ensures var acts := [Call(v, item), Call(w, item), Append(w)];
            && IsRun(env, Initial<M>(ws), acts)
            && RunTo(env, Initial<M>(ws), acts).written == [item.msg]
            && !AllReadable(env, RunTo(env, Initial<M>(ws), acts))
            && RunTo(env, Initial<M>(ws), acts).shards[0] ==
               [Announce(OBJECT_TYPE, OBJECT_TYPE_NAME), Message(FIRST_CODE, item.data, item.msg)]
  {
    var s0 := Initial<M>(ws);
    InitialInv(env, ws);
    var s1 := Next(env, s0, Call(v, item));
    StepKeeps(env, s0, Call(v, item));
    var s2 := Next(env, s1, Call(w, item));
    StepKeeps(env, s1, Call(w, item));
    var s3 := Next(env, s2, Append(w));
    AppendReadableIff(env, s2, w);
    assert item.name !in s2.announced;
    var third: seq<Action<M>>, second: seq<Action<M>> := [Append(w)], [Call(w, item), Append(w)];
    RunCons(env, s2, Append(w), []);
    assert [third[0]] + [] == third && [second[0]] + third == second;
    RunCons(env, s1, Call(w, item), third);
    RunCons(env, s0, Call(v, item), second);
    assert [Call(v, item)] + second == [Call(v, item), Call(w, item), Append(w)];
    assert !SelfContained(env, s3.shards[0], map[]);
  }

  lemma SkippedRecord<M>(env: Env<M>, code: UInt32, data: Bytes, msg: M)
    requires code != OBJECT_TYPE
    ensures Meaning(env, FramesOf([Announce(OBJECT_TYPE, OBJECT_TYPE_NAME), Message(code, data, msg)]), map[]) ==
            Parsed([])
  {
    var fs := FramesOf([Announce(OBJECT_TYPE, OBJECT_TYPE_NAME), Message(code, data, msg)]);
    ObjectTypeRoundTrip(ObjectType(OBJECT_TYPE, OBJECT_TYPE_NAME), ObjectType(0, []));
    assert fs[1..] == [Frame(code, data)] && fs[1..][1..] == [];
    assert Meaning(env, fs[1..], map[OBJECT_TYPE := OBJECT_TYPE_NAME]) == Parsed([]);
  }

  // ---------- the operations, called in sequence ----------

  /** A rotation with nothing in between. */
  ghost function Rotated<M>(s: Sys<M>, order: seq<Bytes>): (s': Sys<M>)
    requires Enumerates(order, s.typeCodes.Keys)
  {
    s.(shards := s.shards + [Redeclaration(s.typeCodes, order)], announced := s.announced + s.typeCodes.Keys,
       failed := {})
  }

  lemma RotatedIsTwoSteps<M>(env: Env<M>, s: Sys<M>, order: seq<Bytes>)
    requires Inv(env, s) && !s.rotating && Enumerates(order, s.typeCodes.Keys)
    ensures Rotated(s, order) == Next(env, Next(env, s, RotateOpen), RotateDeclare(order))
    ensures Inv(env, Rotated(s, order)) && (AllReadable(env, Rotated(s, order)) <==> AllReadable(env, s))
  {
    var s1 := Next(env, s, RotateOpen);
    StepBoth(env, s, RotateOpen);
    StepBoth(env, s1, RotateDeclare(order));
    assert s1.shards[|s.shards|] + Redeclaration(s.typeCodes, order) == Redeclaration(s.typeCodes, order);
    assert Next(env, s1, RotateDeclare(order)).shards == Rotated(s, order).shards;
  }

  lemma StepBoth<M>(env: Env<M>, s: Sys<M>, a: Action<M>)
    requires Inv(env, s) && Enabled(env, s, a)
    ensures Inv(env, Next(env, s, a))
    ensures AllReadable(env, Next(env, s, a)) <==>
            AllReadable(env, s) && (a.Append? ==> s.writers[a.w].item.name in s.announced)
  {
    StepKeeps(env, s, a);
    StepReadableIff(env, s, a);
  }

  ghost predicate Resting<M>(s: Sys<M>) {
    |s.shards| > 0 && s.writers == map[0 := Idle] && !s.rotating && s.next < U32
  }

  /** `codeForType` with nothing in between; `declares` says whether the declaration of a new type can be written. */
  ghost function CodeGiven<M>(env: Env<M>, s: Sys<M>, item: Item<M>, declares: bool): (s': Sys<M>)
    requires Resting(s) && ItemOk(env, item)
    ensures |s'.shards| == |s.shards| && 0 in s'.writers && !s'.rotating
    ensures if item.name in s.typeCodes || declares then s'.writers[0].Coded? else s'.writers[0].Idle?
  {
    var s1 := Next(env, s, Call(0, item));
    if item.name in s.typeCodes then s1 else Next(env, s1, if declares then Declare(0) else WriteFails(0))
  }

  /** `WriteObject` with nothing in between; `appends` says whether the message can be written. */
  ghost function Wrote<M>(env: Env<M>, s: Sys<M>, item: Item<M>, declares: bool, appends: bool): (s': Sys<M>)
    requires Resting(s) && ItemOk(env, item)
  {
    var s1 := CodeGiven(env, s, item, declares);
    if s1.writers[0].Idle? then s1 else Next(env, s1, if appends then Append(0) else WriteFails(0))
  }

  lemma CodeGivenKeeps<M>(env: Env<M>, s: Sys<M>, item: Item<M>, declares: bool)
    requires Inv(env, s) && Resting(s) && ItemOk(env, item)
    ensures var s1 := CodeGiven(env, s, item, declares);
            && Inv(env, s1) && (AllReadable(env, s1) <==> AllReadable(env, s)) && s1.writers.Keys == {0}
            && (s1.writers[0].Coded? ==>
                  s1.writers[0].item == item && (item.name in s1.failed <==> item.name in s.failed))
  {
    StepBoth(env, s, Call(0, item));
    if item.name !in s.typeCodes {
      NewCodeKeeps(env, s, Next(env, s, Call(0, item)), item, declares);
    }
  }

  lemma NewCodeKeeps<M>(env: Env<M>, s: Sys<M>, s1: Sys<M>, item: Item<M>, declares: bool)
    requires Inv(env, s1) && !s1.rotating && item.name !in s1.failed
    requires s1.writers.Keys == {0} && s1.writers[0].Published? && s1.writers[0].item == item
    requires item.name !in s.failed && (AllReadable(env, s1) <==> AllReadable(env, s))
    ensures var s2 := Next(env, s1, if declares then Declare(0) else WriteFails(0));
            && Inv(env, s2) && (AllReadable(env, s2) <==> AllReadable(env, s)) && s2.writers.Keys == {0}
            && (s2.writers[0].Coded? ==>
                  s2.writers[0].item == item && (item.name in s2.failed <==> item.name in s.failed))
  {
    StepBoth(env, s1, if declares then Declare(0) else WriteFails(0));
  }

  /** The shards stay readable if and only if they were, and no message is appended whose declaration has failed. */
  lemma WroteKeeps<M>(env: Env<M>, s: Sys<M>, item: Item<M>, declares: bool, appends: bool)
    requires Inv(env, s) && Resting(s) && ItemOk(env, item)
    ensures Inv(env, Wrote(env, s, item, declares, appends))
    ensures AllReadable(env, Wrote(env, s, item, declares, appends)) <==>
            AllReadable(env, s) && !(item.name in s.failed && appends)
  {
    var s1 := CodeGiven(env, s, item, declares);
    CodeGivenKeeps(env, s, item, declares);
    if s1.writers[0].Coded? {
      OneWriterAnnounced(env, s1, 0);
      StepBoth(env, s1, if appends then Append(0) else WriteFails(0));
    }
  }

  lemma FailedHaveCodes<M>(env: Env<M>, s: Sys<M>)
    requires Inv(env, s)
    ensures s.failed <= s.typeCodes.Keys
  {
  }

  class Writer<M> {
    var nextTypeCode: nat
    var typeCodes: map<Bytes, UInt32>
    var open: seq<Record<M>>
    var closed: seq<seq<Record<M>>>
    ghost var announced: set<Bytes>
    ghost var failed: set<Bytes>
    ghost var written: seq<M>

    /** This writer as a system with one goroutine, which is in phase `p`. */
    ghost function State(p: Phase<M>): (s: Sys<M>)
      reads this
    {
      Sys(typeCodes, nextTypeCode, closed + [open], false, map[0 := p], announced, failed, written)
    }

    /** Between calls. */
    ghost function View(): (s: Sys<M>)
      reads this
    {
      State(Idle)
    }

    constructor (ghost env: Env<M>)
      ensures Inv(env, View()) && AllReadable(env, View()) && View() == Initial({0})
    {
      nextTypeCode, typeCodes, closed := FIRST_CODE, map[], [];
      open := [Announce(OBJECT_TYPE, OBJECT_TYPE_NAME)];
      announced, failed, written := {}, {}, [];
      new;
      InitialReadable(env, {0});
      assert closed + [open] == [open] && View() == Initial({0});
    }

    /** Declare the reserved code and all known codes in the shard just opened. */
    method Redeclare() returns (ghost order: seq<Bytes>)
      requires open == []
      modifies this`open
      ensures Enumerates(order, typeCodes.Keys) && open == Redeclaration(typeCodes, order)
    {
      order := [];
      open := open + [Announce(OBJECT_TYPE, OBJECT_TYPE_NAME)];
      var todo := typeCodes.Keys;
      while todo != {}
        invariant todo <= typeCodes.Keys && Enumerates(order, typeCodes.Keys - todo)
        invariant open == Redeclaration(typeCodes, order)
        decreases todo
      {
        var name :| name in todo;
        ghost var done := typeCodes.Keys - todo;
        EnumeratesSnoc(order, done, name);
        open := open + [Announce(typeCodes[name], name)];
        todo, order := todo - {name}, order + [name];
        assert typeCodes.Keys - todo == done + {name};
      }
    }

    method RotateShard(ghost env: Env<M>) returns (ghost order: seq<Bytes>)
      requires Inv(env, View())
      modifies this
      ensures Inv(env, View()) && (AllReadable(env, View()) <==> old(AllReadable(env, View())))
      ensures Enumerates(order, old(typeCodes).Keys) && View() == Rotated(old(View()), order)
    {
      ghost var s0 := View();
      closed, open := closed + [open], [];
      order := Redeclare();
      announced, failed := announced + typeCodes.Keys, {};
      RotatedIsTwoSteps(env, s0, order);
    }

    /** The lookup and, for a new type, the publication and the declaration, which may fail. */
    method CodeForType(ghost env: Env<M>, ghost item: Item<M>, name: Bytes, declares: bool)
      returns (code: Option<UInt32>)
      requires Resting(View()) && ItemOk(env, item) && name == item.name
      modifies this
      ensures code.Some? <==> name in old(typeCodes) || declares
      ensures name in typeCodes && (code.Some? ==> code.value == typeCodes[name])
      ensures State(if code.Some? then Coded(item, code.value) else Idle) == CodeGiven(env, old(View()), item, declares)
    {
      if name in typeCodes {
        return Some(typeCodes[name]);
      }
      var c := nextTypeCode;
      nextTypeCode := nextTypeCode + 1;
      typeCodes := typeCodes[name := c];
      if !declares {
        failed := failed + ({name} - announced);
        return None;
      }
      open := open + [Announce(c, name)];
      announced, failed := announced + {name}, failed - {name};
      assert closed + [open] == AppendOpen(old(View()).shards, [Announce(c, name)]);
      return Some(c);
    }

    /** The object is appended if its type has a code and both writes succeed.  The shards stay readable, unless an
        object is appended whose type's declaration failed in an earlier call and no rotation has come since. */
    method WriteObject(ghost env: Env<M>, item: Item<M>, declares: bool, appends: bool) returns (ok: bool)
      requires Inv(env, View()) && ItemOk(env, item) && nextTypeCode < U32
      modifies this
      ensures Inv(env, View()) && View() == Wrote(env, old(View()), item, declares, appends)
      ensures ok <==> (item.name in old(typeCodes) || declares) && appends
      ensures AllReadable(env, View()) <==> old(AllReadable(env, View())) && !(item.name in old(failed) && ok)
    {
      WroteKeeps(env, View(), item, declares, appends);
      FailedHaveCodes(env, View());
      ok := Write(env, item, declares, appends);
    }

    method Write(ghost env: Env<M>, item: Item<M>, declares: bool, appends: bool) returns (ok: bool)
      requires Resting(View()) && ItemOk(env, item)
      modifies this
      ensures View() == Wrote(env, old(View()), item, declares, appends)
      ensures ok <==> (item.name in old(typeCodes) || declares) && appends
    {
      var code := CodeForType(env, item, item.name, declares);
      if code.None? {
        return false;
      }
      ok := AppendMessage(env, item, code.value, appends);
    }

    method AppendMessage(ghost env: Env<M>, item: Item<M>, code: UInt32, appends: bool) returns (ok: bool)
      modifies this`open, this`written
      ensures ok == appends
      ensures View() == Next(env, old(State(Coded(item, code))), if appends then Append(0) else WriteFails(0))
    {
      if !appends {
        return false;
      }
      open := open + [Message(code, item.data, item.msg)];
      written := written + [item.msg];
      assert closed + [open] == AppendOpen(old(closed + [open]), [Message(code, item.data, item.msg)]);
      return true;
    }
  }
}
