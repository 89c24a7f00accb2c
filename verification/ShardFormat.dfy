/** The framed shard file: written by the sink (`writeBytesWithTypeCodeLocked`, `rotateShard`) and read
    back by the compactor (`parseShard`).

    A shard is a 16-byte file header and a run of frames.  A frame whose type code is 1 carries an
    `ObjectType` that declares what a later code means; every other frame is one message. */
module ShardFormat {
  import opened Prelude
  import opened Wire

  const FILE_MAGIC: UInt32 := 0x5042494E
  const FILE_VERSION: UInt32 := 1
  const HEADER_SIZE: nat := 16
  const OBJECT_TYPE: UInt32 := 1

  /** The code this model does not look into: the checksum, the set of message types the reader can
      create, and the protobuf decoder of each type. */
  datatype Env<M> = Env(crc: Bytes -> UInt32, known: Bytes -> bool, decode: (Bytes, Bytes) -> Option<M>)

  function BE32(x: UInt32): (b: Bytes)
    ensures |b| == 4
  {
    [x / 0x100_0000, x / 0x1_0000 % 256, x / 0x100 % 256, x % 256]
  }

  function ReadBE32(b: Bytes): (x: UInt32)
    requires |b| == 4
  {
    var b0: int, b1: int, b2: int := b[0], b[1], b[2];
    b0 * 0x100_0000 + b1 * 0x1_0000 + b2 * 0x100 + b[3]
  }

  lemma BE32RoundTrip(x: UInt32)
    ensures ReadBE32(BE32(x)) == x
  {
    var y, z := x / 0x100, x / 0x1_0000;
    assert y / 0x100 == z && z / 0x100 == x / 0x100_0000;
  }

  // ---------- frames ----------

  datatype Frame = Frame(code: UInt32, data: Bytes)

  /** The length field has 32 bits. */
  predicate Framable(f: Frame) {
    |f.data| < U32
  }

  predicate AllFramable(fs: seq<Frame>) {
    forall i | 0 <= i < |fs| :: Framable(fs[i])
  }

  function FrameHeader(crc: Bytes -> UInt32, f: Frame): (b: Bytes)
    requires Framable(f)
    ensures |b| == HEADER_SIZE
  {
    BE32(|f.data|) + BE32(crc(f.data)) + BE32(0) + BE32(f.code)
  }

  function EncodeFrame(crc: Bytes -> UInt32, f: Frame): (b: Bytes)
    requires Framable(f)
    ensures |b| == HEADER_SIZE + |f.data|
  {
    FrameHeader(crc, f) + f.data
  }

  function EncodeFrames(crc: Bytes -> UInt32, fs: seq<Frame>): (b: Bytes)
    requires AllFramable(fs)
  {
    if fs == [] then [] else EncodeFrame(crc, fs[0]) + EncodeFrames(crc, fs[1..])
  }

  /** The 16 bytes at the start of a shard; the last eight are left zero. */
  function FileHeader(): (b: Bytes)
    ensures |b| == HEADER_SIZE
  {
    BE32(FILE_MAGIC) + BE32(FILE_VERSION) + BE32(0) + BE32(0)
  }

  /** One attempt to read a frame: the input ends first, the checksum is wrong, or a frame is there. */
  datatype Scan = End | BadChecksum | Got(frame: Frame)

  function NextFrame(crc: Bytes -> UInt32, b: Bytes): (s: Scan)
    ensures s.Got? ==> HEADER_SIZE + |s.frame.data| <= |b|
  {
    if |b| < HEADER_SIZE then End else
    var length := ReadBE32(b[0..4]);
    if length > |b| - HEADER_SIZE then End else
    var data := b[HEADER_SIZE..HEADER_SIZE + length];
    if crc(data) != ReadBE32(b[4..8]) then BadChecksum
    else Got(Frame(ReadBE32(b[12..16]), data))
  }

  // ---------- what the reader makes of a run of frames ----------

  /** `Crashed` is a panic inside `ObjectType.Unmarshal`. */
  datatype Outcome<M> = Parsed(msgs: seq<M>) | Failed | Crashed

  datatype Effect<M> = Continue(types: map<UInt32, Bytes>) | Emit(msg: M) | Abort | Crash

  function Interpret<M>(env: Env<M>, f: Frame, types: map<UInt32, Bytes>): (e: Effect<M>) {
    if f.code == OBJECT_TYPE then
      match UnmarshalAt(f.data, 0, ObjectType(0, []))
      case Object(o) => Continue(types[o.code := o.name])
      case Panic => Crash
    else if f.code !in types then Continue(types)
    else if !env.known(types[f.code]) then Continue(types)
    else
      match env.decode(types[f.code], f.data)
      case Some(m) => Emit(m)
      case None => Abort
  }

  function Prepend<M>(ms: seq<M>, o: Outcome<M>): (r: Outcome<M>) {
    if o.Parsed? then Parsed(ms + o.msgs) else o
  }

  /** The meaning of a run of frames, without any bytes. */
  function Meaning<M>(env: Env<M>, fs: seq<Frame>, types: map<UInt32, Bytes>): (o: Outcome<M>) {
    if fs == [] then Parsed([]) else
    match Interpret(env, fs[0], types)
    case Continue(types') => Meaning(env, fs[1..], types')
    case Emit(m) => Prepend([m], Meaning(env, fs[1..], types))
    case Abort => Failed
    case Crash => Crashed
  }

  /** The reader's loop on the bytes `b`. */
  function ReadFrames<M>(env: Env<M>, b: Bytes, types: map<UInt32, Bytes>): (o: Outcome<M>)
    decreases |b|
  {
    match NextFrame(env.crc, b)
    case End => Parsed([])
    case BadChecksum => Failed
    case Got(f) =>
      var rest := b[HEADER_SIZE + |f.data|..];
      match Interpret(env, f, types)
      case Continue(types') => ReadFrames(env, rest, types')
      case Emit(m) => Prepend([m], ReadFrames(env, rest, types))
      case Abort => Failed
      case Crash => Crashed
  }

  /** `parseShard` as a function of the file's bytes. */
  function ReadShard<M>(env: Env<M>, b: Bytes): (o: Outcome<M>) {
    if b == [] then Parsed([])
    else if |b| < HEADER_SIZE then Failed
    else if ReadBE32(b[0..4]) != FILE_MAGIC || ReadBE32(b[4..8]) > FILE_VERSION then Failed
    else ReadFrames(env, b[HEADER_SIZE..], map[])
  }

  method ParseShard<M>(env: Env<M>, b: Bytes) returns (o: Outcome<M>)
    ensures o == ReadShard(env, b)
  {
    if b == [] {
      return Parsed([]);
    }
    if |b| < HEADER_SIZE {
      return Failed;
    }
    if ReadBE32(b[0..4]) != FILE_MAGIC || ReadBE32(b[4..8]) > FILE_VERSION {
      return Failed;
    }
    var types: map<UInt32, Bytes>, results, pos := map[], [], HEADER_SIZE;
    while true
      invariant HEADER_SIZE <= pos <= |b|
      invariant ReadShard(env, b) == Prepend(results, ReadFrames(env, b[pos..], types))
      decreases |b| - pos
    {
      var scan := NextFrame(env.crc, b[pos..]);
      if scan.End? {
        return Parsed(results);
      }
      if scan.BadChecksum? {
        return Failed;
      }
      var next := pos + HEADER_SIZE + |scan.frame.data|;
      assert b[pos..][HEADER_SIZE + |scan.frame.data|..] == b[next..];
      match Interpret(env, scan.frame, types) {
        case Continue(types') =>
          types := types';
        case Emit(m) =>
          PrependTwice(results, [m], ReadFrames(env, b[next..], types));
          results := results + [m];
        case Abort =>
          return Failed;
        case Crash =>
          return Crashed;
      }
      pos := next;
    }
  }

  lemma PrependTwice<M>(a: seq<M>, b: seq<M>, o: Outcome<M>)
    ensures Prepend(a, Prepend(b, o)) == Prepend(a + b, o)
  {
  }

  // ---------- bytes written are read back ----------

  lemma {:induction false} NextIsWritten(crc: Bytes -> UInt32, f: Frame, rest: Bytes)
    requires Framable(f)
    ensures NextFrame(crc, EncodeFrame(crc, f) + rest) == Got(f)
    ensures (EncodeFrame(crc, f) + rest)[HEADER_SIZE + |f.data|..] == rest
  {
    var b := EncodeFrame(crc, f) + rest;
    assert b[0..4] == BE32(|f.data|) && b[4..8] == BE32(crc(f.data)) && b[12..16] == BE32(f.code);
    BE32RoundTrip(|f.data|);
    BE32RoundTrip(crc(f.data));
    BE32RoundTrip(f.code);
    assert b[HEADER_SIZE..HEADER_SIZE + |f.data|] == f.data;
  }

  /** A frame cut anywhere before its end is no frame. */
  lemma {:induction false} CutFrameIsEnd(crc: Bytes -> UInt32, f: Frame, n: nat)
    requires Framable(f) && n < HEADER_SIZE + |f.data|
    ensures NextFrame(crc, EncodeFrame(crc, f)[..n]) == End
  {
    var b := EncodeFrame(crc, f)[..n];
    if n >= HEADER_SIZE {
      assert b[0..4] == BE32(|f.data|);
      BE32RoundTrip(|f.data|);
    }
  }

  /** The number of frames that lie wholly within the first `n` bytes. */
  function WholeFrames(fs: seq<Frame>, n: nat): (k: nat)
    ensures k <= |fs|
  {
    if fs == [] || n < HEADER_SIZE + |fs[0].data| then 0
    else 1 + WholeFrames(fs[1..], n - HEADER_SIZE - |fs[0].data|)
  }

  /** If bytes and frames agree on what follows, they agree with one more frame in front. */
  lemma {:induction false} OneMoreFrame<M>(
    env: Env<M>, f: Frame, rest: Bytes, fs: seq<Frame>, types: map<UInt32, Bytes>)
    requires Framable(f)
    requires forall t :: ReadFrames(env, rest, t) == Meaning(env, fs, t)
    ensures ReadFrames(env, EncodeFrame(env.crc, f) + rest, types) == Meaning(env, [f] + fs, types)
  {
    NextIsWritten(env.crc, f, rest);
    assert ([f] + fs)[0] == f && ([f] + fs)[1..] == fs;
  }

  lemma CutInFirst(crc: Bytes -> UInt32, fs: seq<Frame>, n: nat)
    requires AllFramable(fs) && fs != [] && n <= |EncodeFrames(crc, fs)|
    ensures var e := EncodeFrame(crc, fs[0]);
            EncodeFrames(crc, fs)[..n] == if n < |e| then e[..n] else e + EncodeFrames(crc, fs[1..])[..n - |e|]
  {
  }

  lemma {:induction false} NoWholeFrame<M>(env: Env<M>, fs: seq<Frame>, n: nat, types: map<UInt32, Bytes>)
    requires AllFramable(fs)
    requires n <= |EncodeFrames(env.crc, fs)| && WholeFrames(fs, n) == 0
    ensures ReadFrames(env, EncodeFrames(env.crc, fs)[..n], types) == Parsed([])
  {
    if fs != [] {
      CutInFirst(env.crc, fs, n);
      CutFrameIsEnd(env.crc, fs[0], n);
    }
  }

  /** Reading the first `n` bytes of an encoded run means exactly its whole frames. */
  lemma {:induction false} CutRun<M>(env: Env<M>, fs: seq<Frame>, n: nat)
    requires AllFramable(fs)
    requires n <= |EncodeFrames(env.crc, fs)|
    ensures forall types ::
              ReadFrames(env, EncodeFrames(env.crc, fs)[..n], types) == Meaning(env, fs[..WholeFrames(fs, n)], types)
  {
    var k := WholeFrames(fs, n);
    if k == 0 {
      forall types {
        NoWholeFrame(env, fs, n, types);
      }
    } else {
      var m := n - HEADER_SIZE - |fs[0].data|;
      var rest := EncodeFrames(env.crc, fs[1..])[..m];
      CutInFirst(env.crc, fs, n);
      CutRun(env, fs[1..], m);
      assert fs[..k] == [fs[0]] + fs[1..][..k - 1];
      forall types {
        OneMoreFrame(env, fs[0], rest, fs[1..][..k - 1], types);
      }
    }
  }

  lemma {:induction false} WholeRun(crc: Bytes -> UInt32, fs: seq<Frame>)
    requires AllFramable(fs)
    ensures WholeFrames(fs, |EncodeFrames(crc, fs)|) == |fs|
  {
    if fs != [] {
      WholeRun(crc, fs[1..]);
    }
  }

  // ---------- the writer's records ----------

  /** What the sink appends to a shard: a type declaration, or a message with its serialized form. */
  datatype Record<M> = Announce(code: UInt32, name: Bytes) | Message(code: UInt32, data: Bytes, msg: M)

  function FrameOf<M>(r: Record<M>): (f: Frame) {
    match r
    case Announce(code, name) => Frame(OBJECT_TYPE, Encoding(ObjectType(code, name)))
    case Message(code, data, _) => Frame(code, data)
  }

  function FramesOf<M>(log: seq<Record<M>>): (fs: seq<Frame>)
    ensures |fs| == |log|
    ensures forall i | 0 <= i < |log| :: fs[i] == FrameOf(log[i])
    ensures AllWritable(log) ==> AllFramable(fs)
  {
    if log == [] then [] else [FrameOf(log[0])] + FramesOf(log[1..])
  }

  predicate AllWritable<M>(log: seq<Record<M>>) {
    forall i | 0 <= i < |log| :: Framable(FrameOf(log[i]))
  }

  function Learn<M>(r: Record<M>, types: map<UInt32, Bytes>): (t: map<UInt32, Bytes>) {
    if r.Announce? then types[r.code := r.name] else types
  }

  /** What a reader knows after `log`. */
  function TypesAfter<M>(log: seq<Record<M>>, types: map<UInt32, Bytes>): (t: map<UInt32, Bytes>) {
    if log == [] then types else TypesAfter(log[1..], Learn(log[0], types))
  }

  /** A message can be read when the reader already knows a type that decodes it. */
  ghost predicate Readable<M>(env: Env<M>, r: Record<M>, types: map<UInt32, Bytes>) {
    r.Message? ==>
      && r.code != OBJECT_TYPE && r.code in types
      && env.known(types[r.code]) && env.decode(types[r.code], r.data) == Some(r.msg)
  }

  /** Every message's code was declared earlier in the same log, with a type whose decoder inverts the
      message's serialization. */
  ghost predicate SelfContained<M>(env: Env<M>, log: seq<Record<M>>, types: map<UInt32, Bytes>) {
    log == [] || (Readable(env, log[0], types) && SelfContained(env, log[1..], Learn(log[0], types)))
  }

  lemma {:induction false} SelfContainedSnoc<M>(env: Env<M>, log: seq<Record<M>>, r: Record<M>,
                                                types: map<UInt32, Bytes>)
    ensures SelfContained(env, log + [r], types) <==>
            SelfContained(env, log, types) && Readable(env, r, TypesAfter(log, types))
  {
    if log == [] {
      assert (log + [r])[1..] == [];
    } else {
      assert (log + [r])[0] == log[0] && (log + [r])[1..] == log[1..] + [r];
      SelfContainedSnoc(env, log[1..], r, Learn(log[0], types));
    }
  }

  /** A reader knows a code exactly when it was declared, and as one of the declared names. */
  lemma {:induction false} KnownFromLog<M>(log: seq<Record<M>>, types: map<UInt32, Bytes>, code: UInt32)
    ensures var t := TypesAfter(log, types);
            && (code in t <==> code in types || exists i :: 0 <= i < |log| && log[i].Announce? && log[i].code == code)
            && (code in t ==> (code in types && t[code] == types[code]) || Announce(code, t[code]) in log)
  {
    if log != [] {
      var types' := Learn(log[0], types);
      KnownFromLog(log[1..], types', code);
      var t := TypesAfter(log, types);
      if i :| 0 <= i < |log| && log[i].Announce? && log[i].code == code {
        assert i > 0 ==> log[1..][i - 1] == log[i];
      }
    }
  }

  function Messages<M>(log: seq<Record<M>>): (ms: seq<M>) {
    if log == [] then []
    else (if log[0].Message? then [log[0].msg] else []) + Messages(log[1..])
  }

  lemma {:induction false} LogMeaning<M>(env: Env<M>, log: seq<Record<M>>, types: map<UInt32, Bytes>)
    requires SelfContained(env, log, types)
    requires AllWritable(log)
    ensures Meaning(env, FramesOf(log), types) == Parsed(Messages(log))
  {
    if log != [] {
      assert FramesOf(log)[1..] == FramesOf(log[1..]);
      match log[0]
      case Announce(code, name) =>
        assert |name| <= |FrameOf(log[0]).data|;
        ObjectTypeRoundTrip(ObjectType(code, name), ObjectType(0, []));
        LogMeaning(env, log[1..], types[code := name]);
      case Message(code, data, msg) =>
        LogMeaning(env, log[1..], types);
    }
  }

  lemma {:induction false} SelfContainedPrefix<M>(env: Env<M>, log: seq<Record<M>>, types: map<UInt32, Bytes>, k: nat)
    requires SelfContained(env, log, types) && k <= |log|
    ensures SelfContained(env, log[..k], types)
    ensures Messages(log[..k]) <= Messages(log)
  {
    if k > 0 {
      assert log[..k][1..] == log[1..][..k - 1];
      SelfContainedPrefix(env, log[1..], Learn(log[0], types), k - 1);
    }
  }

  lemma FramesOfPrefix<M>(log: seq<Record<M>>, k: nat)
    requires k <= |log|
    ensures FramesOf(log)[..k] == FramesOf(log[..k])
  {
  }

  function ShardBytes<M>(env: Env<M>, log: seq<Record<M>>): (b: Bytes)
    requires AllWritable(log)
  {
    FileHeader() + EncodeFrames(env.crc, FramesOf(log))
  }

  lemma CutAfterHeader(body: Bytes, n: nat)
    requires HEADER_SIZE <= n <= HEADER_SIZE + |body|
    ensures var b := (FileHeader() + body)[..n];
            && ReadBE32(b[0..4]) == FILE_MAGIC && ReadBE32(b[4..8]) == FILE_VERSION
            && b[HEADER_SIZE..] == body[..n - HEADER_SIZE]
  {
  }

  /** The outcome is the messages of the first `k` records, which are a prefix of all. */
  ghost predicate PrefixRead<M>(log: seq<Record<M>>, k: nat, o: Outcome<M>) {
    k <= |log| && o == Parsed(Messages(log[..k])) && Messages(log[..k]) <= Messages(log)
  }

  /** A shard cut at any length from 16 bytes on parses to the messages of a prefix of its log; it is the
      prefix of the records that lie wholly before the cut. */
  lemma {:induction false} TruncatedShard<M>(env: Env<M>, log: seq<Record<M>>, n: nat)
    requires AllWritable(log)
    requires SelfContained(env, log, map[])
    requires HEADER_SIZE <= n <= |ShardBytes(env, log)|
    ensures PrefixRead(log, WholeFrames(FramesOf(log), n - HEADER_SIZE), ReadShard(env, ShardBytes(env, log)[..n]))
  {
    ReadAfterHeader(env, log, n);
    CutLog(env, log, n - HEADER_SIZE);
  }

  lemma CutLog<M>(env: Env<M>, log: seq<Record<M>>, m: nat)
    requires AllWritable(log) && SelfContained(env, log, map[]) && m <= |EncodeFrames(env.crc, FramesOf(log))|
    ensures PrefixRead(log, WholeFrames(FramesOf(log), m),
                       ReadFrames(env, EncodeFrames(env.crc, FramesOf(log))[..m], map[]))
  {
    CutRun(env, FramesOf(log), m);
    PrefixMeaning(env, log, WholeFrames(FramesOf(log), m));
  }

  lemma PrefixMeaning<M>(env: Env<M>, log: seq<Record<M>>, k: nat)
    requires AllWritable(log) && SelfContained(env, log, map[]) && k <= |log|
    ensures Meaning(env, FramesOf(log)[..k], map[]) == Parsed(Messages(log[..k])) && Messages(log[..k]) <= Messages(log)
  {
    FramesOfPrefix(log, k);
    SelfContainedPrefix(env, log, map[], k);
    LogMeaning(env, log[..k], map[]);
  }

  lemma ReadAfterHeader<M>(env: Env<M>, log: seq<Record<M>>, n: nat)
    requires AllWritable(log) && HEADER_SIZE <= n <= |ShardBytes(env, log)|
    ensures var body := EncodeFrames(env.crc, FramesOf(log));
            && n - HEADER_SIZE <= |body|
            && ReadShard(env, ShardBytes(env, log)[..n]) == ReadFrames(env, body[..n - HEADER_SIZE], map[])
  {
    CutAfterHeader(EncodeFrames(env.crc, FramesOf(log)), n);
  }

  /** Shorter cuts: an empty file parses to nothing, one to fifteen bytes are an error. */
  lemma TooShortShard<M>(env: Env<M>, log: seq<Record<M>>, n: nat)
    requires AllWritable(log)
    requires n < HEADER_SIZE
    ensures ReadShard(env, ShardBytes(env, log)[..n]) == if n == 0 then Parsed([]) else Failed
  {
  }

  /** The whole shard parses to exactly the messages written to it, in order. */
  lemma {:induction false} ShardRoundTrip<M>(env: Env<M>, log: seq<Record<M>>)
    requires AllWritable(log)
    requires SelfContained(env, log, map[])
    ensures ReadShard(env, ShardBytes(env, log)) == Parsed(Messages(log))
  {
    var b := ShardBytes(env, log);
    TruncatedShard(env, log, |b|);
    WholeRun(env.crc, FramesOf(log));
    assert b[..|b|] == b && log[..|log|] == log;
  }

  // ---------- logs that are not self-contained ----------

  /** The record is a message that the reader either has no type for, and skips, or reads as it was written. */
  ghost predicate SkippedOrRight<M>(env: Env<M>, r: Record<M>, types: map<UInt32, Bytes>) {
    r.Message? ==> r.code != OBJECT_TYPE && (r.code in types ==> Readable(env, r, types))
  }

  ghost predicate NoneMisread<M>(env: Env<M>, log: seq<Record<M>>, types: map<UInt32, Bytes>) {
    log == [] || (SkippedOrRight(env, log[0], types) && NoneMisread(env, log[1..], Learn(log[0], types)))
  }

  lemma {:induction false} NoneMisreadSnoc<M>(env: Env<M>, log: seq<Record<M>>, r: Record<M>, types: map<UInt32, Bytes>)
    requires NoneMisread(env, log, types) && SkippedOrRight(env, r, TypesAfter(log, types))
    ensures NoneMisread(env, log + [r], types)
  {
    if log == [] {
      assert (log + [r])[1..] == [];
    } else {
      assert (log + [r])[0] == log[0] && (log + [r])[1..] == log[1..] + [r];
      NoneMisreadSnoc(env, log[1..], r, Learn(log[0], types));
    }
  }

  /** Of such a log the reader makes fewer messages than were written, unless it is self-contained. */
  lemma {:induction false} MeaningCounts<M>(env: Env<M>, log: seq<Record<M>>, types: map<UInt32, Bytes>)
    requires NoneMisread(env, log, types) && AllWritable(log)
    ensures var o := Meaning(env, FramesOf(log), types);
            && o.Parsed? && |o.msgs| <= |Messages(log)|
            && (|o.msgs| == |Messages(log)| <==> SelfContained(env, log, types))
  {
    if log != [] {
      assert FramesOf(log)[1..] == FramesOf(log[1..]);
      MeaningCounts(env, log[1..], Learn(log[0], types));
      if log[0].Announce? {
        assert |log[0].name| <= |FrameOf(log[0]).data|;
        ObjectTypeRoundTrip(ObjectType(log[0].code, log[0].name), ObjectType(0, []));
      }
    }
  }

  lemma ReadShardMeaning<M>(env: Env<M>, log: seq<Record<M>>)
    requires AllWritable(log)
    ensures ReadShard(env, ShardBytes(env, log)) == Meaning(env, FramesOf(log), map[])
  {
    var b, fs := ShardBytes(env, log), FramesOf(log);
    var body := EncodeFrames(env.crc, fs);
    ReadAfterHeader(env, log, |b|);
    CutRun(env, fs, |body|);
    WholeRun(env.crc, fs);
    assert b[..|b|] == b && body[..|body|] == body && fs[..|fs|] == fs;
  }

  /** A shard reads back as all that was written to it if and only if it is self-contained. */
  lemma ReadsBackIff<M>(env: Env<M>, log: seq<Record<M>>)
    requires AllWritable(log) && NoneMisread(env, log, map[])
    ensures ReadShard(env, ShardBytes(env, log)) == Parsed(Messages(log)) <==> SelfContained(env, log, map[])
  {
    ReadShardMeaning(env, log);
    MeaningCounts(env, log, map[]);
    if SelfContained(env, log, map[]) {
      LogMeaning(env, log, map[]);
    }
  }

  // ---------- damaged shards ----------

  /** What the reader knows after whole frames. */
  function TypesOf<M>(env: Env<M>, fs: seq<Frame>, types: map<UInt32, Bytes>): (t: map<UInt32, Bytes>) {
    if fs == [] then types else
    match Interpret(env, fs[0], types)
    case Continue(types') => TypesOf(env, fs[1..], types')
    case _ => TypesOf(env, fs[1..], types)
  }

  /** Whole frames and then anything. */
  lemma {:induction false} FramesThen<M>(env: Env<M>, fs: seq<Frame>, rest: Bytes, types: map<UInt32, Bytes>)
    requires AllFramable(fs) && Meaning(env, fs, types).Parsed?
    ensures ReadFrames(env, EncodeFrames(env.crc, fs) + rest, types) ==
            Prepend(Meaning(env, fs, types).msgs, ReadFrames(env, rest, TypesOf(env, fs, types)))
    decreases |fs|
  {
    if fs == [] {
      assert EncodeFrames(env.crc, fs) + rest == rest;
      PrependNone(ReadFrames(env, rest, types));
    } else {
      var rest1 := EncodeFrames(env.crc, fs[1..]) + rest;
      assert EncodeFrames(env.crc, fs) + rest == EncodeFrame(env.crc, fs[0]) + rest1;
      NextIsWritten(env.crc, fs[0], rest1);
      match Interpret(env, fs[0], types) {
        case Continue(types') =>
          FramesThen(env, fs[1..], rest, types');
        case Emit(m) =>
          FramesThen(env, fs[1..], rest, types);
          PrependTwice([m], Meaning(env, fs[1..], types).msgs, ReadFrames(env, rest, TypesOf(env, fs, types)));
      }
    }
  }

  lemma PrependNone<M>(o: Outcome<M>)
    ensures Prepend([], o) == o
  {
    if o.Parsed? {
      assert [] + o.msgs == o.msgs;
    }
  }

  /** A frame whose checksum is wrong makes the shard an error, whatever was read before it and whatever follows. */
  lemma BadChecksumFails<M>(env: Env<M>, fs: seq<Frame>, types: map<UInt32, Bytes>, f: Frame, sum: UInt32, rest: Bytes)
    requires AllFramable(fs) && Meaning(env, fs, types).Parsed? && Framable(f) && sum != env.crc(f.data)
    ensures var bad := BE32(|f.data|) + BE32(sum) + BE32(0) + BE32(f.code) + f.data;
            ReadFrames(env, EncodeFrames(env.crc, fs) + (bad + rest), types) == Failed
  {
    var b := BE32(|f.data|) + BE32(sum) + BE32(0) + BE32(f.code) + f.data + rest;
    assert b[0..4] == BE32(|f.data|) && b[4..8] == BE32(sum) && b[HEADER_SIZE..HEADER_SIZE + |f.data|] == f.data;
    BE32RoundTrip(|f.data|);
    BE32RoundTrip(sum);
    assert NextFrame(env.crc, b) == BadChecksum;
    FramesThen(env, fs, b, types);
  }

  /** So does a message of a known type that cannot be decoded. */
  lemma UndecodableFails<M>(env: Env<M>, fs: seq<Frame>, types: map<UInt32, Bytes>, f: Frame, rest: Bytes)
    requires AllFramable(fs) && Meaning(env, fs, types).Parsed? && Framable(f) && f.code != OBJECT_TYPE
    requires var t := TypesOf(env, fs, types);
             f.code in t && env.known(t[f.code]) && env.decode(t[f.code], f.data) == None
    ensures ReadFrames(env, EncodeFrames(env.crc, fs) + (EncodeFrame(env.crc, f) + rest), types) == Failed
  {
    NextIsWritten(env.crc, f, rest);
    FramesThen(env, fs, EncodeFrame(env.crc, f) + rest, types);
  }

  /** A message whose code is not declared, or declared as a type that the reader does not know, is passed over. */
  lemma UnknownSkipped<M>(env: Env<M>, fs: seq<Frame>, types: map<UInt32, Bytes>, f: Frame, rest: Bytes)
    requires AllFramable(fs) && Meaning(env, fs, types).Parsed? && Framable(f) && f.code != OBJECT_TYPE
    requires var t := TypesOf(env, fs, types); f.code in t ==> !env.known(t[f.code])
    ensures ReadFrames(env, EncodeFrames(env.crc, fs) + (EncodeFrame(env.crc, f) + rest), types) ==
            ReadFrames(env, EncodeFrames(env.crc, fs) + rest, types)
  {
    NextIsWritten(env.crc, f, rest);
    FramesThen(env, fs, EncodeFrame(env.crc, f) + rest, types);
    FramesThen(env, fs, rest, types);
  }

  /** A header with another magic number or a later version is refused, and any other is passed over. */
  lemma HeaderChecked<M>(env: Env<M>, magic: UInt32, version: UInt32, unused: Bytes, rest: Bytes)
    requires |unused| == 8
    ensures var b := BE32(magic) + BE32(version) + unused + rest;
            ReadShard(env, b) == if magic != FILE_MAGIC || version > FILE_VERSION then Failed
                                 else ReadFrames(env, rest, map[])
  {
    var b := BE32(magic) + BE32(version) + unused + rest;
    assert b[0..4] == BE32(magic) && b[4..8] == BE32(version) && b[HEADER_SIZE..] == rest;
    BE32RoundTrip(magic);
    BE32RoundTrip(version);
  }
}
