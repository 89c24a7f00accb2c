/** Base 128 varints and the hand-written `ObjectType` message (`pb/file.go`).

    Varints follow section "Base 128 Varints" of the Protocol Buffers encoding guide, as Go's
    `encoding/binary` reads and writes them: at most ten bytes, value below 2^64. */
module Wire {
  import opened Prelude

  type Byte = b: int | 0 <= b < 256
  type Bytes = seq<Byte>

  /** `binary.PutUvarint`: seven bits at a time, low group first. */
  function PutUvarint(x: nat): (b: Bytes)
    ensures |b| >= 1
  {
    if x < 128 then [x] else [x % 128 + 128] + PutUvarint(x / 128)
  }

  /** What `binary.Uvarint` returns: a value and the number of bytes read, which is 0 when the
      buffer ends early and negative on overflow. */
  datatype Varint = Varint(value: nat, n: int)

  /** The part of `binary.Uvarint` that reads from byte `i` on; the value is that of those bytes alone. */
  function UvarintAt(buf: Bytes, i: nat): (r: Varint)
    requires i <= |buf|
    ensures r.n <= |buf|
    ensures r.n > 0 ==> i < r.n
    decreases |buf| - i
  {
    if i == |buf| then Varint(0, 0)
    else if i == 10 then Varint(0, -11)
    else if buf[i] < 128 then
      if i == 9 && buf[i] > 1 then Varint(0, -10) else Varint(buf[i], i + 1)
    else
      var rest := UvarintAt(buf, i + 1);
      if rest.n <= 0 then Varint(0, rest.n)
      else Varint(buf[i] - 128 + 128 * rest.value, rest.n)
  }

  function Uvarint(buf: Bytes): (r: Varint)
    ensures r.n <= |buf|
  {
    UvarintAt(buf, 0)
  }

  /** Twice 128^(9-i): one more than the largest value the bytes from `i` on can carry. */
  ghost function Room(i: nat): (r: nat)
    requires i <= 9
    decreases 9 - i
  {
    if i == 9 then 2 else 128 * Room(i + 1)
  }

  lemma {:induction false} PutUvarintReadBack(pre: Bytes, x: nat, rest: Bytes)
    requires |pre| <= 9 && x < Room(|pre|)
    ensures UvarintAt(pre + PutUvarint(x) + rest, |pre|) == Varint(x, |pre| + |PutUvarint(x)|)
    decreases x
  {
    var buf := pre + PutUvarint(x) + rest;
    if x >= 128 {
      var low := x % 128 + 128;
      assert x / 128 < Room(|pre| + 1);
      PutUvarintReadBack(pre + [low], x / 128, rest);
      assert buf == (pre + [low]) + PutUvarint(x / 128) + rest;
    }
  }

  /** Every 64-bit value survives a varint round trip, whatever follows it. */
  lemma VarintRoundTrip(x: nat, rest: Bytes)
    requires x < U64
    ensures Uvarint(PutUvarint(x) + rest) == Varint(x, |PutUvarint(x)|)
  {
    assert Room(0) == U64 by {
      assert Room(9) == 2 && Room(8) == 256 && Room(7) == 32768;
      assert Room(6) == 128 * 32768 && Room(5) == 128 * 128 * 32768;
      assert Room(4) == 128 * 128 * 128 * 32768 && Room(3) == 128 * 128 * 128 * 128 * 32768;
      assert Room(2) == 128 * Room(3) && Room(1) == 128 * Room(2);
    }
    assert [] + PutUvarint(x) + rest == PutUvarint(x) + rest;
    PutUvarintReadBack([], x, rest);
  }

  datatype ObjectType = ObjectType(code: UInt32, name: Bytes)

  /** A decoder's outcome.  `Panic` is Go's out-of-range slice expression. */
  datatype Decoded = Object(obj: ObjectType) | Panic

  /** The bytes of an `ObjectType`: field 1 as a varint, field 2 length-delimited. */
  function Encoding(t: ObjectType): (b: Bytes) {
    [0x08] + PutUvarint(t.code) + [0x12] + PutUvarint(|t.name|) + t.name
  }

  /** The bytes decode to what was encoded, whatever the decoder's fields held before. */
  method Marshal(t: ObjectType) returns (buf: Bytes)
    ensures buf == Encoding(t)
    ensures |t.name| < U64 ==> forall zero :: UnmarshalAt(buf, 0, zero) == Object(t)
  {
    if |t.name| < U64 {
      forall zero {
        ObjectTypeRoundTrip(t, zero);
      }
    }
    buf := [0x08];
    buf := buf + PutUvarint(t.code);
    buf := buf + [0x12];
    buf := buf + PutUvarint(|t.name|);
    buf := buf + t.name;
  }

  /** The effect of one pass of `Unmarshal`'s loop. */
  datatype Pass = Done(r: Decoded) | More(i: nat, acc: ObjectType)

  /** One pass from byte `i` with the fields read so far in `acc`.  As in the source, the inner `break`
      only leaves the `switch`, so a bad field value is skipped and the next tag is read. */
  function ReadField(data: Bytes, i: nat, acc: ObjectType): (p: Pass)
    requires i < |data|
    ensures p.More? ==> i < p.i <= |data|
  {
    var tag := Uvarint(data[i..]);
    if tag.n <= 0 then Done(Object(acc)) else
    var j := i + tag.n;
    var field, wire := tag.value / 8, tag.value % 8;
    if !((field == 1 && wire == 0) || (field == 2 && wire == 2)) then Done(Object(acc)) else
    var v := Uvarint(data[j..]);
    if v.n <= 0 then More(j, acc) else
    var k := j + v.n;
    if field == 1 then More(k, acc.(code := v.value % U32))
    else if v.value > |data| - k then Done(Panic)
    else More(k + v.value, acc.(name := data[k..k + v.value]))
  }

  function UnmarshalAt(data: Bytes, i: nat, acc: ObjectType): (r: Decoded)
    requires i <= |data|
    decreases |data| - i
  {
    if i == |data| then Object(acc) else
    match ReadField(data, i, acc)
    case Done(r) => r
    case More(i', acc') => UnmarshalAt(data, i', acc')
  }

  method Unmarshal(x: ObjectType, data: Bytes) returns (r: Decoded)
    ensures r == UnmarshalAt(data, 0, x)
  {
    var acc, i := x, 0;
    while i < |data|
      invariant 0 <= i <= |data|
      invariant UnmarshalAt(data, 0, x) == UnmarshalAt(data, i, acc)
      decreases |data| - i
    {
      match ReadField(data, i, acc)
      case Done(r') => return r';
      case More(i', acc') => i, acc := i', acc';
    }
    return Object(acc);
  }

  /** A field's tag and the varint after it, read where they were written. */
  lemma {:induction false} TwoVarints(data: Bytes, i: nat, tag: Byte, x: nat, rest: Bytes)
    requires tag < 128 && x < U64
    requires i < |data| && data[i..] == [tag] + PutUvarint(x) + rest
    ensures Uvarint(data[i..]) == Varint(tag, 1)
    ensures Uvarint(data[i + 1..]) == Varint(x, |PutUvarint(x)|)
    ensures |data| == i + 1 + |PutUvarint(x)| + |rest|
    ensures data[i + 1 + |PutUvarint(x)|..] == rest
  {
    var b := PutUvarint(x);
    TagReadBack(tag, b + rest);
    assert data[i..] == [tag] + (b + rest);
    assert data[i + 1..] == data[i..][1..] == b + rest;
    VarintRoundTrip(x, rest);
    assert data[i + 1 + |b|..] == data[i + 1..][|b|..];
  }

  lemma {:induction false} ReadCode(data: Bytes, i: nat, code: UInt32, rest: Bytes, acc: ObjectType)
    requires i < |data| && data[i..] == [0x08] + PutUvarint(code) + rest
    ensures ReadField(data, i, acc) == More(|data| - |rest|, acc.(code := code))
    ensures i < |data| - |rest| && data[|data| - |rest|..] == rest
  {
    TwoVarints(data, i, 0x08, code, rest);
  }

  lemma {:induction false} ReadName(data: Bytes, i: nat, name: Bytes, acc: ObjectType)
    requires |name| < U64
    requires i < |data| && data[i..] == [0x12] + PutUvarint(|name|) + name
    ensures ReadField(data, i, acc) == More(|data|, acc.(name := name))
  {
    TwoVarints(data, i, 0x12, |name|, name);
    var k := i + 1 + |PutUvarint(|name|)|;
    assert data[k..k + |name|] == name;
  }

  /** Decoding an encoded mapping gives it back, for every code and every name a Go string can hold. */
  lemma {:induction false} ObjectTypeRoundTrip(t: ObjectType, zero: ObjectType)
    requires |t.name| < U64
    ensures UnmarshalAt(Encoding(t), 0, zero) == Object(t)
  {
    var data := Encoding(t);
    var tail := [0x12] + PutUvarint(|t.name|) + t.name;
    assert data[0..] == [0x08] + PutUvarint(t.code) + tail;
    ReadCode(data, 0, t.code, tail, zero);
    var i, mid := |data| - |tail|, zero.(code := t.code);
    ReadName(data, i, t.name, mid);
    assert UnmarshalAt(data, i, mid) == UnmarshalAt(data, |data|, t);
  }

  lemma TagReadBack(tag: Byte, rest: Bytes)
    requires tag < 128
    ensures Uvarint([tag] + rest) == Varint(tag, 1)
  {
  }

  // ---------- what the decoder makes of other bytes ----------

  datatype Field = CodeField(value: nat) | NameField(name: Bytes)

  predicate FieldOk(f: Field) {
    match f case CodeField(value) => value < U64 case NameField(name) => |name| < U64
  }

  function FieldBytes(f: Field): (b: Bytes) {
    match f
    case CodeField(value) => [0x08] + PutUvarint(value)
    case NameField(name) => [0x12] + PutUvarint(|name|) + name
  }

  function FieldsBytes(fs: seq<Field>): (b: Bytes) {
    if fs == [] then [] else FieldBytes(fs[0]) + FieldsBytes(fs[1..])
  }

  /** The last field of each kind counts; codes are cut to 32 bits. */
  function Taken(fs: seq<Field>, acc: ObjectType): (t: ObjectType) {
    if fs == [] then acc else
    match fs[|fs| - 1]
    case CodeField(value) => Taken(fs[..|fs| - 1], acc).(code := value % U32)
    case NameField(name) => Taken(fs[..|fs| - 1], acc).(name := name)
  }

  /** Only the bytes from the position on matter. */
  lemma {:induction false} UnmarshalShift(data: Bytes, i: nat, tail: Bytes, j: nat, acc: ObjectType)
    requires i <= |data| && j <= |tail| && data[i..] == tail[j..]
    ensures UnmarshalAt(data, i, acc) == UnmarshalAt(tail, j, acc)
    decreases |data| - i
  {
    assert |data| - i == |tail| - j;
    if i < |data| {
      FieldShift(data, i, tail, j, acc);
      var p := ReadField(data, i, acc);
      if p.More? {
        UnmarshalShift(data, p.i, tail, p.i - i + j, p.acc);
      }
    }
  }

  lemma UnmarshalMore(data: Bytes, i: nat, acc: ObjectType, j: nat, acc': ObjectType)
    requires i < |data| && ReadField(data, i, acc) == More(j, acc')
    ensures UnmarshalAt(data, i, acc) == UnmarshalAt(data, j, acc')
  {
  }

  lemma FieldShift(data: Bytes, i: nat, tail: Bytes, j: nat, acc: ObjectType)
    requires i < |data| && j < |tail| && data[i..] == tail[j..]
    ensures var p, q := ReadField(data, i, acc), ReadField(tail, j, acc);
            match p
            case Done(r) => q == p
            case More(i', acc') => q == More(i' - i + j, acc') && data[i'..] == tail[i' - i + j..]
  {
    var tag := Uvarint(data[i..]);
    if tag.n > 0 {
      SameFrom(data, i, tail, j, tag.n);
      var v := Uvarint(data[i + tag.n..]);
      if v.n > 0 {
        var k := tag.n + v.n;
        SameFrom(data, i, tail, j, k);
        if v.value <= |data| - i - k {
          SameName(data, i, tail, j, k, v.value);
        }
      }
    }
  }

  lemma SameName(data: Bytes, i: nat, tail: Bytes, j: nat, k: nat, n: nat)
    requires i + k + n <= |data| && j <= |tail| && data[i..] == tail[j..]
    ensures j + k + n <= |tail| && data[i + k + n..] == tail[j + k + n..]
    ensures data[i + k..i + k + n] == tail[j + k..j + k + n]
  {
    assert |data[i..]| == |tail[j..]|;
    SameFrom(data, i, tail, j, k + n);
    assert data[i..][k..k + n] == data[i + k..i + k + n];
    assert tail[j..][k..k + n] == tail[j + k..j + k + n];
  }

  lemma SameFrom(data: Bytes, i: nat, tail: Bytes, j: nat, k: nat)
    requires i + k <= |data| && j <= |tail| && data[i..] == tail[j..]
    ensures j + k <= |tail| && data[i + k..] == tail[j + k..]
  {
    assert |data[i..]| == |tail[j..]|;
    assert data[i..][k..] == data[i + k..];
    assert tail[j..][k..] == tail[j + k..];
  }

  /** One field in front. */
  lemma OneField(f: Field, rest: Bytes, acc: ObjectType)
    requires FieldOk(f)
    ensures UnmarshalAt(FieldBytes(f) + rest, 0, acc) == UnmarshalAt(rest, 0, Taken([f], acc))
  {
    if f.CodeField? {
      CodeFieldRead(f.value, rest, acc);
    } else {
      NameFieldRead(f.name, rest, acc);
    }
    FieldThen(FieldBytes(f), rest, acc, Taken([f], acc));
  }

  lemma FieldThen(field: Bytes, rest: Bytes, acc: ObjectType, acc': ObjectType)
    requires field != [] && ReadField(field + rest, 0, acc) == More(|field|, acc')
    ensures UnmarshalAt(field + rest, 0, acc) == UnmarshalAt(rest, 0, acc')
  {
    assert (field + rest)[|field|..] == rest;
    UnmarshalMore(field + rest, 0, acc, |field|, acc');
    UnmarshalShift(field + rest, |field|, rest, 0, acc');
  }

  lemma CodeFieldRead(value: nat, rest: Bytes, acc: ObjectType)
    requires value < U64
    ensures var f := CodeField(value);
            ReadField(FieldBytes(f) + rest, 0, acc) == More(|FieldBytes(f)|, Taken([f], acc))
  {
    var f := CodeField(value);
    var data := FieldBytes(f) + rest;
    assert data[0..] == [0x08] + PutUvarint(value) + rest;
    TwoVarints(data, 0, 0x08, value, rest);
    assert [f][..0] == [];
  }

  lemma NameFieldRead(name: Bytes, rest: Bytes, acc: ObjectType)
    requires |name| < U64
    ensures var f := NameField(name);
            ReadField(FieldBytes(f) + rest, 0, acc) == More(|FieldBytes(f)|, Taken([f], acc))
  {
    var f := NameField(name);
    var data, n := FieldBytes(f) + rest, |FieldBytes(f)|;
    assert data[0..] == [0x12] + PutUvarint(|name|) + (name + rest);
    TwoVarints(data, 0, 0x12, |name|, name + rest);
    assert data[n - |name|..n] == name;
    assert [f][..0] == [];
  }

  lemma {:induction false} TakenCons(fs: seq<Field>, acc: ObjectType)
    requires fs != []
    ensures Taken(fs, acc) == Taken(fs[1..], Taken([fs[0]], acc))
    decreases |fs|
  {
    var n := |fs| - 1;
    if n > 0 {
      TakenCons(fs[..n], acc);
      assert fs[..n][1..] == fs[1..][..n - 1];
    } else {
      assert fs == [fs[0]];
    }
  }

  /** Fields may come in any order and number, and the last of each kind counts; what follows them is read with that. */
  lemma {:induction false} UnmarshalFields(fs: seq<Field>, tail: Bytes, acc: ObjectType)
    requires forall i | 0 <= i < |fs| :: FieldOk(fs[i])
    ensures UnmarshalAt(FieldsBytes(fs) + tail, 0, acc) == UnmarshalAt(tail, 0, Taken(fs, acc))
    decreases |fs|
  {
    if fs == [] {
      assert FieldsBytes(fs) + tail == tail;
    } else {
      var rest := FieldsBytes(fs[1..]) + tail;
      assert FieldsBytes(fs) + tail == FieldBytes(fs[0]) + rest;
      OneField(fs[0], rest, acc);
      UnmarshalFields(fs[1..], tail, Taken([fs[0]], acc));
      TakenCons(fs, acc);
    }
  }

  /** Nothing follows, or a field of another number or wire type: that is the end. */
  lemma UnmarshalEnds(tag: Byte, rest: Bytes, acc: ObjectType)
    requires tag < 128 && tag != 0x08 && tag != 0x12
    ensures UnmarshalAt([], 0, acc) == Object(acc) && UnmarshalAt([tag] + rest, 0, acc) == Object(acc)
  {
    TagReadBack(tag, rest);
    assert ([tag] + rest)[0..] == [tag] + rest;
  }

  /** A name that is longer than what is left makes the slice expression panic. */
  lemma LongNamePanics(n: nat, rest: Bytes, acc: ObjectType)
    requires |rest| < n < U64
    ensures UnmarshalAt([0x12] + PutUvarint(n) + rest, 0, acc) == Panic
  {
    var data := [0x12] + PutUvarint(n) + rest;
    assert data[0..] == data;
    TwoVarints(data, 0, 0x12, n, rest);
  }

  /** A value that is cut off or too large is passed over, and its bytes are read as further fields. */
  lemma BadValueSkipped(tag: Byte, bad: Bytes, acc: ObjectType)
    requires (tag == 0x08 || tag == 0x12) && Uvarint(bad).n <= 0
    ensures UnmarshalAt([tag] + bad, 0, acc) == UnmarshalAt(bad, 0, acc)
  {
    var data := [tag] + bad;
    TagReadBack(tag, bad);
    assert data[0..] == data && data[1..] == bad;
    UnmarshalShift(data, 1, bad, 0, acc);
  }
}
