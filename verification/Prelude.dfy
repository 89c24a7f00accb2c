/** Small things that several components share. */
module Prelude {
  datatype Option<+T> = None | Some(value: T)

  const U32: nat := 0x1_0000_0000
  const U64: nat := 0x1_0000_0000_0000_0000
  type UInt32 = x: int | 0 <= x < U32
  type UInt64 = x: int | 0 <= x < U64

  const I64: int := 0x8000_0000_0000_0000
  type Int64 = x: int | -I64 <= x < I64

  /** Go's `x + y` on `int64`. */
  function AddI64(x: Int64, y: Int64): (r: Int64)
    ensures -I64 <= x + y < I64 ==> r == x + y
    ensures I64 <= x + y ==> r == x + y - U64
  {
    if x + y >= I64 then x + y - U64 else if x + y < -I64 then x + y + U64 else x + y
  }

  function Concat<T>(parts: seq<seq<T>>): (s: seq<T>) {
    if parts == [] then [] else Concat(parts[..|parts| - 1]) + parts[|parts| - 1]
  }

  /** `r` is made of the elements of `s` at the places `at`, in order. */
  ghost predicate Picks<T>(s: seq<T>, r: seq<T>, at: seq<nat>) {
    && |at| == |r|
    && (forall i | 0 <= i < |at| :: at[i] < |s| && r[i] == s[at[i]])
    && (forall i, j | 0 <= i < j < |at| :: at[i] < at[j])
  }

  lemma PicksSnoc<T>(s: seq<T>, r: seq<T>, at: seq<nat>, x: T)
    requires Picks(s, r, at)
    ensures Picks(s + [x], r, at) && Picks(s + [x], r + [x], at + [|s|])
    ensures |s| !in at && forall i :: i in at + [|s|] <==> i in at || i == |s|
  {
  }

  ghost predicate PicksWhere<T>(s: seq<T>, r: seq<T>, at: seq<nat>, p: T -> bool) {
    Picks(s, r, at) && forall i | 0 <= i < |s| :: i in at <==> p(s[i])
  }

  ghost function Where<T>(s: seq<T>, p: T -> bool): (r: seq<T>) {
    if s == [] then [] else Where(s[..|s| - 1], p) + if p(s[|s| - 1]) then [s[|s| - 1]] else []
  }

  lemma {:induction false} WherePicks<T>(s: seq<T>, p: T -> bool) returns (at: seq<nat>)
    ensures PicksWhere(s, Where(s, p), at, p)
  {
    if s == [] {
      at := [];
    } else {
      var n := |s| - 1;
      at := WherePicks(s[..n], p);
      PicksSnoc(s[..n], Where(s[..n], p), at, s[n]);
      assert s[..n] + [s[n]] == s;
      at := if p(s[n]) then at + [n] else at;
    }
  }
}
