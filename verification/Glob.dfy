/** The wildcard matcher of the log search (`globMatch` in the sink's writer).

    The source splits the pattern at every `*` and then places the pieces greedily, each at the
    leftmost position that is still free.  The reference is the textbook recursive meaning of a
    pattern, in which a star may take any amount of text.  The two agree on every pattern and value. */
module Glob {

  predicate HasPrefix(v: string, q: string) {
    |q| <= |v| && v[..|q|] == q
  }

  predicate HasSuffix(v: string, q: string) {
    |q| <= |v| && v[|v| - |q|..] == q
  }

  /** `r` is the position of the leftmost occurrence of `q` in `v`, or -1 when there is none. */
  ghost predicate IsLeftmost(v: string, q: string, r: int) {
    && (r == -1 || (0 <= r && r + |q| <= |v| && HasPrefix(v[r..], q)))
    && forall i :: 0 <= i <= |v| && HasPrefix(v[i..], q) ==> 0 <= r <= i
  }

  /** `strings.Index`. */
  function Index(v: string, q: string): (r: int)
    ensures IsLeftmost(v, q, r)
  {
    if HasPrefix(v, q) then
      0
    else if v == "" then
      -1
    else
      var r := Index(v[1..], q);
      assert forall i :: 1 <= i <= |v| ==> v[i..] == v[1..][i - 1..];
      if r == -1 then -1 else r + 1
  }

  /** The pieces of a pattern between its stars: `strings.Split(pattern, "*")`. */
  function Split(p: string): (parts: seq<string>)
    ensures |parts| >= 1
  {
    if p == "" then [""]
    else if p[0] == '*' then [""] + Split(p[1..])
    else
      var rest := Split(p[1..]);
      [[p[0]] + rest[0]] + rest[1..]
  }

  /** What a pattern means: a star stands for any text, every other character for itself. */
  ghost predicate Matches(p: string, v: string)
    decreases |p|
  {
    if p == "" then v == ""
    else if p[0] == '*' then exists i: nat :: i <= |v| && Matches(p[1..], v[i..])
    else v != "" && v[0] == p[0] && Matches(p[1..], v[1..])
  }

  /** `v` is cut as arbitrary text, `qs[0]`, arbitrary text, `qs[1]`, ... and ends with the last piece;
      `pos[k]` is the amount of text skipped before piece `k`. */
  ghost predicate Placed(qs: seq<string>, v: string, pos: seq<nat>)
    requires |qs| >= 1
    decreases |qs|
  {
    && |pos| == |qs|
    && pos[0] <= |v|
    && if |qs| == 1 then v[pos[0]..] == qs[0]
       else HasPrefix(v[pos[0]..], qs[0]) && Placed(qs[1..], v[pos[0] + |qs[0]|..], pos[1..])
  }

  ghost predicate Placeable(qs: seq<string>, v: string)
    requires |qs| >= 1
  {
    exists pos :: Placed(qs, v, pos)
  }

  /** The meaning of a pattern in terms of its pieces. */
  ghost predicate PiecesMatch(parts: seq<string>, v: string)
    requires |parts| >= 1
  {
    if |parts| == 1 then v == parts[0]
    else HasPrefix(v, parts[0]) && Placeable(parts[1..], v[|parts[0]|..])
  }

  lemma {:induction false} MatchesByPieces(p: string, v: string)
    ensures Matches(p, v) <==> PiecesMatch(Split(p), v)
    decreases |p|
  {
    if p == "" {
    } else if p[0] == '*' {
      forall i: nat | i <= |v|
        ensures Matches(p[1..], v[i..]) <==> PiecesMatch(Split(p[1..]), v[i..])
      {
        MatchesByPieces(p[1..], v[i..]);
      }
      StarMatch(Split(p[1..]), v);
      assert Split(p)[1..] == Split(p[1..]) && v[0..] == v;
    } else {
      if v != "" {
        MatchesByPieces(p[1..], v[1..]);
        HeadMatch(p[0], Split(p[1..]), v);
      }
    }
  }

  /** A star before the pieces of a pattern: some suffix matches them. */
  lemma {:induction false} StarMatch(rest: seq<string>, v: string)
    requires |rest| >= 1
    ensures (exists i: nat :: i <= |v| && PiecesMatch(rest, v[i..])) <==> Placeable(rest, v)
  {
    if i: nat :| i <= |v| && PiecesMatch(rest, v[i..]) {
      if |rest| == 1 {
        assert Placed(rest, v, [i]);
      } else {
        var pos :| Placed(rest[1..], v[i..][|rest[0]|..], pos);
        assert v[i..][|rest[0]|..] == v[i + |rest[0]|..];
        assert ([i] + pos)[1..] == pos;
        assert Placed(rest, v, [i] + pos);
      }
    }
    if Placeable(rest, v) {
      var pos :| Placed(rest, v, pos);
      if |rest| > 1 {
        assert v[pos[0]..][|rest[0]|..] == v[pos[0] + |rest[0]|..];
        assert Placed(rest[1..], v[pos[0]..][|rest[0]|..], pos[1..]);
      }
      assert PiecesMatch(rest, v[pos[0]..]);
    }
  }

  /** Taking the first character off both the first piece and the text changes nothing. */
  lemma HeadMatch(c: char, rest: seq<string>, v: string)
    requires |rest| >= 1 && v != ""
    ensures PiecesMatch([[c] + rest[0]] + rest[1..], v) <==> v[0] == c && PiecesMatch(rest, v[1..])
  {
  }

  /** The exchange argument: pieces that fit in a suffix still fit when more text precedes it. */
  lemma {:induction false} MoreTextFits(qs: seq<string>, v: string, i: nat)
    requires |qs| >= 1 && i <= |v| && Placeable(qs, v[i..])
    ensures Placeable(qs, v)
  {
    var pos :| Placed(qs, v[i..], pos);
    var pos' := pos[0 := i + pos[0]];
    assert v[i..][pos[0]..] == v[pos'[0]..] && pos'[1..] == pos[1..];
    if |qs| > 1 {
      assert v[i..][pos[0] + |qs[0]|..] == v[pos'[0] + |qs[0]|..];
    }
    assert Placed(qs, v, pos');
  }

  /** Placing the first piece at its leftmost occurrence never loses a match ... */
  lemma {:induction false} LeftmostIsSafe(qs: seq<string>, v: string, at: nat, pos: seq<nat>)
    requires |qs| > 1 && Placed(qs, v, pos)
    requires at <= pos[0] && HasPrefix(v[at..], qs[0])
    ensures Placeable(qs[1..], v[at + |qs[0]|..])
  {
    var n := |qs[0]|;
    assert v[at + n..][pos[0] - at..] == v[pos[0] + n..];
    assert Placed(qs[1..], v[pos[0] + n..], pos[1..]);
    MoreTextFits(qs[1..], v[at + n..], pos[0] - at);
  }

  /** ... and never invents one. */
  lemma {:induction false} AnyPlaceIsSound(qs: seq<string>, v: string, at: nat)
    requires |qs| > 1 && at <= |v| && HasPrefix(v[at..], qs[0])
    requires Placeable(qs[1..], v[at + |qs[0]|..])
    ensures Placeable(qs, v)
  {
    var pos :| Placed(qs[1..], v[at + |qs[0]|..], pos);
    assert ([at] + pos)[1..] == pos;
    assert Placed(qs, v, [at] + pos);
  }

  /** So the greedy choice decides the match. */
  lemma {:induction false} GreedyStep(qs: seq<string>, v: string, at: int)
    requires |qs| > 1 && IsLeftmost(v, qs[0], at)
    ensures Placeable(qs, v) <==> at != -1 && Placeable(qs[1..], v[at + |qs[0]|..])
  {
    if pos :| Placed(qs, v, pos) {
      LeftmostIsSafe(qs, v, at, pos);
    } else if at != -1 && Placeable(qs[1..], v[at + |qs[0]|..]) {
      AnyPlaceIsSound(qs, v, at);
    }
  }

  lemma LastPieceIsSuffix(qs: seq<string>, v: string)
    requires |qs| == 1
    ensures Placeable(qs, v) <==> HasSuffix(v, qs[0])
  {
    if HasSuffix(v, qs[0]) {
      assert Placed(qs, v, [|v| - |qs[0]|]);
    }
  }

  /** `globMatch`: exactly the meaning of the pattern, for all patterns and values. */
  method GlobMatch(pattern: string, val: string) returns (r: bool)
    ensures r <==> Matches(pattern, val)
  {
    MatchesByPieces(pattern, val);
    if pattern == "*" {
      assert Split(pattern) == ["", ""];
      LastPieceIsSuffix([""], val);
      assert val[0..] == val && Split(pattern)[1..] == [""];
      return true;
    }
    var parts := Split(pattern);
    if |parts| == 1 {
      OnePieceIsPattern(pattern);
      return pattern == val;
    }
    if !HasPrefix(val, parts[0]) {
      return false;
    }
    var rest := val[|parts[0]|..];
    var i := 1;
    while i < |parts| - 1
      invariant 1 <= i <= |parts| - 1
      invariant Matches(pattern, val) <==> Placeable(parts[i..], rest)
    {
      var idx := Index(rest, parts[i]);
      GreedyStep(parts[i..], rest, idx);
      assert parts[i..][1..] == parts[i + 1..];
      if idx == -1 {
        return false;
      }
      rest := rest[idx + |parts[i]|..];
      i := i + 1;
    }
    LastPieceIsSuffix(parts[i..], rest);
    return HasSuffix(rest, parts[|parts| - 1]);
  }

  lemma OnePieceIsPattern(p: string)
    requires |Split(p)| == 1
    ensures Split(p)[0] == p
  {
  }
}
