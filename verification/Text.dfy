/** Strings as Go compares and joins them. */
module Text {
  const NUL: char := '\0'

  /** `a < b` on Go strings. */
  predicate Less(a: string, b: string) {
    b != "" && (a == "" || a[0] < b[0] || (a[0] == b[0] && Less(a[1..], b[1..])))
  }

  lemma {:induction false} LessTotal(a: string, b: string)
    ensures Less(a, b) || a == b || Less(b, a)
    ensures !(Less(a, b) && Less(b, a)) && !Less(a, a)
  {
    if a != "" {
      LessTotal(a[1..], a[1..]);
      if b != "" {
        LessTotal(a[1..], b[1..]);
        if a[0] == b[0] && a[1..] == b[1..] {
          assert a == [a[0]] + a[1..] && b == [b[0]] + b[1..];
        }
      }
    }
  }

  lemma {:induction false} LessTransitive(a: string, b: string, c: string)
    requires Less(a, b) && Less(b, c)
    ensures Less(a, c)
  {
    if a != "" && a[0] == b[0] && b[0] == c[0] {
      LessTransitive(a[1..], b[1..], c[1..]);
    }
  }

  /** Sorted without duplicates. */
  predicate StrictlySorted(s: seq<string>) {
    forall i, j | 0 <= i < j < |s| :: Less(s[i], s[j])
  }

  lemma StrictlySortedDistinct(s: seq<string>, i: nat, j: nat)
    requires StrictlySorted(s) && i < |s| && j < |s| && s[i] == s[j]
    ensures i == j
  {
    LessTotal(s[i], s[i]);
  }

  predicate NoNul(s: string) {
    NUL !in s
  }

  /** `strings.Join(vals, "\x00")`. */
  function Join(vals: seq<string>): (s: string) {
    if vals == [] then ""
    else if |vals| == 1 then vals[0]
    else vals[0] + [NUL] + Join(vals[1..])
  }

  /** What comes before the first NUL is determined by the whole. */
  lemma CutAtNul(a: string, b: string, x: string, y: string)
    requires NoNul(a) && NoNul(b) && a + [NUL] + x == b + [NUL] + y
    ensures a == b && x == y
  {
    var s := a + [NUL] + x;
    assert forall i | 0 <= i < |a| :: s[i] == a[i] && a[i] in a;
    assert forall i | 0 <= i < |b| :: s[i] == b[i] && b[i] in b;
    assert s[|a|] == NUL && s[|b|] == NUL;
    assert a == s[..|a|] && b == s[..|b|] && x == s[|a| + 1..] && y == s[|b| + 1..];
  }

  /** Lists of the same length without NUL in them join to the same text only when they are equal. */
  lemma {:induction false} JoinInjective(a: seq<string>, b: seq<string>)
    requires |a| == |b| && Join(a) == Join(b)
    requires forall i | 0 <= i < |a| :: NoNul(a[i]) && NoNul(b[i])
    ensures a == b
  {
    if |a| > 1 {
      CutAtNul(a[0], b[0], Join(a[1..]), Join(b[1..]));
      JoinInjective(a[1..], b[1..]);
      assert a == [a[0]] + a[1..] && b == [b[0]] + b[1..];
    }
  }

  // ---------- lists that join to the same text ----------

  function Nuls(s: string): (n: nat) {
    if s == "" then 0 else (if s[0] == NUL then 1 else 0) + Nuls(s[1..])
  }

  lemma {:induction false} NulsZeroIff(s: string)
    ensures Nuls(s) == 0 <==> NoNul(s)
  {
    if s != "" {
      NulsZeroIff(s[1..]);
      assert s == [s[0]] + s[1..];
    }
  }

  lemma {:induction false} NulsConcat(a: string, b: string)
    ensures Nuls(a + b) == Nuls(a) + Nuls(b)
  {
    if a == "" {
      assert a + b == b;
    } else {
      assert (a + b)[1..] == a[1..] + b;
      NulsConcat(a[1..], b);
    }
  }

  function AllNuls(vals: seq<string>): (n: nat) {
    if vals == [] then 0 else Nuls(vals[0]) + AllNuls(vals[1..])
  }

  lemma {:induction false} AllNulsZeroIff(vals: seq<string>)
    ensures AllNuls(vals) == 0 <==> forall i | 0 <= i < |vals| :: NoNul(vals[i])
  {
    if vals != [] {
      NulsZeroIff(vals[0]);
      AllNulsZeroIff(vals[1..]);
      assert forall i | 0 < i < |vals| :: vals[i] == vals[1..][i - 1];
    }
  }

  lemma {:induction false} NulsJoin(vals: seq<string>)
    requires vals != []
    ensures Nuls(Join(vals)) == |vals| - 1 + AllNuls(vals)
  {
    if |vals| == 1 {
      assert AllNuls(vals[1..]) == 0;
    } else {
      NulsJoin(vals[1..]);
      NulsConcat(vals[0] + [NUL], Join(vals[1..]));
      NulsConcat(vals[0], [NUL]);
      assert Nuls([NUL]) == 1 + Nuls([NUL][1..]);
    }
  }

  /** A list without NUL joins to a text that no other list of its length joins to. */
  lemma JoinUnique(a: seq<string>, b: seq<string>)
    requires |a| == |b| && Join(a) == Join(b) && forall i | 0 <= i < |a| :: NoNul(a[i])
    ensures a == b
  {
    if a != [] {
      NulsJoin(a);
      NulsJoin(b);
      AllNulsZeroIff(a);
      AllNulsZeroIff(b);
    }
    JoinInjective(a, b);
  }

  /** A NUL in a value can be taken for the separator: the text after it moves to the next value. */
  function Shifted(vals: seq<string>, i: nat, p: string, q: string): (r: seq<string>)
    requires i + 1 < |vals|
  {
    vals[i := p][i + 1 := q + [NUL] + vals[i + 1]]
  }

  lemma {:induction false} JoinShift(vals: seq<string>, i: nat, p: string, q: string)
    requires i + 1 < |vals| && vals[i] == p + [NUL] + q
    ensures Join(Shifted(vals, i, p, q)) == Join(vals)
  {
    var r := Shifted(vals, i, p, q);
    if i > 0 {
      assert r[1..] == Shifted(vals[1..], i - 1, p, q);
      JoinShift(vals[1..], i - 1, p, q);
    } else {
      var rest := vals[1..];
      assert r[1..] == rest[0 := q + [NUL] + rest[0]];
      JoinHead(rest, q + [NUL]);
      var t := Join(rest);
      assert p + [NUL] + (q + [NUL] + t) == (p + [NUL] + q) + [NUL] + t;
    }
  }

  /** Text put before the first value is put before the whole. */
  lemma JoinHead(vals: seq<string>, pre: string)
    requires vals != []
    ensures Join(vals[0 := pre + vals[0]]) == pre + Join(vals)
  {
    var r := vals[0 := pre + vals[0]];
    if |vals| > 1 {
      assert r[1..] == vals[1..];
      var t := [NUL] + Join(vals[1..]);
      assert vals[0] + [NUL] + Join(vals[1..]) == vals[0] + t;
      assert (pre + vals[0]) + [NUL] + Join(vals[1..]) == pre + (vals[0] + t);
    }
  }
}
