/** Go's `float64(n)` for an unsigned integer: the nearest number with 53 significant bits, and of two that are equally
    near the one whose last bit is 0 (section 4.3.1 of IEEE 754-2019, roundTiesToEven). */
module Double {
  /** 2^53 */
  const P53: nat := 0x20_0000_0000_0000

  /** `n` is an integer below 2^53 times a power of two. */
  predicate Representable(n: nat) {
    n < P53 || (n % 2 == 0 && Representable(n / 2))
  }

  /** The weight of the last of the 53 leading bits of `n`. */
  function Unit(n: nat): (u: nat)
    ensures u > 0
  {
    if n < P53 then 1 else 2 * Unit(n / 2)
  }

  /** That bit is 0. */
  predicate Even53(n: nat) {
    if n < P53 then n % 2 == 0 else Even53(n / 2)
  }

  /** `n` without the bits after those. */
  function Truncated(n: nat): (d: nat)
    ensures d <= n < d + Unit(n)
  {
    if n < P53 then n else 2 * Truncated(n / 2)
  }

  /** The conversion. */
  function Rounded(n: nat): (r: nat)
    ensures Truncated(n) <= r <= Truncated(n) + Unit(n)
  {
    Nearer(n - Truncated(n), Truncated(n), Unit(n), Even53(n))
  }

  /** Up or down, when `rest` of a `unit` is left over. */
  function Nearer(rest: nat, down: nat, unit: nat, even: bool): (r: nat) {
    if 2 * rest > unit || (2 * rest == unit && !even) then down + unit else down
  }

  /** How the 53-bit parts of two numbers lie: the same, or the second at least one unit of the first above. */
  lemma {:induction false} Parts(a: nat, b: nat)
    requires a <= b
    ensures || (Truncated(a) == Truncated(b) && Unit(a) == Unit(b) && Even53(a) == Even53(b))
            || Truncated(a) + Unit(a) <= Truncated(b)
    decreases b
  {
    if a >= P53 {
      Parts(a / 2, b / 2);
    } else if b >= P53 {
      AtLeastP53(b);
    }
  }

  lemma {:induction false} AtLeastP53(n: nat)
    requires n >= P53
    ensures Truncated(n) >= P53
  {
    if n / 2 >= P53 {
      AtLeastP53(n / 2);
    }
  }

  /** Rounding keeps order. */
  lemma RoundedMonotone(a: nat, b: nat)
    requires a <= b
    ensures Rounded(a) <= Rounded(b)
  {
    Parts(a, b);
  }

  lemma {:induction false} TruncatedExact(n: nat)
    ensures Truncated(n) == n <==> Representable(n)
  {
    if n >= P53 {
      TruncatedExact(n / 2);
    }
  }

  /** Exactly the representable numbers are left as they are. */
  lemma RoundedExactIff(n: nat)
    ensures Rounded(n) == n <==> Representable(n)
  {
    TruncatedExact(n);
  }

  function Distance(a: nat, b: nat): (d: nat) {
    if a <= b then b - a else a - b
  }

  lemma {:induction false} RepresentableParts(n: nat)
    ensures Representable(Truncated(n)) && Representable(Truncated(n) + Unit(n))
  {
    if n >= P53 {
      RepresentableParts(n / 2);
      Twice(Truncated(n / 2));
      Twice(Truncated(n / 2) + Unit(n / 2));
    } else if n + 1 == P53 {
      assert P53 / 2 < P53;
    }
  }

  lemma Twice(n: nat)
    requires Representable(n)
    ensures Representable(2 * n)
  {
    assert (2 * n) / 2 == n;
  }

  /** The result is representable, and no representable number is nearer. */
  lemma RoundedNearest(n: nat, m: nat)
    requires Representable(m)
    ensures Representable(Rounded(n)) && Distance(Rounded(n), n) <= Distance(m, n)
  {
    RepresentableParts(n);
    TruncatedExact(m);
    if m <= n {
      Parts(m, n);
    } else {
      Parts(n, m);
    }
  }

  lemma {:induction false} EvenParts(n: nat)
    ensures Even53(Truncated(n)) == Even53(n) && Even53(Truncated(n) + Unit(n)) == !Even53(n)
  {
    if n >= P53 {
      EvenParts(n / 2);
      AtLeastP53(n);
      EvenTwice(Truncated(n / 2));
      EvenTwice(Truncated(n / 2) + Unit(n / 2));
    } else if n + 1 == P53 {
      assert Even53(P53) == Even53(P53 / 2);
    }
  }

  lemma EvenTwice(n: nat)
    requires 2 * n >= P53
    ensures Even53(2 * n) == Even53(n)
  {
    assert (2 * n) / 2 == n;
  }

  /** Half way between two neighbours the result is the even one. */
  lemma RoundedTies(n: nat)
    requires 2 * (n - Truncated(n)) == Unit(n)
    ensures Even53(Rounded(n))
  {
    if Even53(n) {
      TieDown(n);
      EvenDown(n, Rounded(n));
    } else {
      TieUp(n);
      EvenUp(n, Rounded(n));
    }
  }

  lemma EvenDown(n: nat, r: nat)
    requires Even53(n) && r == Truncated(n)
    ensures Even53(r)
  {
    EvenParts(n);
  }

  lemma EvenUp(n: nat, r: nat)
    requires !Even53(n) && r == Truncated(n) + Unit(n)
    ensures Even53(r)
  {
    EvenParts(n);
  }

  lemma TieDown(n: nat)
    requires 2 * (n - Truncated(n)) == Unit(n) && Even53(n)
    ensures Rounded(n) == Truncated(n)
  {
  }

  lemma TieUp(n: nat)
    requires 2 * (n - Truncated(n)) == Unit(n) && !Even53(n)
    ensures Rounded(n) == Truncated(n) + Unit(n)
  {
  }

  lemma UpToP53(n: nat)
    requires n <= P53
    ensures Representable(n)
  {
    assert P53 / 2 < P53;
  }

  /** 2^53 + 1 is the first number that is not. */
  lemma FirstUnrepresentable()
    ensures !Representable(P53 + 1) && Rounded(P53 + 1) == P53
  {
    var n := P53 + 1;
    assert n / 2 == P53 / 2 && Even53(P53 / 2);
    assert Truncated(n) == 2 * Truncated(P53 / 2) == P53 && Unit(n) == 2 * Unit(P53 / 2) == 2 && Even53(n);
  }

  lemma RoundedU64()
    ensures Rounded(0x1_0000_0000_0000_0000) == 0x1_0000_0000_0000_0000
  {
    assert Representable(0x1_0000_0000_0000_0000);
    RoundedExactIff(0x1_0000_0000_0000_0000);
  }
}
