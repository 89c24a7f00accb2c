/** The node-local span ring (spanring.go): a circular array that refines "the last spans appended", and its
    fan-out to live subscribers. */
module SpanRing {
  import opened Prelude
  import opened LiveTail

  /** The last `cap` elements of a log. */
  function Latest<T>(log: seq<T>, cap: nat): (r: seq<T>) {
    if |log| <= cap then log else log[|log| - cap..]
  }

  /** The spans that start within the interval. */
  function Within(spans: seq<StoredSpan>, lo: nat, hi: nat): (r: seq<StoredSpan>) {
    if spans == [] then [] else
    var n := |spans| - 1;
    Within(spans[..n], lo, hi) + if lo <= spans[n].start <= hi then [spans[n]] else []
  }

  /** At most `limit` of them; a limit of zero or less means all. */
  function Limited<T>(spans: seq<T>, limit: int): (r: seq<T>)
    ensures r <= spans && |r| == if limit <= 0 || |spans| <= limit then |spans| else limit
  {
    if 0 < limit < |spans| then spans[..limit] else spans
  }

  /** The spans within an interval are, in order, those that start neither before nor after it. */
  lemma {:induction false} WithinMeans(spans: seq<StoredSpan>, lo: nat, hi: nat) returns (at: seq<nat>)
    ensures Picks(spans, Within(spans, lo, hi), at)
    ensures forall i | 0 <= i < |spans| :: i in at <==> lo <= spans[i].start && spans[i].start <= hi
  {
    if spans == [] {
      at := [];
    } else {
      var n := |spans| - 1;
      at := WithinMeans(spans[..n], lo, hi);
      PicksSnoc(spans[..n], Within(spans[..n], lo, hi), at, spans[n]);
      assert spans[..n] + [spans[n]] == spans;
      if lo <= spans[n].start <= hi {
        at := at + [n];
      }
    }
  }

  /** More spans to look at only add to what is found. */
  lemma {:induction false} WithinPrefix(spans: seq<StoredSpan>, lo: nat, hi: nat, k: nat)
    requires k <= |spans|
    ensures Within(spans[..k], lo, hi) <= Within(spans, lo, hi)
    decreases |spans| - k
  {
    if k < |spans| {
      WithinPrefix(spans, lo, hi, k + 1);
      assert spans[..k + 1][..k] == spans[..k];
    } else {
      assert spans[..k] == spans;
    }
  }

  lemma WithinNext(spans: seq<StoredSpan>, lo: nat, hi: nat, i: nat)
    requires i < |spans|
    ensures Within(spans[..i + 1], lo, hi) ==
            Within(spans[..i], lo, hi) + if lo <= spans[i].start <= hi then [spans[i]] else []
  {
    assert spans[..i + 1][..i] == spans[..i];
  }

  lemma LimitReached(spans: seq<StoredSpan>, lo: nat, hi: nat, k: nat, limit: int)
    requires k <= |spans| && limit == |Within(spans[..k], lo, hi)| > 0
    ensures Limited(Within(spans, lo, hi), limit) == Within(spans[..k], lo, hi)
  {
    WithinPrefix(spans, lo, hi, k);
  }

  lemma LatestSnoc<T>(log: seq<T>, x: T, cap: nat)
    requires 0 < cap
    ensures Latest(log + [x], cap) == Latest(Latest(log, cap) + [x], cap)
    ensures Latest(log + [x], cap) == if |log| < cap then log + [x] else Latest(log, cap)[1..] + [x]
  {
  }

  /** Index arithmetic on a ring. */
  function Wrap(x: nat, cap: nat): (r: nat)
    requires x < 2 * cap
    ensures r < cap
  {
    if x < cap then x else x - cap
  }

  lemma WrapIsMod(x: nat, cap: nat)
    requires x < 2 * cap
    ensures x % cap == Wrap(x, cap)
  {
  }

  /** The slots from `start` on hold `contents`. */
  ghost predicate Holds(slots: seq<StoredSpan>, start: nat, contents: seq<StoredSpan>) {
    && start < |slots| && |contents| <= |slots|
    && forall i | 0 <= i < |contents| :: slots[Wrap(start + i, |slots|)] == contents[i]
  }

  /** A write to the slot after the last one. */
  lemma HoldsSnoc(slots: seq<StoredSpan>, head: nat, contents: seq<StoredSpan>, s: StoredSpan)
    requires Holds(slots, 0, contents) && head == |contents| < |slots|
    ensures Holds(slots[head := s], 0, contents + [s])
  {
  }

  /** A write over the oldest one. */
  lemma HoldsNext(slots: seq<StoredSpan>, head: nat, contents: seq<StoredSpan>, s: StoredSpan)
    requires Holds(slots, head, contents) && |contents| == |slots|
    ensures Holds(slots[head := s], Wrap(head + 1, |slots|), contents[1..] + [s])
  {
  }

  /** The ring's fields stand for the last spans of `log`. */
  ghost predicate IsRing(slots: seq<StoredSpan>, head: nat, full: bool, log: seq<StoredSpan>) {
    && head < |slots| && (full <==> |slots| <= |log|) && (!full ==> head == |log|)
    && Holds(slots, if full then head else 0, Latest(log, |slots|))
  }

  lemma RingNext(slots: seq<StoredSpan>, head: nat, full: bool, log: seq<StoredSpan>, s: StoredSpan)
    requires IsRing(slots, head, full, log)
    ensures var head' := Wrap(head + 1, |slots|);
            IsRing(slots[head := s], head', full || head' == 0, log + [s])
  {
    LatestSnoc(log, s, |slots|);
    if full {
      HoldsNext(slots, head, Latest(log, |slots|), s);
    } else {
      HoldsSnoc(slots, head, log, s);
    }
  }

  class SpanBuffer {
    const buf: array<StoredSpan>
    var head: nat
    var full: bool
    var subs: set<Subscriber>
    /** Every span ever appended. */
    ghost var log: seq<StoredSpan>

    ghost predicate Ring()
      reads this, buf
    {
      IsRing(buf[..], head, full, log)
    }

    ghost predicate Valid()
      reads this, buf, subs
    {
      Ring() && forall sub | sub in subs :: sub.Open()
    }

    /** What the ring stands for. */
    ghost function Contents(): (r: seq<StoredSpan>)
      reads this
    {
      Latest(log, buf.Length)
    }

    constructor (capacity: int, empty: StoredSpan)
      ensures Valid() && log == [] && subs == {} && fresh(buf)
      ensures buf.Length == if capacity <= 0 then 65536 else capacity
    {
      var n := if capacity <= 0 then 65536 else capacity;
      buf := new StoredSpan[n](_ => empty);
      head, full, subs, log := 0, false, {}, [];
    }

    method Len() returns (n: nat)
      requires Valid()
      ensures n == |Contents()| && n == if |log| < buf.Length then |log| else buf.Length
    {
      if full {
        return buf.Length;
      }
      return head;
    }

    /** The ring's part of `append`. */
    method Push(s: StoredSpan)
      requires Ring()
      modifies this`head, this`full, this`log, buf
      ensures Ring() && log == old(log) + [s]
      ensures Contents() == Latest(old(Contents()) + [s], buf.Length)
      ensures |Contents()| == (if |log| < buf.Length then |log| else buf.Length)
      ensures log[|log| - |Contents()|..] == Contents()
    {
      LatestSnoc(log, s, buf.Length);
      Store(s);
    }

    method Store(s: StoredSpan)
      requires Ring()
      modifies this`head, this`full, this`log, buf
      ensures Ring() && log == old(log) + [s]
    {
      RingNext(buf[..], head, full, log, s);
      WrapIsMod(head + 1, buf.Length);
      buf[head] := s;
      assert buf[..] == old(buf[..])[head := s];
      head := (head + 1) % buf.Length;
      if head == 0 {
        full := true;
      }
      log := log + [s];
    }

    /** One pass of `Range`'s loop: look at the `i`-th oldest span. */
    method Visit(start: nat, i: nat, lo: nat, hi: nat, out: seq<StoredSpan>) returns (out': seq<StoredSpan>)
      requires Ring() && start == (if full then head else 0)
      requires i < |Contents()| && out == Within(Contents()[..i], lo, hi)
      ensures out' == Within(Contents()[..i + 1], lo, hi) && |out'| <= |out| + 1
    {
      WrapIsMod(start + i, buf.Length);
      WithinNext(Contents(), lo, hi, i);
      var s := buf[(start + i) % buf.Length];
      if s.start < lo || s.start > hi {
        return out;
      }
      return out + [s];
    }

    method Range(lo: nat, hi: nat, limit: int) returns (out: seq<StoredSpan>)
      requires Ring()
      ensures out == Limited(Within(Contents(), lo, hi), limit)
      ensures var all := Within(Contents(), lo, hi);
              out <= all && |out| == if limit <= 0 || |all| <= limit then |all| else limit
    {
      var n, start := head, 0;
      if full {
        n, start := buf.Length, head;
      }
      out := [];
      for i := 0 to n
        invariant out == Within(Contents()[..i], lo, hi) && (limit > 0 ==> |out| < limit)
      {
        out := Visit(start, i, lo, hi, out);
        if limit > 0 && |out| >= limit {
          LimitReached(Contents(), lo, hi, i + 1, limit);
          return;
        }
      }
      assert Contents()[..n] == Contents();
    }

    /** `append`: into the ring, and to every live subscriber. */
    method Append(s: StoredSpan)
      requires Valid()
      modifies this`head, this`full, this`log, buf, subs
      ensures Valid() && log == old(log) + [s] && Contents() == Latest(old(Contents()) + [s], buf.Length)
      ensures forall sub | sub in subs :: sub.Caught(old(sub.stream + [s]))
    {
      Push(s);
      FanOutAll(s);
    }

    method FanOutAll(s: StoredSpan)
      requires forall sub | sub in subs :: sub.Open()
      modifies subs
      ensures forall sub | sub in subs :: sub.Caught(old(sub.stream + [s]))
    {
      FanOut(s, subs, map sub | sub in subs :: sub.stream + [s]);
    }

    /** With `s`, the streams of the subscribers will be those of `after`. */
    static ghost predicate AllAwait(s: StoredSpan, todo: set<Subscriber>, after: map<Subscriber, seq<StoredSpan>>)
      reads todo
    {
      forall sub | sub in todo :: sub in after && sub.Awaits(s, after[sub])
    }

    /** One pass of the loop over the subscribers. */
    method DeliverOne(s: StoredSpan, sub: Subscriber, rest: set<Subscriber>,
                      ghost after: map<Subscriber, seq<StoredSpan>>)
      requires sub !in rest && sub in after && sub.Awaits(s, after[sub])
      requires AllAwait(s, rest, after)
      modifies sub
      ensures sub.Caught(after[sub]) && AllAwait(s, rest, after)
    {
      sub.Deliver(s);
    }

    /** The loop, in any order. */
    method FanOut(s: StoredSpan, todo: set<Subscriber>, ghost after: map<Subscriber, seq<StoredSpan>>)
      requires AllAwait(s, todo, after)
      modifies todo
      ensures forall sub | sub in todo :: sub in after && sub.Caught(after[sub])
      decreases |todo|
    {
      if todo != {} {
        var sub :| sub in todo;
        var rest := todo - {sub};
        DeliverOne(s, sub, rest, after);
        FanOut(s, rest, after);
      }
    }

    method Subscribe(buffer: int) returns (sub: Subscriber)
      requires Valid()
      modifies this`subs
      ensures Valid() && fresh(sub) && subs == old(subs) + {sub} && sub.State(Ready) == Subscribed(buffer).c
    {
      sub := new Subscriber(buffer);
      subs := subs + {sub};
    }

    /** The cancel function of a subscription.  It closes the channel under the lock that `Append` sends under, so
        whatever `Append` sends to is open. */
    method Cancel(sub: Subscriber)
      requires Valid() && sub.Valid()
      modifies this`subs, sub`closed
      ensures Valid() && subs == old(subs) - {sub} && sub.Valid() && (sub in old(subs) ==> sub.closed)
    {
      if sub in subs {
        subs := subs - {sub};
        sub.closed := true;
      }
    }
  }
}
