/** The live tail of the span buffer: one subscriber's bounded channel with drop-oldest delivery (`append` in
    spanring.go) and the filter loop behind it (`SubscribeSpans` in agent.go).

    `append` holds the buffer's lock, but the subscriber receives whenever it likes, also between the three
    channel operations of one delivery; `Next` therefore takes them one at a time. */
module LiveTail {

  datatype StoredSpan = StoredSpan(resource: map<string, string>, start: nat, name: string)

  /** A delivery.  `index` is the span's place in the stream since the subscription; the program does not keep it. */
  datatype Item = Item(index: nat, span: StoredSpan, gap: nat)

  /** Where the delivery of the newest span has got to. */
  datatype Pending = Ready | First(item: Item) | Evict(item: Item) | Second(item: Item)

  /** A subscriber's channel.  `stream` are the spans appended since it subscribed and `taken` the deliveries it has
      received. */
  datatype Chan = Chan(
    cap: nat, closed: bool, queue: seq<Item>, gap: nat, pending: Pending, stream: seq<StoredSpan>, taken: seq<Item>)

  // ---------- the steps of one delivery ----------

  function Offer(c: Chan, span: StoredSpan): (c': Chan) {
    c.(stream := c.stream + [span], gap := 0, pending := First(Item(|c.stream|, span, c.gap)))
  }

  function TryFirst(c: Chan): (c': Chan)
    requires c.pending.First?
  {
    if |c.queue| < c.cap then c.(queue := c.queue + [c.pending.item], pending := Ready)
    else c.(pending := Evict(c.pending.item))
  }

  function EvictOldest(c: Chan): (c': Chan)
    requires c.pending.Evict?
  {
    var item := c.pending.item;
    if c.queue == [] then c.(pending := Second(item))
    else c.(queue := c.queue[1..], pending := Second(item.(gap := item.gap + c.queue[0].gap + 1)))
  }

  function TrySecond(c: Chan): (c': Chan)
    requires c.pending.Second?
  {
    if |c.queue| < c.cap then c.(queue := c.queue + [c.pending.item], pending := Ready)
    else c.(gap := c.gap + c.pending.item.gap + 1, pending := Ready)
  }

  function Take(c: Chan): (c': Chan)
    requires c.queue != []
  {
    c.(queue := c.queue[1..], taken := c.taken + [c.queue[0]])
  }

  // ---------- the filter loop ----------

  /** What becomes of a span: the filter matches it and it can be encoded, or not. */
  datatype Outcome = Sent | NoMatch | CelError | MarshalError

  datatype Event = Event(span: StoredSpan, gap: nat)

  datatype Out = Out(sent: seq<Event>, carried: nat, celErrs: nat, filtered: nat)

  function Judge(o: Out, item: Item, r: Outcome): (o': Out) {
    match r
    case Sent => o.(sent := o.sent + [Event(item.span, item.gap + o.carried)], carried := 0)
    case NoMatch => o.(carried := o.carried + item.gap, filtered := o.filtered + 1)
    case CelError => o.(carried := o.carried + item.gap, celErrs := o.celErrs + 1, filtered := o.filtered + 1)
    case MarshalError => o.(carried := o.carried + item.gap + 1)
  }

  /** A delivery and what became of it. */
  datatype Decision = Decision(item: Item, r: Outcome)

  /** The spans lost with a delivery that is not sent on: those of its gap, and its own if it could not be encoded. */
  function Lost(ds: seq<Decision>): (n: nat) {
    if ds == [] then 0 else
    var d := ds[|ds| - 1];
    Lost(ds[..|ds| - 1]) + d.item.gap + if d.r == MarshalError then 1 else 0
  }

  function CountOf(ds: seq<Decision>, r: Outcome): (n: nat) {
    if ds == [] then 0 else CountOf(ds[..|ds| - 1], r) + if ds[|ds| - 1].r == r then 1 else 0
  }

  /** The first decision after the event before the `k`-th one. */
  function From(at: seq<nat>, k: nat): (i: nat)
    requires k <= |at|
  {
    if k == 0 then 0 else at[k - 1] + 1
  }

  /** The `k`-th event stands for the delivery `at[k]`, and its gap is that of the delivery with everything lost since
      the event before it. */
  ghost predicate EventAt(ds: seq<Decision>, at: seq<nat>, sent: seq<Event>, k: nat)
    requires k < |at| == |sent|
  {
    && From(at, k) <= at[k] < |ds| && ds[at[k]].r == Sent && sent[k].span == ds[at[k]].item.span
    && sent[k].gap == ds[at[k]].item.gap + Lost(ds[From(at, k)..at[k]])
  }

  ghost predicate AllEvents(ds: seq<Decision>, at: seq<nat>, sent: seq<Event>) {
    |at| == |sent| && forall k | 0 <= k < |at| :: EventAt(ds, at, sent, k)
  }

  /** Every matching delivery has become an event. */
  ghost predicate NoneMissing(ds: seq<Decision>, at: seq<nat>) {
    forall i | 0 <= i < |ds| :: EventIfSent(ds, at, i)
  }

  ghost predicate EventIfSent(ds: seq<Decision>, at: seq<nat>, i: nat)
    requires i < |ds|
  {
    ds[i].r == Sent ==> i in at
  }

  /** What was lost since the last event is carried. */
  ghost predicate Carries(ds: seq<Decision>, at: seq<nat>, carried: nat) {
    From(at, |at|) <= |ds| && carried == Lost(ds[From(at, |at|)..])
  }

  /** What the client has been sent, event by event, and what is left over. */
  ghost predicate Reports(ds: seq<Decision>, at: seq<nat>, o: Out) {
    AllEvents(ds, at, o.sent) && NoneMissing(ds, at) && Carries(ds, at, o.carried) && Counts(ds, o)
  }

  // ---------- the system ----------

  /** `hand` is the delivery the filter loop has received and not yet judged.  History: `decided` is what it has judged,
      and `at` which of these became events. */
  datatype Tail = Tail(c: Chan, hand: seq<Item>, out: Out, decided: seq<Decision>, at: seq<nat>)

  datatype Action =
    | Append(span: StoredSpan) | Attempt | EvictStep | Retry | Cancel
    | Receive | Decide(outcome: Outcome)

  predicate Enabled(t: Tail, a: Action) {
    match a
    case Append(_) => t.c.pending.Ready? && !t.c.closed
    case Attempt => t.c.pending.First?
    case EvictStep => t.c.pending.Evict?
    case Retry => t.c.pending.Second?
    case Cancel => t.c.pending.Ready? && !t.c.closed
    case Receive => t.c.queue != [] && t.hand == []
    case Decide(_) => t.hand != []
  }

  function Next(t: Tail, a: Action): (t': Tail)
    requires Enabled(t, a)
  {
    match a
    case Append(span) => t.(c := Offer(t.c, span))
    case Attempt => t.(c := TryFirst(t.c))
    case EvictStep => t.(c := EvictOldest(t.c))
    case Retry => t.(c := TrySecond(t.c))
    case Cancel => t.(c := t.c.(closed := true))
    case Receive => t.(c := Take(t.c), hand := [t.c.queue[0]])
    case Decide(r) =>
      t.(hand := [], out := Judge(t.out, t.hand[0], r), decided := t.decided + [Decision(t.hand[0], r)],
         at := AtNext(t.at, |t.decided|, r))
  }

  /** `Subscribe` with a buffer of `buffer`. */
  function Subscribed(buffer: int): (t: Tail) {
    Tail(Chan(if buffer <= 0 then 1024 else buffer, false, [], 0, Ready, [], []), [], Out([], 0, 0, 0), [], [])
  }

  predicate IsRun(t: Tail, run: seq<Action>)
    decreases |run|
  {
    run == [] || (Enabled(t, run[0]) && IsRun(Next(t, run[0]), run[1..]))
  }

  function RunTo(t: Tail, run: seq<Action>): (t': Tail)
    requires IsRun(t, run)
    decreases |run|
  {
    if run == [] then t else RunTo(Next(t, run[0]), run[1..])
  }

  // ---------- what every step keeps ----------

  /** The spans that deliveries stand for: themselves and their gaps. */
  function Total(items: seq<Item>): (n: nat) {
    if items == [] then 0 else Total(items[..|items| - 1]) + 1 + items[|items| - 1].gap
  }

  function Gaps(events: seq<Event>): (n: nat) {
    if events == [] then 0 else Gaps(events[..|events| - 1]) + events[|events| - 1].gap
  }

  function InFlight(c: Chan): (items: seq<Item>) {
    if c.pending.Ready? then [] else [c.pending.item]
  }

  /** The queue and then the delivery under way: consecutive spans, up to the newest. */
  ghost predicate Contiguous(c: Chan) {
    && (forall i | 0 <= i < |c.queue| :: c.queue[i].index == |c.stream| - |InFlight(c)| - |c.queue| + i)
    && |c.queue| + |InFlight(c)| <= |c.stream|
    && (!c.pending.Ready? ==> c.pending.item.index == |c.stream| - 1)
  }

  ghost predicate Genuine(c: Chan, items: seq<Item>) {
    forall i | 0 <= i < |items| :: items[i].index < |c.stream| && items[i].span == c.stream[items[i].index]
  }

  /** Deliveries are received in stream order, before whatever is still queued. */
  ghost predicate InOrder(c: Chan) {
    && (forall i, j | 0 <= i < j < |c.taken| :: c.taken[i].index < c.taken[j].index)
    && (forall i | 0 <= i < |c.taken| :: c.taken[i].index < |c.stream| - |InFlight(c)| - |c.queue|)
  }

  /** The newest span is queued, unless it has been received already. */
  ghost predicate NewestDelivered(c: Chan) {
    c.pending.Ready? && c.stream != [] && c.queue == [] ==>
      c.taken != [] && c.taken[|c.taken| - 1].index == |c.stream| - 1
  }

  /** By each delivery the subscriber has been told of no more losses than there were. */
  ghost predicate NoneInvented(taken: seq<Item>) {
    forall k | 0 <= k < |taken| :: NotOvertold(taken, k)
  }

  ghost predicate NotOvertold(taken: seq<Item>, k: nat)
    requires k < |taken|
  {
    Total(taken[..k + 1]) <= taken[k].index + 1
  }

  ghost predicate ChanOk(c: Chan) {
    && 0 < c.cap && |c.queue| <= c.cap && c.gap == 0
    && (!c.pending.Ready? ==> !c.closed)
    && (c.pending.Second? ==> |c.queue| < c.cap)
    && Contiguous(c) && InOrder(c) && NewestDelivered(c) && NoneInvented(c.taken)
    && Genuine(c, c.queue) && Genuine(c, c.taken) && Genuine(c, InFlight(c))
    && Total(c.taken) + Total(c.queue) + Total(InFlight(c)) == |c.stream|
  }

  function ItemsOf(ds: seq<Decision>): (items: seq<Item>) {
    seq(|ds|, i requires 0 <= i < |ds| => ds[i].item)
  }

  ghost predicate OutOk(t: Tail) {
    |t.hand| <= 1 && t.c.taken == ItemsOf(t.decided) + t.hand && Reports(t.decided, t.at, t.out)
  }

  ghost predicate Inv(t: Tail) {
    ChanOk(t.c) && OutOk(t)
  }

  lemma TotalSnoc(items: seq<Item>, x: Item)
    ensures Total(items + [x]) == Total(items) + 1 + x.gap
  {
  }

  lemma {:induction false} TotalCons(items: seq<Item>)
    requires items != []
    ensures Total(items) == 1 + items[0].gap + Total(items[1..])
  {
    var n := |items| - 1;
    if n > 0 {
      TotalCons(items[..n]);
      assert items[..n][1..] == items[1..][..n - 1];
    }
  }

  lemma {:induction false} TotalAtLeast(items: seq<Item>)
    ensures |items| <= Total(items)
  {
    if items != [] {
      TotalAtLeast(items[..|items| - 1]);
    }
  }

  lemma NoneInventedSnoc(taken: seq<Item>, x: Item)
    requires NoneInvented(taken) && Total(taken) + 1 + x.gap <= x.index + 1
    ensures NoneInvented(taken + [x])
  {
    var taken' := taken + [x];
    TotalSnoc(taken, x);
    forall k | 0 <= k < |taken'|
      ensures NotOvertold(taken', k)
    {
      if k < |taken| {
        assert NotOvertold(taken, k);
        assert taken'[..k + 1] == taken[..k + 1];
      } else {
        assert taken'[..k + 1] == taken';
      }
    }
  }

  lemma TotalOne(x: Item)
    ensures Total([x]) == 1 + x.gap
  {
  }

  lemma OfferKeeps(c: Chan, span: StoredSpan)
    requires ChanOk(c) && c.pending.Ready? && !c.closed
    ensures ChanOk(Offer(c, span))
  {
    var c' := Offer(c, span);
    TotalOne(c'.pending.item);
    assert forall i | 0 <= i < |c.stream| :: c'.stream[i] == c.stream[i];
  }

  lemma TryFirstKeeps(c: Chan)
    requires ChanOk(c) && c.pending.First?
    ensures ChanOk(TryFirst(c))
  {
    TotalOne(c.pending.item);
    TotalSnoc(c.queue, c.pending.item);
  }

  lemma EvictKeeps(c: Chan)
    requires ChanOk(c) && c.pending.Evict?
    ensures ChanOk(EvictOldest(c))
  {
    TotalOne(c.pending.item);
    TotalOne(EvictOldest(c).pending.item);
    if c.queue != [] {
      TotalCons(c.queue);
    }
  }

  lemma TrySecondKeeps(c: Chan)
    requires ChanOk(c) && c.pending.Second?
    ensures ChanOk(TrySecond(c)) && TrySecond(c).queue == c.queue + [c.pending.item]
  {
    TotalOne(c.pending.item);
    TotalSnoc(c.queue, c.pending.item);
  }

  lemma TakeKeeps(c: Chan)
    requires ChanOk(c) && c.queue != []
    ensures ChanOk(Take(c)) && Total(Take(c).taken) == Total(c.taken) + Total([c.queue[0]])
  {
    TotalCons(c.queue);
    TotalOne(c.queue[0]);
    TotalSnoc(c.taken, c.queue[0]);
    TakeShape(c);
    TakeInventsNone(c);
  }

  lemma TakeShape(c: Chan)
    requires Contiguous(c) && InOrder(c) && Genuine(c, c.queue) && Genuine(c, c.taken) && c.queue != []
    ensures var c' := Take(c);
            && Contiguous(c') && InOrder(c') && NewestDelivered(c') && Genuine(c', c'.queue) && Genuine(c', c'.taken)
  {
  }

  lemma TakeInventsNone(c: Chan)
    requires ChanOk(c) && c.queue != []
    ensures NoneInvented(Take(c).taken)
  {
    TotalCons(c.queue);
    TotalAtLeast(c.queue[1..]);
    TotalAtLeast(InFlight(c));
    NoneInventedSnoc(c.taken, c.queue[0]);
  }

  lemma DecideKeeps(t: Tail, r: Outcome)
    requires OutOk(t) && t.hand != []
    ensures OutOk(Next(t, Decide(r)))
  {
    var d := Decision(t.hand[0], r);
    assert t.hand == [d.item];
    ReportsNext(t.decided, t.at, t.out, d);
    ItemsSnoc(t.decided, d);
  }

  lemma ItemsSnoc(ds: seq<Decision>, d: Decision)
    ensures ItemsOf(ds + [d]) + [] == ItemsOf(ds) + [d.item]
  {
  }

  lemma LostSnoc(ds: seq<Decision>, d: Decision, i: nat)
    requires i <= |ds|
    ensures Lost((ds + [d])[i..]) == Lost(ds[i..]) + d.item.gap + if d.r == MarshalError then 1 else 0
  {
    assert (ds + [d])[i..] == ds[i..] + [d];
  }

  lemma CountSnoc(ds: seq<Decision>, d: Decision, r: Outcome)
    ensures CountOf(ds + [d], r) == CountOf(ds, r) + if d.r == r then 1 else 0
  {
  }

  lemma EventsNext(ds: seq<Decision>, at: seq<nat>, sent: seq<Event>, d: Decision)
    requires AllEvents(ds, at, sent)
    ensures AllEvents(ds + [d], at, sent)
  {
    var ds' := ds + [d];
    forall k | 0 <= k < |at|
      ensures EventAt(ds', at, sent, k)
    {
      assert EventAt(ds, at, sent, k);
      assert ds'[From(at, k)..at[k]] == ds[From(at, k)..at[k]];
    }
  }

  lemma EventsSent(ds: seq<Decision>, at: seq<nat>, sent: seq<Event>, carried: nat, d: Decision)
    requires AllEvents(ds, at, sent) && Carries(ds, at, carried) && d.r == Sent
    ensures AllEvents(ds + [d], at + [|ds|], sent + [Event(d.item.span, d.item.gap + carried)])
  {
    var ds', at', sent' := ds + [d], at + [|ds|], sent + [Event(d.item.span, d.item.gap + carried)];
    forall k | 0 <= k < |at'|
      ensures EventAt(ds', at', sent', k)
    {
      if k < |at| {
        assert EventAt(ds, at, sent, k);
        assert at'[k] == at[k] && From(at', k) == From(at, k) && sent'[k] == sent[k];
        assert ds'[From(at', k)..at'[k]] == ds[From(at, k)..at[k]];
      } else {
        assert at'[k] == |ds| && From(at', k) == From(at, k) && ds'[|ds|] == d;
        assert ds'[From(at', k)..at'[k]] == ds[From(at, k)..];
      }
    }
  }

  /** The events come in the order of the deliveries. */
  lemma {:induction false} EventsInOrder(ds: seq<Decision>, at: seq<nat>, sent: seq<Event>, j: nat, k: nat)
    requires AllEvents(ds, at, sent) && j < k < |at|
    ensures at[j] < at[k] < |ds|
    decreases k
  {
    assert EventAt(ds, at, sent, k);
    if j < k - 1 {
      EventsInOrder(ds, at, sent, j, k - 1);
    }
  }

  lemma NoneMissingNext(ds: seq<Decision>, at: seq<nat>, sent: seq<Event>, d: Decision)
    requires AllEvents(ds, at, sent) && NoneMissing(ds, at)
    ensures NoneMissing(ds + [d], if d.r == Sent then at + [|ds|] else at)
  {
    var ds', at' := ds + [d], if d.r == Sent then at + [|ds|] else at;
    forall k | 0 <= k < |at|
      ensures at[k] < |ds|
    {
      assert EventAt(ds, at, sent, k);
    }
    forall i | 0 <= i < |ds'|
      ensures EventIfSent(ds', at', i)
    {
      if i < |ds| {
        assert EventIfSent(ds, at, i);
      }
      assert at' == at || at'[|at|] == |ds|;
    }
  }

  lemma CarriesNext(ds: seq<Decision>, at: seq<nat>, carried: nat, d: Decision)
    requires Carries(ds, at, carried)
    ensures Carries(ds + [d], at, carried + d.item.gap + if d.r == MarshalError then 1 else 0)
    ensures Carries(ds + [d], at + [|ds|], 0)
  {
    LostSnoc(ds, d, From(at, |at|));
    assert (ds + [d])[|ds| + 1..] == [];
  }

  lemma ReportsSent(ds: seq<Decision>, at: seq<nat>, o: Out, d: Decision)
    requires Reports(ds, at, o) && d.r == Sent
    ensures Reports(ds + [d], at + [|ds|], Judge(o, d.item, Sent))
  {
    CarriesNext(ds, at, o.carried, d);
    EventsSent(ds, at, o.sent, o.carried, d);
    NoneMissingNext(ds, at, o.sent, d);
    CountedNext(ds, o, d);
    SameSent(o, d);
    ReportsFrom(ds + [d], at + [|ds|], Judge(o, d.item, Sent), o.sent + [Event(d.item.span, d.item.gap + o.carried)]);
  }

  lemma SameSent(o: Out, d: Decision)
    ensures var o' := Judge(o, d.item, Sent);
            o'.sent == o.sent + [Event(d.item.span, d.item.gap + o.carried)] && o'.carried == 0
  {
  }

  ghost predicate Counts(ds: seq<Decision>, o: Out) {
    o.filtered == CountOf(ds, NoMatch) + CountOf(ds, CelError) && o.celErrs == CountOf(ds, CelError)
  }

  lemma CountedNext(ds: seq<Decision>, o: Out, d: Decision)
    requires Counts(ds, o)
    ensures Counts(ds + [d], Judge(o, d.item, d.r))
  {
    CountSnoc(ds, d, NoMatch);
    CountSnoc(ds, d, CelError);
  }

  lemma ReportsFrom(ds: seq<Decision>, at: seq<nat>, o: Out, sent: seq<Event>)
    requires AllEvents(ds, at, sent) && NoneMissing(ds, at) && Carries(ds, at, o.carried) && Counts(ds, o)
    requires o.sent == sent
    ensures Reports(ds, at, o)
  {
  }

  lemma ReportsOther(ds: seq<Decision>, at: seq<nat>, o: Out, d: Decision)
    requires Reports(ds, at, o) && d.r != Sent
    ensures Reports(ds + [d], at, Judge(o, d.item, d.r))
  {
    CarriesNext(ds, at, o.carried, d);
    EventsNext(ds, at, o.sent, d);
    NoneMissingNext(ds, at, o.sent, d);
    CountedNext(ds, o, d);
  }

  /** Where the events are after one more decision. */
  function AtNext(at: seq<nat>, n: nat, r: Outcome): (at': seq<nat>) {
    if r == Sent then at + [n] else at
  }

  /** The loop keeps to that. */
  lemma ReportsNext(ds: seq<Decision>, at: seq<nat>, o: Out, d: Decision)
    requires Reports(ds, at, o)
    ensures Reports(ds + [d], AtNext(at, |ds|, d.r), Judge(o, d.item, d.r))
  {
    if d.r == Sent {
      ReportsSent(ds, at, o, d);
    } else {
      ReportsOther(ds, at, o, d);
    }
  }

  lemma ReportsNone()
    ensures Reports([], [], Out([], 0, 0, 0))
  {
  }

  /** A step of the channel that takes nothing out of it leaves the filter loop's account as it was. */
  lemma ChannelStep(t: Tail, c: Chan)
    requires OutOk(t) && c.taken == t.c.taken
    ensures OutOk(t.(c := c))
  {
  }

  lemma ReceiveKeeps(t: Tail)
    requires Inv(t) && Enabled(t, Receive)
    ensures Inv(Next(t, Receive))
  {
    TakeKeeps(t.c);
  }

  lemma CancelKeeps(c: Chan)
    requires ChanOk(c) && c.pending.Ready?
    ensures ChanOk(c.(closed := true))
  {
    var c' := c.(closed := true);
    assert Contiguous(c') && InOrder(c') && NewestDelivered(c');
    assert Genuine(c', c'.queue) && Genuine(c', c'.taken) && Genuine(c', InFlight(c'));
  }

  lemma StepKeeps(t: Tail, a: Action)
    requires Inv(t) && Enabled(t, a)
    ensures Inv(Next(t, a))
  {
    match a
    case Append(span) =>
      OfferKeeps(t.c, span);
      ChannelStep(t, Offer(t.c, span));
    case Attempt =>
      TryFirstKeeps(t.c);
      ChannelStep(t, TryFirst(t.c));
    case EvictStep =>
      EvictKeeps(t.c);
      ChannelStep(t, EvictOldest(t.c));
    case Retry =>
      TrySecondKeeps(t.c);
      ChannelStep(t, TrySecond(t.c));
    case Cancel =>
      CancelKeeps(t.c);
      ChannelStep(t, t.c.(closed := true));
    case Receive => ReceiveKeeps(t);
    case Decide(r) => DecideKeeps(t, r);
  }

  lemma {:induction false} RunKeeps(t: Tail, run: seq<Action>)
    requires Inv(t) && IsRun(t, run)
    ensures Inv(RunTo(t, run))
    decreases |run|
  {
    if run != [] {
      StepKeeps(t, run[0]);
      RunKeeps(Next(t, run[0]), run[1..]);
    }
  }

  /** Every span appended since the subscription is accounted for, in every state of every interleaving. */
  lemma Conservation(buffer: int, run: seq<Action>)
    requires IsRun(Subscribed(buffer), run)
    ensures var t := RunTo(Subscribed(buffer), run);
            |t.c.stream| == |t.out.sent| + t.out.filtered + Gaps(t.out.sent) + t.out.carried
                            + Total(t.hand) + Total(t.c.queue) + Total(InFlight(t.c))
  {
    RunKeeps(Subscribed(buffer), run);
    var t := RunTo(Subscribed(buffer), run);
    ReportsConserve(t.decided, t.at, t.out);
    TotalHand(ItemsOf(t.decided), t.hand);
  }

  lemma TotalHand(items: seq<Item>, hand: seq<Item>)
    requires |hand| <= 1
    ensures Total(items + hand) == Total(items) + Total(hand)
  {
    if hand != [] {
      assert hand == [hand[0]];
      TotalOne(hand[0]);
      TotalSnoc(items, hand[0]);
    } else {
      assert items + hand == items;
    }
  }

  /** And told to the client where it belongs, in every state of every interleaving: each event carries what was lost
      since the event before it, and what was lost since the last one is carried. */
  lemma EventsReport(buffer: int, run: seq<Action>)
    requires IsRun(Subscribed(buffer), run)
    ensures var t := RunTo(Subscribed(buffer), run);
            t.c.taken == ItemsOf(t.decided) + t.hand && |t.hand| <= 1 && Reports(t.decided, t.at, t.out)
  {
    RunKeeps(Subscribed(buffer), run);
  }

  /** The events up to the `k`-th one report the decisions up to that. */
  lemma EventsPrefix(ds: seq<Decision>, at: seq<nat>, sent: seq<Event>, n: nat, k: nat)
    requires AllEvents(ds, at, sent) && k <= |at| && From(at, k) <= n <= |ds|
    requires forall j | 0 <= j < k :: at[j] < n
    ensures AllEvents(ds[..n], at[..k], sent[..k])
  {
    var ds', at', sent' := ds[..n], at[..k], sent[..k];
    forall j | 0 <= j < k
      ensures EventAt(ds', at', sent', j)
    {
      assert EventAt(ds, at, sent, j);
      assert ds'[From(at', j)..at'[j]] == ds[From(at, j)..at[j]];
    }
  }

  lemma NoneMissingPrefix(ds: seq<Decision>, at: seq<nat>, n: nat, k: nat)
    requires NoneMissing(ds, at) && n <= |ds| && k <= |at|
    requires forall j | k <= j < |at| :: n <= at[j]
    ensures NoneMissing(ds[..n], at[..k])
  {
    forall i | 0 <= i < n
      ensures EventIfSent(ds[..n], at[..k], i)
    {
      assert EventIfSent(ds, at, i);
      if ds[i].r == Sent {
        var j :| 0 <= j < |at| && at[j] == i;
        assert at[..k][j] == i;
      }
    }
  }

  lemma ReportsUpTo(ds: seq<Decision>, at: seq<nat>, o: Out, k: nat)
    requires Reports(ds, at, o) && k < |at|
    ensures at[k] < |ds|
    ensures var ds' := ds[..at[k] + 1];
            Reports(ds', at[..k + 1],
                    Out(o.sent[..k + 1], 0, CountOf(ds', CelError), CountOf(ds', NoMatch) + CountOf(ds', CelError)))
  {
    assert EventAt(ds, at, o.sent, k);
    var n := at[k] + 1;
    forall j | 0 <= j < |at| && j != k
      ensures if j < k then at[j] < n else n <= at[j]
    {
      EventsInOrder(ds, at, o.sent, if j < k then j else k, if j < k then k else j);
    }
    EventsPrefix(ds, at, o.sent, n, k + 1);
    NoneMissingPrefix(ds, at, n, k + 1);
    assert ds[..n][From(at[..k + 1], k + 1)..] == [];
  }

  /** Such an output accounts for every span the deliveries stand for. */
  lemma {:induction false} ReportsConserve(ds: seq<Decision>, at: seq<nat>, o: Out)
    requires Reports(ds, at, o)
    ensures Total(ItemsOf(ds)) == Accounted(o)
    ensures |o.sent| == CountOf(ds, Sent)
    decreases |ds|
  {
    var n := |ds| - 1;
    if n >= 0 {
      var at0, o0 := ReportsBack(ds, at, o);
      ReportsConserve(ds[..n], at0, o0);
      assert ItemsOf(ds)[..n] == ItemsOf(ds[..n]);
    }
  }

  function Accounted(o: Out): (n: nat) {
    |o.sent| + o.filtered + Gaps(o.sent) + o.carried
  }

  /** Undoing the last decision. */
  lemma ReportsBack(ds: seq<Decision>, at: seq<nat>, o: Out) returns (at0: seq<nat>, o0: Out)
    requires Reports(ds, at, o) && ds != []
    ensures var n := |ds| - 1;
            && Reports(ds[..n], at0, o0) && Accounted(o) == Accounted(o0) + 1 + ds[n].item.gap
            && |o.sent| == |o0.sent| + if ds[n].r == Sent then 1 else 0
  {
    var n := |ds| - 1;
    var ds0 := ds[..n];
    assert ds == ds0 + [ds[n]];
    CountSnoc(ds0, ds[n], NoMatch);
    CountSnoc(ds0, ds[n], CelError);
    if ds[n].r == Sent {
      at0, o0 := SentBack(ds, at, o);
    } else {
      at0 := at;
      o0 := OtherBack(ds, at, o);
    }
  }

  lemma SentBack(ds: seq<Decision>, at: seq<nat>, o: Out) returns (at0: seq<nat>, o0: Out)
    requires AllEvents(ds, at, o.sent) && NoneMissing(ds, at) && Carries(ds, at, o.carried)
    requires ds != [] && ds[|ds| - 1].r == Sent
    ensures var ds0 := ds[..|ds| - 1];
            AllEvents(ds0, at0, o0.sent) && NoneMissing(ds0, at0) && Carries(ds0, at0, o0.carried)
    ensures o0.celErrs == o.celErrs && o0.filtered == o.filtered
    ensures Accounted(o) == Accounted(o0) + 1 + ds[|ds| - 1].item.gap && |o.sent| == |o0.sent| + 1
  {
    var n, m := |ds| - 1, |at| - 1;
    LastIsLast(ds, at, o.sent);
    assert EventAt(ds, at, o.sent, m);
    at0, o0 := at[..m], Out(o.sent[..m], Lost(ds[From(at, m)..n]), o.celErrs, o.filtered);
    EventsPrefix(ds, at, o.sent, n, m);
    NoneMissingPrefix(ds, at, n, m);
    assert ds[..n][From(at0, m)..] == ds[From(at, m)..n] && ds[From(at, |at|)..] == [];
  }

  lemma OtherBack(ds: seq<Decision>, at: seq<nat>, o: Out) returns (o0: Out)
    requires Reports(ds, at, o) && ds != [] && ds[|ds| - 1].r != Sent
    ensures Reports(ds[..|ds| - 1], at, o0)
    ensures Accounted(o) == Accounted(o0) + 1 + ds[|ds| - 1].item.gap && |o.sent| == |o0.sent|
  {
    var n := |ds| - 1;
    var ds0 := ds[..n];
    NoneIsLast(ds, at, o.sent);
    assert ds == ds0 + [ds[n]] && at[..|at|] == at && o.sent[..|at|] == o.sent;
    LostSnoc(ds0, ds[n], From(at, |at|));
    CountSnoc(ds0, ds[n], NoMatch);
    CountSnoc(ds0, ds[n], CelError);
    o0 := Out(o.sent, Lost(ds0[From(at, |at|)..]), CountOf(ds0, CelError),
              CountOf(ds0, NoMatch) + CountOf(ds0, CelError));
    EventsPrefix(ds, at, o.sent, n, |at|);
    NoneMissingPrefix(ds, at, n, |at|);
  }

  lemma LastIsLast(ds: seq<Decision>, at: seq<nat>, sent: seq<Event>)
    requires AllEvents(ds, at, sent) && NoneMissing(ds, at) && ds != [] && ds[|ds| - 1].r == Sent
    ensures |at| > 0 && at[|at| - 1] == |ds| - 1 && forall k | 0 <= k < |at| - 1 :: at[k] < |ds| - 1
  {
    assert EventIfSent(ds, at, |ds| - 1);
    var k :| 0 <= k < |at| && at[k] == |ds| - 1;
    assert EventAt(ds, at, sent, |at| - 1);
    forall j | 0 <= j < |at| - 1
      ensures at[j] < at[|at| - 1]
    {
      EventsInOrder(ds, at, sent, j, |at| - 1);
    }
  }

  lemma NoneIsLast(ds: seq<Decision>, at: seq<nat>, sent: seq<Event>)
    requires AllEvents(ds, at, sent) && ds != [] && ds[|ds| - 1].r != Sent
    ensures From(at, |at|) < |ds| && forall k | 0 <= k < |at| :: at[k] < |ds| - 1
  {
    forall k | 0 <= k < |at|
      ensures at[k] < |ds| - 1
    {
      assert EventAt(ds, at, sent, k);
    }
  }

  /** So with each event the client knows of every span up to it: it was sent, filtered out, or is in a gap. */
  lemma ToldByEvent(ds: seq<Decision>, at: seq<nat>, o: Out, k: nat)
    requires Reports(ds, at, o) && k < |at|
    ensures at[k] < |ds|
    ensures var ds' := ds[..at[k] + 1];
            Total(ItemsOf(ds')) == k + 1 + CountOf(ds', NoMatch) + CountOf(ds', CelError) + Gaps(o.sent[..k + 1])
  {
    ReportsUpTo(ds, at, o, k);
    var ds' := ds[..at[k] + 1];
    ReportsConserve(ds', at[..k + 1], Out(o.sent[..k + 1], 0, CountOf(ds', CelError),
                                          CountOf(ds', NoMatch) + CountOf(ds', CelError)));
  }

  /** Drop-oldest: what is queued is an unbroken stretch of the stream up to the newest span, and once a delivery is
      done the newest span is at the end of the queue or received; and no channel is sent on after it is closed. */
  lemma FreshestKept(buffer: int, run: seq<Action>)
    requires IsRun(Subscribed(buffer), run)
    ensures var c := RunTo(Subscribed(buffer), run).c;
            && Contiguous(c) && Genuine(c, c.queue) && Genuine(c, c.taken) && InOrder(c)
            && (c.pending.Ready? && c.stream != [] ==>
                  (c.taken + c.queue) != [] && (c.taken + c.queue)[|c.taken + c.queue| - 1].index == |c.stream| - 1)
            && (!c.pending.Ready? ==> !c.closed)
            && (c.pending.Second? ==> |c.queue| < c.cap)
  {
    RunKeeps(Subscribed(buffer), run);
  }

  // ---------- what a gap says ----------

  /** Each gap counts the spans lost since the delivery before it. */
  ghost predicate Positional(items: seq<Item>) {
    forall k | 0 <= k < |items| :: PositionalAt(items, k)
  }

  predicate PositionalAt(items: seq<Item>, k: nat)
    requires k < |items|
  {
    items[k].index == items[k].gap + if k == 0 then 0 else items[k - 1].index + 1
  }

  ghost predicate AllPositional(c: Chan) {
    Positional(c.taken + c.queue + InFlight(c))
  }

  /** Evicting keeps gaps where they belong if nothing else is queued. */
  lemma EvictPositional(c: Chan)
    requires c.pending.Evict? && |c.queue| <= 1 && AllPositional(c)
    ensures AllPositional(EvictOldest(c))
  {
    if c.queue != [] {
      var c' := EvictOldest(c);
      assert c.taken + c.queue + InFlight(c) == c.taken + [c.queue[0], c.pending.item];
      assert c'.taken + c'.queue + InFlight(c') == c.taken + [c'.pending.item];
      FoldInto(c.taken, c.queue[0], c.pending.item);
    }
  }

  /** A delivery folded into the one right after it. */
  lemma FoldInto(items: seq<Item>, x: Item, y: Item)
    requires Positional(items + [x, y])
    ensures Positional(items + [y.(gap := y.gap + x.gap + 1)])
  {
    var n, all, all' := |items|, items + [x, y], items + [y.(gap := y.gap + x.gap + 1)];
    assert PositionalAt(all, n) && PositionalAt(all, n + 1);
    forall k | 0 <= k < n
      ensures PositionalAt(all', k)
    {
      assert PositionalAt(all, k);
    }
    assert n > 0 ==> all[n - 1] == all'[n - 1];
    assert PositionalAt(all', n);
  }

  lemma OfferPositional(c: Chan, span: StoredSpan)
    requires ChanOk(c) && c.pending.Ready? && AllPositional(c)
    ensures AllPositional(Offer(c, span))
  {
    var c' := Offer(c, span);
    var all := c.taken + c.queue + InFlight(c);
    var all' := all + [c'.pending.item];
    assert c'.taken + c'.queue + InFlight(c') == all';
    forall k | 0 <= k < |all|
      ensures PositionalAt(all', k)
    {
      assert PositionalAt(all, k);
    }
    if c.queue != [] {
      assert all[|all| - 1] == c.queue[|c.queue| - 1];
    } else if c.taken != [] {
      assert all[|all| - 1] == c.taken[|c.taken| - 1];
    }
    assert PositionalAt(all', |all|);
  }

  lemma SlotStepPositional(t: Tail, a: Action)
    requires Inv(t) && Enabled(t, a) && t.c.cap == 1 && AllPositional(t.c)
    ensures AllPositional(Next(t, a).c)
  {
    var c, c' := t.c, Next(t, a).c;
    match a
    case Append(span) => OfferPositional(c, span);
    case EvictStep => EvictPositional(c);
    case Attempt => assert c'.taken + c'.queue + InFlight(c') == c.taken + c.queue + InFlight(c);
    case Retry => assert c'.taken + c'.queue + InFlight(c') == c.taken + c.queue + InFlight(c);
    case Receive => assert c'.taken + c'.queue + InFlight(c') == c.taken + c.queue + InFlight(c);
    case Cancel =>
    case Decide(_) =>
  }

  lemma {:induction false} SlotRunPositional(t: Tail, run: seq<Action>)
    requires Inv(t) && IsRun(t, run) && t.c.cap == 1 && AllPositional(t.c)
    ensures AllPositional(RunTo(t, run).c)
    decreases |run|
  {
    if run != [] {
      StepKeeps(t, run[0]);
      SlotStepPositional(t, run[0]);
      SlotRunPositional(Next(t, run[0]), run[1..]);
    }
  }

  /** `k` copies of `span` appended, and nothing received. */
  function FillRun(k: nat, span: StoredSpan): (run: seq<Action>) {
    if k == 0 then [] else FillRun(k - 1, span) + [Append(span), Attempt]
  }

  predicate Filled(t: Tail, k: nat, span: StoredSpan) {
    && t.c.pending.Ready? && t.c.gap == 0 && !t.c.closed && t.c.taken == [] && t.hand == []
    && |t.c.stream| == k && t.c.queue == seq(k, i requires 0 <= i => Item(i, span, 0))
  }

  lemma {:induction false} RunJoins(t: Tail, a: seq<Action>, b: seq<Action>)
    requires IsRun(t, a)
    ensures IsRun(t, a + b) <==> IsRun(RunTo(t, a), b)
    ensures IsRun(t, a + b) ==> RunTo(t, a + b) == RunTo(RunTo(t, a), b)
    decreases |a|
  {
    if a == [] {
      assert a + b == b;
    } else {
      assert (a + b)[1..] == a[1..] + b;
      RunJoins(Next(t, a[0]), a[1..], b);
    }
  }

  lemma {:induction false} FillRunFills(cap: nat, k: nat, span: StoredSpan)
    requires k <= cap && 0 < cap
    ensures IsRun(Subscribed(cap), FillRun(k, span))
    ensures Filled(RunTo(Subscribed(cap), FillRun(k, span)), k, span)
    ensures RunTo(Subscribed(cap), FillRun(k, span)).c.cap == cap
  {
    if k > 0 {
      FillRunFills(cap, k - 1, span);
      var t := RunTo(Subscribed(cap), FillRun(k - 1, span));
      var two := [Append(span), Attempt];
      TwoSteps(t, Append(span), Attempt);
      RunJoins(Subscribed(cap), FillRun(k - 1, span), two);
    }
  }

  lemma OneStep(t: Tail, a: Action)
    requires Enabled(t, a)
    ensures IsRun(t, [a]) && RunTo(t, [a]) == Next(t, a)
  {
  }

  lemma TwoSteps(t: Tail, a: Action, b: Action)
    requires Enabled(t, a) && Enabled(Next(t, a), b)
    ensures IsRun(t, [a, b]) && RunTo(t, [a, b]) == Next(Next(t, a), b)
  {
    assert [a, b][1..] == [b];
    OneStep(Next(t, a), b);
  }

  /** One span more than fits, and one receive. */
  function OverflowRun(cap: nat, span: StoredSpan): (run: seq<Action>) {
    FillRun(cap, span) + ([Append(span), Attempt] + ([EvictStep, Retry] + [Receive]))
  }

  /** With room for two or more, the span behind the lost one is delivered without a gap. */
  lemma GapComesLate(cap: nat, span: StoredSpan)
    requires 2 <= cap
    ensures IsRun(Subscribed(cap), OverflowRun(cap, span))
    ensures RunTo(Subscribed(cap), OverflowRun(cap, span)).c.taken == [Item(1, span, 0)]
  {
    FillRunFills(cap, cap, span);
    var t := RunTo(Subscribed(cap), FillRun(cap, span));
    TwoSteps(t, Append(span), Attempt);
    var t2 := RunTo(t, [Append(span), Attempt]);
    TwoSteps(t2, EvictStep, Retry);
    var t4 := RunTo(t2, [EvictStep, Retry]);
    assert t4.c.queue[0] == Item(1, span, 0);
    OneStep(t4, Receive);
    RunJoins(t2, [EvictStep, Retry], [Receive]);
    RunJoins(t, [Append(span), Attempt], [EvictStep, Retry] + [Receive]);
    RunJoins(Subscribed(cap), FillRun(cap, span), [Append(span), Attempt] + ([EvictStep, Retry] + [Receive]));
  }

  lemma SlotPositional(t: Tail, run: seq<Action>)
    requires Inv(t) && IsRun(t, run) && t.c.cap == 1 && AllPositional(t.c)
    ensures Positional(RunTo(t, run).c.taken)
  {
    SlotRunPositional(t, run);
    var c := RunTo(t, run).c;
    assert c.taken + (c.queue + InFlight(c)) == c.taken + c.queue + InFlight(c);
    PositionalPrefix(c.taken, c.queue + InFlight(c));
  }

  lemma AllSlotRuns(t: Tail)
    requires Inv(t) && t.c.cap == 1 && AllPositional(t.c)
    ensures GapsSinceLast(t)
  {
    forall run | IsRun(t, run)
      ensures Positional(RunTo(t, run).c.taken)
    {
      SlotPositional(t, run);
    }
  }

  ghost predicate GapsSinceLast(t: Tail) {
    forall run | IsRun(t, run) :: Positional(RunTo(t, run).c.taken)
  }

  lemma SubscribedOk(buffer: int)
    ensures Inv(Subscribed(buffer)) && AllPositional(Subscribed(buffer).c)
  {
    EmptyOk(if buffer <= 0 then 1024 else buffer);
    ReportsNone();
    assert ItemsOf([]) + [] == [];
  }

  lemma EmptyOk(cap: nat)
    requires cap > 0
    ensures var c := Chan(cap, false, [], 0, Ready, [], []); ChanOk(c) && AllPositional(c)
  {
    var c := Chan(cap, false, [], 0, Ready, [], []);
    assert Contiguous(c) && InOrder(c) && NewestDelivered(c) && NoneInvented(c.taken) && Genuine(c, []);
  }

  /** A gap tells how many spans were lost since the delivery before it, in every run, if and only if the channel
      holds a single delivery. */
  lemma GapSinceLastIff(buffer: int)
    ensures GapsSinceLast(Subscribed(buffer)) <==> buffer == 1
  {
    if buffer == 1 {
      SubscribedOk(buffer);
      AllSlotRuns(Subscribed(buffer));
    } else {
      NotSinceLast(buffer, StoredSpan(map[], 0, ""));
    }
  }

  lemma NotSinceLast(buffer: int, span: StoredSpan)
    requires buffer != 1
    ensures !GapsSinceLast(Subscribed(buffer))
  {
    var cap := Subscribed(buffer).c.cap;
    assert Subscribed(cap) == Subscribed(buffer);
    GapComesLate(cap, span);
    assert !PositionalAt([Item(1, span, 0)], 0);
    assert !Positional(RunTo(Subscribed(buffer), OverflowRun(cap, span)).c.taken);
  }

  lemma PositionalPrefix(a: seq<Item>, b: seq<Item>)
    requires Positional(a + b)
    ensures Positional(a)
  {
    forall k | 0 <= k < |a|
      ensures PositionalAt(a, k)
    {
      assert PositionalAt(a + b, k);
    }
  }

  // ---------- the loop and the channel as programs ----------

  function Decisions(items: seq<Item>, judge: StoredSpan -> Outcome): (ds: seq<Decision>)
    ensures |ds| == |items| && forall i | 0 <= i < |items| :: ds[i] == Decision(items[i], judge(items[i].span))
  {
    seq(|items|, i requires 0 <= i < |items| => Decision(items[i], judge(items[i].span)))
  }

  lemma DecisionsNext(items: seq<Item>, judge: StoredSpan -> Outcome, at: seq<nat>, o: Out, i: nat)
    requires i < |items| && Reports(Decisions(items[..i], judge), at, o)
    ensures var r := judge(items[i].span);
            Reports(Decisions(items[..i + 1], judge), AtNext(at, i, r), Judge(o, items[i], r))
  {
    var d := Decision(items[i], judge(items[i].span));
    assert Decisions(items[..i + 1], judge) == Decisions(items[..i], judge) + [d];
    ReportsNext(Decisions(items[..i], judge), at, o, d);
  }

  lemma DecisionsConserve(items: seq<Item>, judge: StoredSpan -> Outcome, at: seq<nat>, o: Out)
    requires Reports(Decisions(items, judge), at, o)
    ensures Total(items) == Accounted(o) && |o.sent| == CountOf(Decisions(items, judge), Sent)
  {
    ReportsConserve(Decisions(items, judge), at, o);
    assert ItemsOf(Decisions(items, judge)) == items;
  }

  lemma {:induction false} CountPrefix(ds: seq<Decision>, k: nat, r: Outcome)
    requires k <= |ds|
    ensures CountOf(ds[..k], r) <= CountOf(ds, r)
    decreases |ds| - k
  {
    if k < |ds| {
      CountPrefix(ds, k + 1, r);
      assert ds[..k + 1][..k] == ds[..k];
    } else {
      assert ds[..k] == ds;
    }
  }

  lemma OneTooMany(items: seq<Item>, judge: StoredSpan -> Outcome, at: seq<nat>, o: Out, i: nat)
    requires i < |items| && Reports(Decisions(items[..i], judge), at, o) && judge(items[i].span) == Sent
    ensures CountOf(Decisions(items, judge), Sent) > |o.sent|
  {
    var ds := Decisions(items, judge);
    DecisionsConserve(items[..i], judge, at, o);
    assert ds[..i] == Decisions(items[..i], judge) && ds[..i + 1] == ds[..i] + [ds[i]];
    CountSnoc(ds[..i], ds[i], Sent);
    CountPrefix(ds, i + 1, Sent);
  }

  /** The loop's body for one delivery, up to the send. */
  method Handle(item: Item, r: Outcome, sent: seq<Event>, carried: nat, celErrs: nat, ghost o: Out)
    returns (sent': seq<Event>, carried': nat, celErrs': nat)
    requires o == Out(sent, carried, celErrs, o.filtered)
    ensures var o' := Judge(o, item, r); o' == Out(sent', carried', celErrs', o'.filtered)
    ensures |sent'| == |sent| + if r == Sent then 1 else 0
  {
    sent', carried', celErrs' := sent, carried, celErrs;
    match r
    case CelError =>
      celErrs' := celErrs + 1;
      carried' := carried + item.gap;
    case NoMatch =>
      carried' := carried + item.gap;
    case MarshalError =>
      carried' := carried + item.gap + 1;
    case Sent =>
      var ev := Event(item.span, item.gap + carried);
      carried' := 0;
      sent' := sent + [ev];
  }

  /** `SubscribeSpans` over the deliveries it receives, for a client that takes `sends` events and then fails.  The
      events are the matching spans in order, each with the gap that `Reports` says; and it handles all deliveries
      unless one more span matches than the client takes. */
  method SubscribeSpans(items: seq<Item>, judge: StoredSpan -> Outcome, sends: nat)
    returns (sent: seq<Event>, carried: nat, celErrs: nat, handled: nat, ghost at: seq<nat>)
    ensures handled <= |items|
    ensures var ds := Decisions(items[..handled], judge);
            && Reports(ds, at, Out(sent, carried, celErrs, CountOf(ds, NoMatch) + CountOf(ds, CelError)))
            && Total(items[..handled]) ==
               |sent| + CountOf(ds, NoMatch) + CountOf(ds, CelError) + Gaps(sent) + carried
    ensures handled == |items| <==> CountOf(Decisions(items, judge), Sent) <= sends
    ensures handled < |items| ==> judge(items[handled].span) == Sent && |sent| == sends
  {
    sent, carried, celErrs, at := [], 0, 0, [];
    ghost var o := Out([], 0, 0, 0);
    ReportsNone();
    assert Decisions(items[..0], judge) == [];
    for i := 0 to |items|
      invariant |sent| <= sends && o == Out(sent, carried, celErrs, o.filtered)
      invariant Reports(Decisions(items[..i], judge), at, o)
    {
      var item := items[i];
      DecisionsNext(items, judge, at, o, i);
      if judge(item.span) == Sent && |sent| == sends {
        OneTooMany(items, judge, at, o, i);
        DecisionsConserve(items[..i], judge, at, o);
        return sent, carried, celErrs, i, at;
      }
      sent, carried, celErrs := Handle(item, judge(item.span), sent, carried, celErrs, o);
      o, at := Judge(o, item, judge(item.span)), AtNext(at, i, judge(item.span));
    }
    assert items[..|items|] == items;
    DecisionsConserve(items, judge, at, o);
    handled := |items|;
  }

  lemma PrefixTrans<T>(a: seq<T>, b: seq<T>, c: seq<T>)
    requires a <= b <= c
    ensures a <= c
  {
  }

  class Subscriber {
    const cap: nat
    var ch: seq<Item>
    var gap: nat
    var closed: bool
    /** How many spans were offered; only the proof needs it. */
    var offered: nat
    ghost var stream: seq<StoredSpan>
    ghost var taken: seq<Item>

    ghost function State(pending: Pending): (c: Chan)
      reads this
    {
      Chan(cap, closed, ch, gap, pending, stream, taken)
    }

    ghost predicate Valid()
      reads this
    {
      ChanOk(State(Ready)) && offered == |stream|
    }

    ghost predicate Open()
      reads this
    {
      Valid() && !closed
    }

    /** The span `s` has come through since the stream was `stream0`. */
    ghost predicate Delivered(stream0: seq<StoredSpan>, taken0: seq<Item>, s: StoredSpan)
      reads this
    {
      stream == stream0 + [s] && taken0 <= taken && ch != [] && ch[|ch| - 1].span == s
    }

    /** With `s`, its stream will be `next`. */
    ghost predicate Awaits(s: StoredSpan, next: seq<StoredSpan>)
      reads this
    {
      Open() && stream + [s] == next
    }

    ghost predicate Caught(next: seq<StoredSpan>)
      reads this
    {
      Open() && stream == next
    }

    constructor (buffer: int)
      ensures Valid() && State(Ready) == Subscribed(buffer).c
    {
      cap := if buffer <= 0 then 1024 else buffer;
      ch, gap, closed, offered, stream, taken := [], 0, false, 0, [], [];
    }

    method Recv(ghost pending: Pending) returns (item: Item)
      requires ch != [] && ChanOk(State(pending))
      modifies this`ch, this`taken
      ensures item == old(ch[0]) && State(pending) == Take(old(State(pending))) && ChanOk(State(pending))
    {
      TakeKeeps(State(pending));
      item := ch[0];
      ch := ch[1..];
      taken := taken + [item];
    }

    /** What the receiving goroutine may do between two channel operations: take any number of deliveries. */
    method Interlude(ghost pending: Pending)
      requires ChanOk(State(pending))
      modifies this`ch, this`taken
      ensures ChanOk(State(pending)) && old(taken) <= taken
    {
      var n: nat :| n <= |ch|;
      while n > 0
        invariant n <= |ch| && ChanOk(State(pending)) && old(taken) <= taken
      {
        var item := Recv(pending);
        n := n - 1;
      }
    }

    /** The channel was full: take the oldest delivery out of it, if the receiver has not. */
    method EvictInto(item: Item) returns (item': Item)
      requires ChanOk(State(Evict(item)))
      modifies this`ch
      ensures ChanOk(State(Second(item'))) && item'.span == item.span
    {
      ghost var c := EvictOldest(State(Evict(item)));
      EvictKeeps(State(Evict(item)));
      if ch != [] {
        item' := item.(gap := item.gap + ch[0].gap + 1);
        ch := ch[1..];
      } else {
        item' := item;
      }
      assert State(Second(item')) == c;
    }

    /** The first and the last send of a delivery; the last one always finds room. */
    method Put(item: Item, ghost pending: Pending)
      requires ChanOk(State(pending)) && |ch| < cap && (pending == First(item) || pending == Second(item))
      modifies this`ch
      ensures ChanOk(State(Ready)) && ch == old(ch) + [item]
    {
      if pending.First? {
        TryFirstKeeps(State(pending));
      } else {
        TrySecondKeeps(State(pending));
      }
      ch := ch + [item];
    }

    method Attempted(item: Item) returns (done: bool)
      requires ChanOk(State(First(item)))
      modifies this`ch
      ensures done ==> ChanOk(State(Ready)) && ch != [] && ch[|ch| - 1].span == item.span
      ensures !done ==> ChanOk(State(Evict(item)))
    {
      done := |ch| < cap;
      if done {
        Put(item, First(item));
      } else {
        TryFirstKeeps(State(First(item)));
      }
    }

    method MakeRoom(item: Item) returns (item': Item)
      requires ChanOk(State(Evict(item)))
      modifies this`ch, this`taken
      ensures ChanOk(State(Second(item'))) && item'.span == item.span && old(taken) <= taken
    {
      Interlude(Evict(item));
      item' := EvictInto(item);
    }

    /** The rest of a delivery that found the channel full. */
    method DropOldest(item: Item)
      requires ChanOk(State(Evict(item)))
      modifies this`ch, this`taken
      ensures ChanOk(State(Ready)) && old(taken) <= taken && ch != [] && ch[|ch| - 1].span == item.span
    {
      var item' := MakeRoom(item);
      ghost var taken1 := taken;
      Interlude(Second(item'));
      PrefixTrans(old(taken), taken1, taken);
      Put(item', Second(item'));
    }

    method Finish(item: Item)
      requires ChanOk(State(First(item)))
      modifies this`ch, this`taken
      ensures ChanOk(State(Ready)) && old(taken) <= taken && ch != [] && ch[|ch| - 1].span == item.span
    {
      Interlude(First(item));
      ghost var taken1 := taken;
      var done := Attempted(item);
      if !done {
        DropOldest(item);
      }
      PrefixTrans(old(taken), taken1, taken);
    }

    method Begin(s: StoredSpan) returns (item: Item)
      requires Valid() && !closed
      modifies this`gap, this`stream, this`offered
      ensures ChanOk(State(First(item))) && stream == old(stream) + [s] && item.span == s && offered == |stream|
    {
      OfferKeeps(State(Ready), s);
      item := Item(offered, s, gap);
      gap := 0;
      stream, offered := stream + [s], offered + 1;
    }

    /** `append`'s part for one subscriber, with receives at any moment. */
    method Deliver(s: StoredSpan)
      requires Open()
      modifies this`ch, this`taken, this`gap, this`stream, this`offered
      ensures Open() && Delivered(old(stream), old(taken), s)
    {
      var item := Begin(s);
      Finish(item);
    }
  }
}
