/** The agent's metric collector (`obiCollector` in `forward.go`).

    Series live in one map under a text key, the metric name and the label values joined by NUL.  The label
    schema of a name widens at run time, and every live series of that name then moves to a new key.  The
    reference is a plain map from (name, labels with non-empty values) to series state; the class proves
    that it always stands for exactly that map. */
module Collector {
  import opened Prelude
  import opened Text
  import opened Labels
  import opened MapRange

  datatype MetricType = Unspecified | Sum | Gauge | Histogram
  datatype Temporality = Unstated | Delta | Cumulative

  datatype Event = Event(
    name: string, attrs: map<string, string>, typ: MetricType, temporality: Temporality, monotonic: bool,
    value: real, count: UInt64, bounds: seq<real>, buckets: seq<UInt64>)

  datatype Kind = CounterKind | GaugeKind | HistogramKind

  /** The part of a series that events change. */
  datatype Data = Data(
    kind: Kind, lastSeen: int, value: real, count: UInt64, sum: real, bounds: seq<real>, buckets: seq<UInt64>)

  const FRESH: Data := Data(CounterKind, 0, 0.0, 0, 0.0, [], [])

  /** A stored series: its descriptor (name and label keys), its label values, and its data. */
  datatype Series = Series(name: string, keys: seq<string>, vals: seq<string>, data: Data)

  function AddU64(a: UInt64, b: UInt64): (r: UInt64) {
    (a as int + b as int) % U64
  }

  /** Add the event's bucket counts; buckets the series does not have are ignored. */
  function AddBuckets(have: seq<UInt64>, add: seq<UInt64>): (r: seq<UInt64>)
    ensures |r| == |have|
  {
    seq(|have|, i requires 0 <= i < |have| => if i < |add| then AddU64(have[i], add[i]) else have[i])
  }

  /** How one event changes its series. */
  function Absorb(d: Data, ev: Event, now: int): (r: Data) {
    var cumulative := ev.temporality != Delta;
    var d := d.(lastSeen := now);
    if ev.typ.Histogram? then
      if cumulative || d.bounds != ev.bounds then
        d.(kind := HistogramKind, count := ev.count, sum := ev.value, bounds := ev.bounds, buckets := ev.buckets)
      else
        d.(kind := HistogramKind, count := AddU64(d.count, ev.count), sum := d.sum + ev.value,
           buckets := AddBuckets(d.buckets, ev.buckets))
    else if ev.typ.Sum? && ev.monotonic then
      d.(kind := CounterKind, value := if cumulative then ev.value else d.value + ev.value)
    else
      d.(kind := GaugeKind, value := ev.value)
  }

  // ---------- the reference ----------

  /** A series is identified by its metric name and its labels; an empty value counts as no label. */
  datatype Ident = Ident(name: string, labels: map<string, string>)

  type Model = map<Ident, Data>

  predicate IsMeta(name: string) {
    name == "target_info" || name == "otel_scope_info"
  }

  ghost function IdentOf(ev: Event): (id: Ident) {
    var kept := Kept(ev.attrs);
    Ident(PromName(ev.name), LabelsOf(Renamed(kept), ValuesOf(ev.attrs, kept)))
  }

  ghost function ModelRecord(m: Model, ev: Event, now: int): (m': Model) {
    if IsMeta(ev.name) then m else
    var id := IdentOf(ev);
    m[id := Absorb(if id in m then m[id] else FRESH, ev, now)]
  }

  /** Ten minutes, in nanoseconds. */
  const STALE_AFTER: int := 600_000_000_000

  ghost function ModelCollect(m: Model, now: int): (m': Model) {
    map id | id in m && m[id].lastSeen >= now - STALE_AFTER :: m[id]
  }

  // ---------- how the concrete state stands for the model ----------

  function Key(name: string, vals: seq<string>): (k: string) {
    name + [NUL] + Join(vals)
  }

  ghost predicate SchemaOk(schema: map<string, seq<string>>) {
    forall n | n in schema :: NoNul(n) && StrictlySorted(schema[n])
  }

  ghost predicate IdentOk(schema: map<string, seq<string>>, id: Ident) {
    && id.name in schema
    && forall k | k in id.labels :: k in schema[id.name] && id.labels[k] != "" && NoNul(id.labels[k])
  }

  /** Where a series is kept under a schema, and what is kept there. */
  ghost function Place(keys: seq<string>, id: Ident): (k: string) {
    Key(id.name, Align(keys, id.labels))
  }

  ghost function Stored(keys: seq<string>, id: Ident, d: Data): (s: Series) {
    Series(id.name, keys, Align(keys, id.labels), d)
  }

  /** Every series of the model is stored at its place, on its name's one schema ... */
  ghost predicate AllStored(series: map<string, Series>, schema: map<string, seq<string>>, m: Model) {
    forall id | id in m :: StoredAt(series, schema, id, m[id])
  }

  ghost predicate StoredAt(series: map<string, Series>, schema: map<string, seq<string>>, id: Ident, d: Data) {
    && IdentOk(schema, id)
    && Place(schema[id.name], id) in series
    && series[Place(schema[id.name], id)] == Stored(schema[id.name], id, d)
  }

  /** ... and nothing else is. */
  ghost predicate AllOwned(series: map<string, Series>, schema: map<string, seq<string>>, m: Model) {
    forall k | k in series :: exists id :: IsAt(schema, m, id, k)
  }

  ghost predicate Represents(series: map<string, Series>, schema: map<string, seq<string>>, m: Model) {
    SchemaOk(schema) && AllStored(series, schema, m) && AllOwned(series, schema, m)
  }

  ghost predicate IsAt(schema: map<string, seq<string>>, m: Model, id: Ident, k: string) {
    id in m && id.name in schema && k == Place(schema[id.name], id)
  }

  /** A series that could be kept under `keys`. */
  ghost predicate Over(keys: seq<string>, id: Ident) {
    NoNul(id.name) && forall k | k in id.labels :: k in keys && id.labels[k] != ""
  }

  ghost predicate NulFree(id: Ident) {
    forall k | k in id.labels :: NoNul(id.labels[k])
  }

  /** No other series has the same place. */
  ghost predicate Alone(keys: seq<string>, id: Ident) {
    forall other | Over(keys, other) && Place(keys, other) == Place(keys, id) :: other == id
  }

  lemma SamePlace(keys: seq<string>, a: Ident, b: Ident)
    requires StrictlySorted(keys) && Over(keys, a) && Over(keys, b) && Place(keys, a) == Place(keys, b)
    ensures a.name == b.name && Join(Align(keys, a.labels)) == Join(Align(keys, b.labels))
    ensures Align(keys, a.labels) == Align(keys, b.labels) ==> a == b
  {
    CutAtNul(a.name, b.name, Join(Align(keys, a.labels)), Join(Align(keys, b.labels)));
    LabelsOfAlign(keys, a.labels);
    LabelsOfAlign(keys, b.labels);
  }

  lemma NulFreeAlone(keys: seq<string>, id: Ident)
    requires StrictlySorted(keys) && Over(keys, id) && (|keys| <= 1 || NulFree(id))
    ensures Alone(keys, id)
  {
    forall other | Over(keys, other) && Place(keys, other) == Place(keys, id)
      ensures other == id
    {
      SamePlace(keys, id, other);
      if |keys| > 1 {
        JoinUnique(Align(keys, id.labels), Align(keys, other.labels));
      }
    }
  }

  /** Values that join to the same text make another series at the same place. */
  lemma NotAlone(keys: seq<string>, id: Ident, vals: seq<string>)
    requires StrictlySorted(keys) && Over(keys, id) && |vals| == |keys| && vals != Align(keys, id.labels)
    requires Join(vals) == Join(Align(keys, id.labels))
    ensures !Alone(keys, id)
  {
    var other := Ident(id.name, LabelsOf(keys, vals));
    AlignOfLabels(keys, vals);
    assert Over(keys, other) && Place(keys, other) == Place(keys, id);
  }

  /** A value with a NUL in it, of a series with more than one key. */
  lemma NulShares(keys: seq<string>, id: Ident, i: nat, p: string, q: string)
    requires StrictlySorted(keys) && Over(keys, id) && |keys| > 1 && i < |keys|
    requires Align(keys, id.labels)[i] == p + [NUL] + q
    ensures !Alone(keys, id)
  {
    var vals := Align(keys, id.labels);
    if i + 1 < |keys| {
      JoinShift(vals, i, p, q);
      assert |Shifted(vals, i, p, q)[i]| < |vals[i]|;
      NotAlone(keys, id, Shifted(vals, i, p, q));
    } else {
      ShiftBack(vals, i, p, q);
      NotAlone(keys, id, vals[i - 1 := vals[i - 1] + [NUL] + p][i := q]);
    }
  }

  lemma ShiftBack(vals: seq<string>, i: nat, p: string, q: string)
    requires 0 < i < |vals| && vals[i] == p + [NUL] + q
    ensures var other := vals[i - 1 := vals[i - 1] + [NUL] + p][i := q]; Join(other) == Join(vals) && other != vals
  {
    var other := vals[i - 1 := vals[i - 1] + [NUL] + p][i := q];
    JoinShift(other, i - 1, vals[i - 1], p);
    assert Shifted(other, i - 1, vals[i - 1], p) == vals;
    assert |other[i]| < |vals[i]|;
  }

  /** Exactly when a place stands for one series only: there is at most one key, or no value contains NUL. */
  lemma PlaceAloneIff(keys: seq<string>, id: Ident)
    requires StrictlySorted(keys) && Over(keys, id)
    ensures Alone(keys, id) <==> |keys| <= 1 || NulFree(id)
  {
    if |keys| <= 1 || NulFree(id) {
      NulFreeAlone(keys, id);
    } else {
      var k :| k in id.labels && NUL in id.labels[k];
      var v := id.labels[k];
      var i :| 0 <= i < |keys| && keys[i] == k;
      var j :| 0 <= j < |v| && v[j] == NUL;
      assert v == v[..j] + [NUL] + v[j + 1..];
      NulShares(keys, id, i, v[..j], v[j + 1..]);
    }
  }

  /** Different series never share a place: a place determines the series. */
  lemma PlaceInjective(schema: map<string, seq<string>>, a: Ident, b: Ident)
    requires SchemaOk(schema) && IdentOk(schema, a) && b.name in schema && Over(schema[b.name], b)
    requires Place(schema[a.name], a) == Place(schema[b.name], b)
    ensures a == b
  {
    var keys := schema[a.name];
    CutAtNul(a.name, b.name, Join(Align(keys, a.labels)), Join(Align(schema[b.name], b.labels)));
    NulFreeAlone(keys, a);
  }

  /** The two allowed keys, and what they are renamed to. */
  const LABELS: seq<string> := ["direction", "http.route"]
  const RENAMED: seq<string> := ["direction", "http_route"]

  /** An event with these two labels. */
  function TwoLabels(name: string, direction: string, route: string): (ev: Event) {
    Event(name, map[LABELS[0] := direction, LABELS[1] := route], Gauge, Unstated, false, 0.0, 0, [], [])
  }

  lemma LabelsAllowed()
    ensures Forwardable(LABELS[0]) && Forwardable(LABELS[1]) && StrictlySorted(LABELS)
  {
    assert FORWARD_KEYS[3] == LABELS[0] && FORWARD_KEYS[2] == LABELS[1];
  }

  lemma LabelsRenamed()
    ensures Renamed(LABELS) == RENAMED && StrictlySorted(RENAMED)
  {
    assert PromName(LABELS[0]) == RENAMED[0];
    assert PromName(LABELS[1]) == RENAMED[1];
  }

  lemma TwoLabelsKept(ev: Event)
    requires ev.attrs.Keys == {LABELS[0], LABELS[1]}
    ensures Kept(ev.attrs) == LABELS
    ensures IdentOf(ev) == Ident(PromName(ev.name), LabelsOf(RENAMED, [ev.attrs[LABELS[0]], ev.attrs[LABELS[1]]]))
  {
    LabelsAllowed();
    SortedUnique(Kept(ev.attrs), LABELS);
    LabelsRenamed();
    assert ValuesOf(ev.attrs, LABELS) == [ev.attrs[LABELS[0]], ev.attrs[LABELS[1]]];
  }

  lemma NulPlaces(name: string, keys: seq<string>, p: string, q: string, r: string)
    requires StrictlySorted(keys) && |keys| == 2
    ensures var x := Ident(name, LabelsOf(keys, [p + [NUL] + q, r]));
            var y := Ident(name, LabelsOf(keys, [p, q + [NUL] + r]));
            x != y && Place(keys, x) == Place(keys, y)
  {
    var xs, ys := [p + [NUL] + q, r], [p, q + [NUL] + r];
    AlignOfLabels(keys, xs);
    AlignOfLabels(keys, ys);
    assert |xs[0]| != |ys[0]|;
    JoinShift(xs, 0, p, q);
    assert Shifted(xs, 0, p, q) == ys;
  }

  /** The values must not contain NUL: with it, two events of different series have the same place, on the schema that
      either of them would pin. */
  lemma NulMergesSeries(name: string, p: string, q: string, r: string)
    ensures var x, y := TwoLabels(name, p + [NUL] + q, r), TwoLabels(name, p, q + [NUL] + r);
            var keys := Renamed(Kept(x.attrs));
            && keys == Renamed(Kept(y.attrs)) && StrictlySorted(keys) && IdentOf(x) != IdentOf(y)
            && Place(keys, IdentOf(x)) == Place(keys, IdentOf(y))
  {
    TwoLabelsKept(TwoLabels(name, p + [NUL] + q, r));
    TwoLabelsKept(TwoLabels(name, p, q + [NUL] + r));
    LabelsRenamed();
    NulPlaces(PromName(name), RENAMED, p, q, r);
  }

  // ---------- widening ----------

  predicate OfName(k: string, name: string) {
    |name| < |k| && k[..|name|] == name && k[|name|] == NUL
  }

  /** Only the series of a name have keys that start with that name and a NUL. */
  lemma OfNameIff(id: Ident, keys: seq<string>, name: string)
    requires NoNul(id.name) && NoNul(name)
    ensures OfName(Place(keys, id), name) <==> id.name == name
  {
    var k := Place(keys, id);
    if OfName(k, name) {
      assert k == name + [NUL] + k[|name| + 1..];
      CutAtNul(id.name, name, Join(Align(keys, id.labels)), k[|name| + 1..]);
    }
  }

  /** `pending` holds exactly the moved series of `name` whose old key is no longer in `todo`: those of
      `ids`, one by one. */
  ghost predicate PendingOk(
    pending: seq<(string, Series)>, ids: seq<Ident>, m: Model, name: string, oldKeys: seq<string>, newKeys: seq<string>,
    todo: set<string>)
  {
    && |ids| == |pending|
    && (forall i | 0 <= i < |ids| :: ids[i] in m && ids[i].name == name && Place(oldKeys, ids[i]) !in todo)
    && (forall i | 0 <= i < |ids| :: pending[i] == (Place(newKeys, ids[i]), Stored(newKeys, ids[i], m[ids[i]])))
    && (forall id | id in m && id.name == name && Place(oldKeys, id) !in todo :: id in ids)
  }

  /** A schema for one name that has all the keys of the old one. */
  ghost predicate Wider(oldKeys: seq<string>, newKeys: seq<string>) {
    StrictlySorted(newKeys) && forall k | k in oldKeys :: k in newKeys
  }

  class ObiCollector {
    var series: map<string, Series>
    var labelSchema: map<string, seq<string>>
    ghost var model: Model

    ghost predicate Valid()
      reads this
    {
      Represents(series, labelSchema, model)
    }

    constructor ()
      ensures Valid() && model == map[]
    {
      series, labelSchema, model := map[], map[], map[];
    }

    /** `rekeySeries`, first loop: take every series of `name` out and realign it. */
    method TakeOut(name: string, newKeys: seq<string>) returns (pending: seq<(string, Series)>, ghost ids: seq<Ident>)
      requires Valid() && name in labelSchema && Wider(labelSchema[name], newKeys)
      modifies this`series
      ensures series == Without(old(series), name, {})
      ensures PendingOk(pending, ids, model, name, labelSchema[name], newKeys, {})
    {
      var oldKeys := labelSchema[name];
      var todo := series.Keys;
      pending, ids := [], [];
      AllPending(series, labelSchema, model, name, newKeys);
      while todo != {}
        invariant todo <= old(series).Keys
        invariant series == Without(old(series), name, todo)
        invariant PendingOk(pending, ids, model, name, oldKeys, newKeys, todo)
        decreases todo
      {
        var k :| k in todo;
        ghost var id :| IsAt(labelSchema, model, id, k);
        OfNameIff(id, labelSchema[id.name], name);
        if OfName(k, name) {
          var st := series[k];
          var newVals := CoerceToSchema(newKeys, oldKeys, st.vals);
          Realigned(old(series), labelSchema, model, newKeys, id);
          series := series - {k};
          PendingSnoc(pending, ids, model, labelSchema, name, newKeys, todo, id);
          pending := pending + [(Key(name, newVals), st.(keys := newKeys, vals := newVals))];
          ids := ids + [id];
        } else {
          PendingSkip(pending, ids, model, labelSchema, name, newKeys, todo, id);
        }
        WithoutStep(old(series), name, todo, k);
        todo := todo - {k};
      }
    }

    method PutAll(pending: seq<(string, Series)>)
      requires NoClash(series, pending)
      modifies this`series
      ensures PutUpTo(old(series), pending, |pending|, series)
    {
      for i := 0 to |pending|
        invariant PutUpTo(old(series), pending, i, series)
      {
        series := series[pending[i].0 := pending[i].1];
      }
    }

    /** Second loop: put the realigned series back.  No two of them, and none of the series that stayed,
        share a key. */
    method PutBack(name: string, newKeys: seq<string>, pending: seq<(string, Series)>, ghost ids: seq<Ident>,
                   ghost was: map<string, Series>)
      requires Represents(was, labelSchema, model) && name in labelSchema && Wider(labelSchema[name], newKeys)
      requires series == Without(was, name, {})
      requires PendingOk(pending, ids, model, name, labelSchema[name], newKeys, {})
      modifies this`series
      ensures Represents(series, labelSchema[name := newKeys], model)
    {
      PendingFresh(pending, ids, model, labelSchema, name, newKeys, was);
      PutAll(pending);
      StillThere(pending, ids, model, labelSchema, name, newKeys, was, series);
      NothingElse(pending, ids, model, labelSchema, name, newKeys, was, series);
    }

    /** `rekeySeries`, with the schema update that follows it.  Widening is invisible in the model: no series
        is merged, split or lost. */
    method RekeySeries(name: string, newKeys: seq<string>)
      requires Valid() && name in labelSchema && Wider(labelSchema[name], newKeys)
      modifies this`series, this`labelSchema
      ensures Valid()
      ensures labelSchema == old(labelSchema)[name := newKeys]
    {
      var pending, ids := TakeOut(name, newKeys);
      PutBack(name, newKeys, pending, ids, old(series));
      labelSchema := labelSchema[name := newKeys];
    }

    /** Pin the schema of a new name, or widen that of a known one, so that it has all of `keys`. */
    method Widen(name: string, keys: seq<string>)
      requires Valid() && NoNul(name) && StrictlySorted(keys)
      modifies this`series, this`labelSchema
      ensures Valid() && name in labelSchema && forall k | k in keys :: k in labelSchema[name]
    {
      if name !in labelSchema {
        NewName(series, labelSchema, model, name, keys);
        labelSchema := labelSchema[name := keys];
      } else {
        var u := UnionKeys(labelSchema[name], keys);
        if u != labelSchema[name] {
          RekeySeries(name, u);
        }
      }
    }

    /** Record one event.  The keys that are kept must still be in order after renaming, and their values free
        of NUL; `RenamingCanUnsort`, `WideningCanDuplicate` and `NulMergesSeries` show both are needed. */
    method Record(ev: Event, now: int)
      requires Valid() && EventOk(ev)
      modifies this
      ensures Valid()
      ensures model == ModelRecord(old(model), ev, now)
    {
      if IsMeta(ev.name) {
        return;
      }
      var name := PromName(ev.name);
      var keys, vals, dropped := AllowedLabels(ev.attrs);
      ghost var id := IdentOf(ev);
      Widen(name, keys);
      EventIdentOk(ev, labelSchema);
      vals := CoerceToSchema(labelSchema[name], keys, vals);
      Store(name, vals, ev, now, id);
    }

    /** Find or create the series with these aligned values, and let it absorb the event. */
    method Store(name: string, vals: seq<string>, ev: Event, now: int, ghost id: Ident)
      requires Valid() && IdentOk(labelSchema, id)
      requires name == id.name && vals == Align(labelSchema[name], id.labels)
      modifies this`series, this`model
      ensures Valid()
      ensures model == old(model)[id := Absorb(if id in old(model) then old(model)[id] else FRESH, ev, now)]
    {
      ghost var d := Absorb(if id in model then model[id] else FRESH, ev, now);
      StoreOne(series, labelSchema, model, id, d);
      assert id in model ==> StoredAt(series, labelSchema, id, model[id]);
      var key := Key(name, vals);
      var st := if key in series then series[key] else Series(name, labelSchema[name], vals, FRESH);
      series := series[key := st.(data := Absorb(st.data, ev, now))];
      model := model[id := d];
    }

    /** `Collect`'s loop over the map, in any order: `ks` are the keys of the series that stay and are accepted. */
    method EmitFresh(now: int) returns (out: seq<Metric>, ghost ks: seq<string>)
      modifies this`series
      ensures series == Unevicted(old(series), now, {})
      ensures Enumerates(ks, AcceptedKeys(series)) && |out| == |ks|
      ensures forall i | 0 <= i < |ks| :: ks[i] in series && out[i] == Render(series[ks[i]])
    {
      out, ks := [], [];
      var todo := series.Keys;
      assert Unevicted(series, now, todo) == series;
      while todo != {}
        invariant todo <= old(series).Keys
        invariant series == Unevicted(old(series), now, todo)
        invariant Enumerates(ks, AcceptedKeys(series) - todo) && |out| == |ks|
        invariant forall i | 0 <= i < |ks| :: ks[i] in old(series) && out[i] == Render(old(series)[ks[i]])
        decreases todo
      {
        var k :| k in todo;
        EvictOne(old(series), now, todo, k);
        var st := series[k];
        if st.data.lastSeen < now - STALE_AFTER {
          AcceptedWithout(series, todo, k);
          series := series - {k};
        } else if Accepted(st) {
          out := out + [Render(st)];
          EnumeratesSnoc(ks, AcceptedKeys(series) - todo, k);
          ks := ks + [k];
          assert AcceptedKeys(series) - (todo - {k}) == (AcceptedKeys(series) - todo) + {k};
        } else {
          assert AcceptedKeys(series) - (todo - {k}) == AcceptedKeys(series) - todo;
        }
        todo := todo - {k};
      }
      forall i | 0 <= i < |ks|
        ensures ks[i] in series
      {
        assert ks[i] in AcceptedKeys(series) - {};
      }
    }

    /** Evict what has not been seen for ten minutes and emit everything else that has a name: one metric for each such
        series of the model, in any order. */
    method Collect(now: int) returns (out: seq<Metric>, ghost ids: seq<Ident>)
      requires Valid()
      modifies this`series, this`model
      ensures Valid() && model == ModelCollect(old(model), now)
      ensures forall id :: id in model <==> id in old(model) && old(model)[id].lastSeen >= now - 600_000_000_000
      ensures forall id | id in model :: model[id] == old(model)[id]
      ensures Enumerates(ids, set id | id in model && id.name != "") && |out| == |ids|
      ensures forall i | 0 <= i < |ids| ::
                && ids[i] in model && ids[i].name in labelSchema
                && IsMetric(out[i], labelSchema[ids[i].name], ids[i], model[ids[i]])
    {
      ghost var ks;
      EvictedRepresents(series, labelSchema, model, now);
      out, ks := EmitFresh(now);
      model := ModelCollect(model, now);
      AcceptedIff(series, labelSchema, model);
      ids := OwnersOf(series, labelSchema, model, ks);
    }
  }

  // ---------- recording ----------

  ghost predicate EventOk(ev: Event) {
    StrictlySorted(Renamed(Kept(ev.attrs))) && forall k | k in Kept(ev.attrs) :: NoNul(ev.attrs[k])
  }

  /** An event is for the series with its name in Prometheus form, and the labels are its attributes that are on the
      allowlist and not empty. */
  lemma IdentMeans(ev: Event)
    requires EventOk(ev)
    ensures IdentOf(ev).name == PromName(ev.name)
    ensures forall a | a in ev.attrs && Forwardable(a) ::
              var labels, k := IdentOf(ev).labels, PromName(a);
              if ev.attrs[a] == "" then k !in labels else k in labels && labels[k] == ev.attrs[a]
    ensures forall k | k in IdentOf(ev).labels :: exists a :: a in ev.attrs && Forwardable(a) && PromName(a) == k
  {
    var kept := Kept(ev.attrs);
    var keys, vals := Renamed(kept), ValuesOf(ev.attrs, kept);
    AlignOfLabels(keys, vals);
    forall a | a in ev.attrs && Forwardable(a)
      ensures var labels, k := IdentOf(ev).labels, PromName(a);
              if ev.attrs[a] == "" then k !in labels else k in labels && labels[k] == ev.attrs[a]
    {
      assert a in kept;
      var i :| 0 <= i < |kept| && kept[i] == a;
      assert keys[i] == PromName(a) && vals[i] == ev.attrs[a];
      if keys[i] in IdentOf(ev).labels {
        NoEmptyLabels(keys, vals, keys[i]);
      }
    }
    forall k | k in IdentOf(ev).labels
      ensures exists a :: a in ev.attrs && Forwardable(a) && PromName(a) == k
    {
      var i :| 0 <= i < |keys| && keys[i] == k;
      assert kept[i] in kept;
    }
  }

  lemma NoEmptyLabels(keys: seq<string>, vals: seq<string>, k: string)
    requires |keys| == |vals| && k in LabelsOf(keys, vals)
    ensures LabelsOf(keys, vals)[k] != ""
  {
  }

  lemma NewName(series: map<string, Series>, schema: map<string, seq<string>>, m: Model, name: string,
                keys: seq<string>)
    requires Represents(series, schema, m) && name !in schema && NoNul(name) && StrictlySorted(keys)
    ensures Represents(series, schema[name := keys], m)
  {
    var schema' := schema[name := keys];
    forall id | id in m
      ensures StoredAt(series, schema', id, m[id])
    {
      assert StoredAt(series, schema, id, m[id]);
    }
    forall k | k in series
      ensures exists id :: IsAt(schema', m, id, k)
    {
      var id :| IsAt(schema, m, id, k);
      assert IsAt(schema', m, id, k);
    }
  }

  lemma {:induction false} LookupInVals(keys: seq<string>, vals: seq<string>, k: string)
    requires |keys| == |vals|
    ensures Lookup(keys, vals, k) == "" || Lookup(keys, vals, k) in vals
  {
    if keys != [] {
      LookupInVals(keys[1..], vals[1..], k);
    }
  }

  lemma EventIdentOk(ev: Event, schema: map<string, seq<string>>)
    requires EventOk(ev) && PromName(ev.name) in schema
    requires forall k | k in Renamed(Kept(ev.attrs)) :: k in schema[PromName(ev.name)]
    ensures IdentOk(schema, IdentOf(ev))
  {
    var kept, id := Kept(ev.attrs), IdentOf(ev);
    var keys, vals := Renamed(kept), ValuesOf(ev.attrs, kept);
    forall k | k in id.labels
      ensures NoNul(id.labels[k])
    {
      LookupInVals(keys, vals, k);
      var i :| 0 <= i < |vals| && vals[i] == id.labels[k];
    }
  }

  /** Writing one series at its place writes that series of the model and no other. */
  lemma StoreOne(series: map<string, Series>, schema: map<string, seq<string>>, m: Model, id: Ident, d: Data)
    requires Represents(series, schema, m) && IdentOk(schema, id)
    ensures id in m <==> Place(schema[id.name], id) in series
    ensures Represents(series[Place(schema[id.name], id) := Stored(schema[id.name], id, d)], schema, m[id := d])
  {
    var k, m' := Place(schema[id.name], id), m[id := d];
    var series' := series[k := Stored(schema[id.name], id, d)];
    forall x | x in m'
      ensures StoredAt(series', schema, x, m'[x])
    {
      if x != id {
        assert StoredAt(series, schema, x, m[x]);
        if Place(schema[x.name], x) == k {
          PlaceInjective(schema, x, id);
        }
      }
    }
    forall j | j in series'
      ensures exists x :: IsAt(schema, m', x, j)
    {
      if j == k {
        assert IsAt(schema, m', id, j);
      } else {
        var x :| IsAt(schema, m, x, j);
        assert IsAt(schema, m', x, j);
      }
    }
    if k in series {
      var x :| IsAt(schema, m, x, k);
      assert StoredAt(series, schema, x, m[x]);
      PlaceInjective(schema, x, id);
    }
  }

  // ---------- collecting ----------

  /** What a scrape sees of a series; the histogram part is the subject of module `Histograms`. */
  datatype Metric = Metric(name: string, labels: seq<string>, vals: seq<string>, data: Data)

  function Render(s: Series): (m: Metric) {
    Metric(s.name, s.keys, s.vals, s.data)
  }

  /** The metric is that of the series `id` with state `d`: its labels paired with their values, on all the names of the
      schema, with the empty value for those it does not have. */
  ghost predicate IsMetric(m: Metric, keys: seq<string>, id: Ident, d: Data) {
    && m.name == id.name && m.labels == keys && |m.vals| == |keys| && m.data == d
    && (forall i | 0 <= i < |keys| :: m.vals[i] == if keys[i] in id.labels then id.labels[keys[i]] else "")
    && (forall k | k in id.labels :: k in keys)
  }

  lemma RenderMeans(keys: seq<string>, id: Ident, d: Data)
    requires forall k | k in id.labels :: k in keys
    ensures IsMetric(Render(Stored(keys, id, d)), keys, id, d)
  {
  }

  ghost predicate Owns(series: map<string, Series>, schema: map<string, seq<string>>, m: Model, id: Ident, k: string) {
    && IsAt(schema, m, id, k) && k in series && id.name == series[k].name
    && IsMetric(Render(series[k]), schema[id.name], id, m[id])
  }

  lemma OwnerOf(series: map<string, Series>, schema: map<string, seq<string>>, m: Model, k: string)
    returns (id: Ident)
    requires Represents(series, schema, m) && k in series
    ensures Owns(series, schema, m, id, k)
  {
    id :| IsAt(schema, m, id, k);
    assert StoredAt(series, schema, id, m[id]);
    RenderMeans(schema[id.name], id, m[id]);
  }

  /** The series of the model behind the keys of all stored series that have a name. */
  lemma OwnersOf(series: map<string, Series>, schema: map<string, seq<string>>, m: Model, ks: seq<string>)
    returns (ids: seq<Ident>)
    requires Represents(series, schema, m) && Enumerates(ks, NamedKeys(series))
    ensures Enumerates(ids, set id | id in m && id.name != "") && |ids| == |ks|
    ensures forall i | 0 <= i < |ks| :: Owns(series, schema, m, ids[i], ks[i])
  {
    ids := [];
    for n := 0 to |ks|
      invariant |ids| == n && forall i | 0 <= i < n :: Owns(series, schema, m, ids[i], ks[i])
    {
      assert ks[n] in NamedKeys(series);
      var id := OwnerOf(series, schema, m, ks[n]);
      ids := ids + [id];
    }
    forall i, j | 0 <= i < j < |ids|
      ensures ids[i] != ids[j]
    {
      assert Owns(series, schema, m, ids[i], ks[i]) && Owns(series, schema, m, ids[j], ks[j]);
    }
    forall id
      ensures id in ids <==> id in m && id.name != ""
    {
      if id in m && id.name != "" {
        OwnerListed(series, schema, m, ks, ids, id);
      }
      if id in ids {
        var i :| 0 <= i < |ids| && ids[i] == id;
        assert Owns(series, schema, m, ids[i], ks[i]) && ks[i] in NamedKeys(series);
      }
    }
  }

  lemma OwnerListed(series: map<string, Series>, schema: map<string, seq<string>>, m: Model, ks: seq<string>,
                    ids: seq<Ident>, id: Ident)
    requires Represents(series, schema, m) && Enumerates(ks, NamedKeys(series)) && |ids| == |ks|
    requires (forall i | 0 <= i < |ks| :: Owns(series, schema, m, ids[i], ks[i])) && id in m && id.name != ""
    ensures id in ids
  {
    assert StoredAt(series, schema, id, m[id]);
    var k := Place(schema[id.name], id);
    assert k in NamedKeys(series);
    var i :| 0 <= i < |ks| && ks[i] == k;
    OneOwner(series, schema, m, id, ids[i], k);
  }

  lemma OneOwner(series: map<string, Series>, schema: map<string, seq<string>>, m: Model, a: Ident, b: Ident, k: string)
    requires Represents(series, schema, m) && IsAt(schema, m, a, k) && IsAt(schema, m, b, k)
    ensures a == b
  {
    assert StoredAt(series, schema, a, m[a]) && StoredAt(series, schema, b, m[b]);
    PlaceInjective(schema, a, b);
  }

  /** The client library refuses a metric without a name, or whose values do not match its label names, or with a label
      twice. */
  predicate Accepted(s: Series) {
    s.name != "" && |s.keys| == |s.vals| && forall i, j | 0 <= i < j < |s.keys| :: s.keys[i] != s.keys[j]
  }

  ghost function Unevicted(series: map<string, Series>, now: int, todo: set<string>): (r: map<string, Series>) {
    map k | k in series && (k in todo || series[k].data.lastSeen >= now - STALE_AFTER) :: series[k]
  }

  ghost function AcceptedKeys(series: map<string, Series>): (ks: set<string>) {
    set k | k in series && Accepted(series[k])
  }

  ghost function NamedKeys(series: map<string, Series>): (ks: set<string>) {
    set k | k in series && series[k].name != ""
  }

  /** The client library accepts a stored series if and only if it has a name. */
  lemma AcceptedIff(series: map<string, Series>, schema: map<string, seq<string>>, m: Model)
    requires Represents(series, schema, m)
    ensures AcceptedKeys(series) == NamedKeys(series)
  {
    forall k | k in series
      ensures Accepted(series[k]) <==> series[k].name != ""
    {
      var id :| IsAt(schema, m, id, k);
      assert StoredAt(series, schema, id, m[id]);
      SortedAccepted(series[k]);
    }
  }

  lemma AcceptedWithout(series: map<string, Series>, todo: set<string>, k: string)
    requires k in todo
    ensures AcceptedKeys(series - {k}) - (todo - {k}) == AcceptedKeys(series) - todo
  {
  }

  lemma SortedAccepted(s: Series)
    requires |s.keys| == |s.vals| && StrictlySorted(s.keys)
    ensures Accepted(s) <==> s.name != ""
  {
    forall i, j | 0 <= i < j < |s.keys|
      ensures s.keys[i] != s.keys[j]
    {
      LessTotal(s.keys[i], s.keys[i]);
      assert Less(s.keys[i], s.keys[j]);
    }
  }

  lemma EvictOne(series: map<string, Series>, now: int, todo: set<string>, k: string)
    requires k in todo && k in series
    ensures Unevicted(series, now, todo - {k}) ==
            if series[k].data.lastSeen >= now - STALE_AFTER then Unevicted(series, now, todo)
            else Unevicted(series, now, todo) - {k}
  {
  }

  lemma EvictedRepresents(series: map<string, Series>, schema: map<string, seq<string>>, m: Model, now: int)
    requires Represents(series, schema, m)
    ensures Represents(Unevicted(series, now, {}), schema, ModelCollect(m, now))
  {
    var series', m' := Unevicted(series, now, {}), ModelCollect(m, now);
    forall id | id in m'
      ensures StoredAt(series', schema, id, m'[id])
    {
      assert StoredAt(series, schema, id, m[id]);
    }
    forall k | k in series'
      ensures exists id :: IsAt(schema, m', id, k)
    {
      var id :| IsAt(schema, m, id, k);
      assert StoredAt(series, schema, id, m[id]);
      assert IsAt(schema, m', id, k);
    }
  }

  // ---------- whole runs ----------

  datatype Op = RecordOp(ev: Event, now: int) | CollectOp(now: int)

  ghost function ModelRun(m: Model, ops: seq<Op>): (m': Model)
    decreases |ops|
  {
    if ops == [] then m else
    ModelRun(match ops[0] case RecordOp(ev, now) => ModelRecord(m, ev, now) case CollectOp(now) => ModelCollect(m, now),
             ops[1..])
  }

  /** For every sequence of calls, the collector is the plain map. */
  method Replay(ops: seq<Op>) returns (c: ObiCollector)
    requires forall i | 0 <= i < |ops| && ops[i].RecordOp? :: EventOk(ops[i].ev)
    ensures c.Valid() && c.model == ModelRun(map[], ops)
  {
    c := new ObiCollector();
    for i := 0 to |ops|
      invariant fresh(c) && c.Valid()
      invariant ModelRun(c.model, ops[i..]) == ModelRun(map[], ops)
    {
      assert ops[i..][1..] == ops[i + 1..];
      match ops[i] {
        case RecordOp(ev, now) =>
          c.Record(ev, now);
        case CollectOp(now) =>
          var out, ids := c.Collect(now);
      }
    }
  }

  // ---------- widening ----------

  /** The map without the series of `name` that are no longer to be visited. */
  ghost function Without(series: map<string, Series>, name: string, todo: set<string>): (r: map<string, Series>) {
    map k | k in series && (k in todo || !OfName(k, name)) :: series[k]
  }

  /** `now` is `others` with the first `i` of `pending` put in. */
  ghost predicate PutUpTo(others: map<string, Series>, pending: seq<(string, Series)>, i: nat, now: map<string, Series>)
    requires i <= |pending|
  {
    && (forall k | k in others :: k in now && now[k] == others[k])
    && (forall j | 0 <= j < i :: pending[j].0 in now && now[pending[j].0] == pending[j].1)
    && (forall k | k in now :: k in others || exists j :: 0 <= j < i && k == pending[j].0)
  }

  /** No pending key is taken, and equal pending keys carry equal series. */
  ghost predicate NoClash(others: map<string, Series>, pending: seq<(string, Series)>) {
    && (forall i | 0 <= i < |pending| :: pending[i].0 !in others)
    && (forall i, j | 0 <= i < |pending| && 0 <= j < |pending| && pending[i].0 == pending[j].0 ::
          pending[i].1 == pending[j].1)
  }

  lemma WithoutStep(was: map<string, Series>, name: string, todo: set<string>, k: string)
    requires k in todo
    ensures OfName(k, name) ==> Without(was, name, todo) - {k} == Without(was, name, todo - {k})
    ensures !OfName(k, name) ==> Without(was, name, todo) == Without(was, name, todo - {k})
  {
  }

  /** Realigning a stored series is the same as storing it under the new keys. */
  lemma Realigned(series: map<string, Series>, schema: map<string, seq<string>>, m: Model, newKeys: seq<string>,
                  id: Ident)
    requires Represents(series, schema, m) && id in m
    ensures var keys := schema[id.name];
            var st := series[Place(keys, id)];
            && |st.vals| == |keys| && StrictlySorted(keys)
            && Key(id.name, Align(newKeys, LabelsOf(keys, st.vals))) == Place(newKeys, id)
            && st.(keys := newKeys, vals := Align(newKeys, LabelsOf(keys, st.vals))) == Stored(newKeys, id, m[id])
  {
    LabelsOfAlign(schema[id.name], id.labels);
  }

  /** At the start everything is still to be visited, so nothing is pending. */
  lemma AllPending(series: map<string, Series>, schema: map<string, seq<string>>, m: Model, name: string,
                   newKeys: seq<string>)
    requires Represents(series, schema, m) && name in schema
    ensures PendingOk([], [], m, name, schema[name], newKeys, series.Keys)
    ensures Without(series, name, series.Keys) == series
  {
  }

  lemma PendingSnoc(
    pending: seq<(string, Series)>, ids: seq<Ident>, m: Model, schema: map<string, seq<string>>, name: string,
    newKeys: seq<string>, todo: set<string>, id: Ident)
    requires SchemaOk(schema) && name in schema && (forall x | x in m :: IdentOk(schema, x))
    requires id in m && id.name == name
    requires PendingOk(pending, ids, m, name, schema[name], newKeys, todo)
    ensures PendingOk(pending + [(Place(newKeys, id), Stored(newKeys, id, m[id]))], ids + [id], m, name, schema[name],
                      newKeys, todo - {Place(schema[name], id)})
  {
    forall x | x in m && x.name == name && Place(schema[name], x) !in todo - {Place(schema[name], id)}
      ensures x in ids + [id]
    {
      if Place(schema[name], x) == Place(schema[name], id) {
        PlaceInjective(schema, x, id);
      }
    }
  }

  lemma PendingSkip(
    pending: seq<(string, Series)>, ids: seq<Ident>, m: Model, schema: map<string, seq<string>>, name: string,
    newKeys: seq<string>, todo: set<string>, id: Ident)
    requires SchemaOk(schema) && name in schema && (forall x | x in m :: IdentOk(schema, x))
    requires id in m && id.name in schema && id.name != name
    requires PendingOk(pending, ids, m, name, schema[name], newKeys, todo)
    ensures PendingOk(pending, ids, m, name, schema[name], newKeys, todo - {Place(schema[id.name], id)})
  {
    forall x | x in m && x.name == name
      ensures Place(schema[name], x) != Place(schema[id.name], id)
    {
      OfNameIff(x, schema[name], name);
      OfNameIff(id, schema[id.name], name);
    }
  }

  /** A pending series meets no series that stayed, and no pending one but itself. */
  lemma PendingFresh(
    pending: seq<(string, Series)>, ids: seq<Ident>, m: Model, schema: map<string, seq<string>>, name: string,
    newKeys: seq<string>, was: map<string, Series>)
    requires Represents(was, schema, m) && name in schema && Wider(schema[name], newKeys)
    requires PendingOk(pending, ids, m, name, schema[name], newKeys, {})
    ensures NoClash(Without(was, name, {}), pending)
  {
    forall i | 0 <= i < |pending|
      ensures pending[i].0 !in Without(was, name, {})
    {
      OfNameIff(ids[i], newKeys, name);
    }
    forall i, j | 0 <= i < |pending| && 0 <= j < |pending| && pending[i].0 == pending[j].0
      ensures pending[i].1 == pending[j].1
    {
      PlaceInjective(schema[name := newKeys], ids[i], ids[j]);
    }
  }

  lemma OneStillThere(
    pending: seq<(string, Series)>, ids: seq<Ident>, m: Model, schema: map<string, seq<string>>, name: string,
    newKeys: seq<string>, was: map<string, Series>, now: map<string, Series>, id: Ident)
    requires SchemaOk(schema) && name in schema && Wider(schema[name], newKeys)
    requires id in m && StoredAt(was, schema, id, m[id])
    requires PendingOk(pending, ids, m, name, schema[name], newKeys, {})
    requires PutUpTo(Without(was, name, {}), pending, |pending|, now)
    ensures StoredAt(now, schema[name := newKeys], id, m[id])
  {
    if id.name == name {
      var j :| 0 <= j < |ids| && ids[j] == id;
      assert pending[j].0 in now;
    } else {
      OfNameIff(id, schema[id.name], name);
      assert Place(schema[id.name], id) in Without(was, name, {});
    }
  }

  lemma StillThere(
    pending: seq<(string, Series)>, ids: seq<Ident>, m: Model, schema: map<string, seq<string>>, name: string,
    newKeys: seq<string>, was: map<string, Series>, now: map<string, Series>)
    requires Represents(was, schema, m) && name in schema && Wider(schema[name], newKeys)
    requires PendingOk(pending, ids, m, name, schema[name], newKeys, {})
    requires PutUpTo(Without(was, name, {}), pending, |pending|, now)
    ensures AllStored(now, schema[name := newKeys], m)
  {
    forall id | id in m
      ensures StoredAt(now, schema[name := newKeys], id, m[id])
    {
      OneStillThere(pending, ids, m, schema, name, newKeys, was, now, id);
    }
  }

  lemma NothingElse(
    pending: seq<(string, Series)>, ids: seq<Ident>, m: Model, schema: map<string, seq<string>>, name: string,
    newKeys: seq<string>, was: map<string, Series>, now: map<string, Series>)
    requires Represents(was, schema, m) && name in schema
    requires PendingOk(pending, ids, m, name, schema[name], newKeys, {})
    requires PutUpTo(Without(was, name, {}), pending, |pending|, now)
    ensures AllOwned(now, schema[name := newKeys], m)
  {
    var schema' := schema[name := newKeys];
    forall k | k in now
      ensures exists id :: IsAt(schema', m, id, k)
    {
      if k in Without(was, name, {}) {
        var id :| IsAt(schema, m, id, k);
        OfNameIff(id, schema[id.name], name);
        assert IsAt(schema', m, id, k);
      } else {
        var j :| 0 <= j < |pending| && k == pending[j].0;
        assert IsAt(schema', m, ids[j], k);
      }
    }
  }
}
