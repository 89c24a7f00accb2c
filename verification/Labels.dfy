/** Label keys and values of the re-exposed metrics: renaming, the allowlist, the widening merge and the
    alignment onto a schema (`forward.go`, `schema.go`). */
module Labels {
  import opened Text

  // ---------- names ----------

  predicate PromChar(c: char, i: nat) {
    || 'a' <= c <= 'z' || 'A' <= c <= 'Z' || c == '_' || c == ':'
    || ('0' <= c <= '9' && i > 0)
  }

  /** `promName`: every character Prometheus does not allow becomes an underscore. */
  function PromName(name: string): (r: string)
    ensures |r| == |name| && NoNul(r)
    ensures forall i | 0 <= i < |r| :: PromChar(r[i], i) && (r[i] == name[i] || (r[i] == '_' && !PromChar(name[i], i)))
  {
    seq(|name|, i requires 0 <= i < |name| => if PromChar(name[i], i) then name[i] else '_')
  }

  const FORWARD_KEYS: seq<string> := [
    "http.request.method", "http.response.status_code", "http.route", "direction",
    "rpc.method", "rpc.response.status_code", "rpc.system.name"]
  const FORWARD_PREFIXES: seq<string> := ["k8s.", "service.", "network.", "tcp."]

  predicate ProperPrefix(p: string, key: string) {
    |key| > |p| && key[..|p|] == p
  }

  predicate Forwardable(key: string) {
    key in FORWARD_KEYS || exists p :: p in FORWARD_PREFIXES && ProperPrefix(p, key)
  }

  predicate Distinct(s: seq<string>) {
    forall i, j | 0 <= i < j < |s| :: s[i] != s[j]
  }

  /** `sort.Strings`. */
  function SortStrings(s: seq<string>): (r: seq<string>)
    ensures forall x :: x in r <==> x in s
    ensures Distinct(s) ==> StrictlySorted(r)
  {
    if s == [] then [] else
    assert s == [s[0]] + s[1..];
    InsertString(s[0], SortStrings(s[1..]))
  }

  function InsertString(k: string, s: seq<string>): (r: seq<string>)
    ensures forall x :: x in r <==> x in s || x == k
    ensures StrictlySorted(s) && k !in s ==> StrictlySorted(r)
  {
    if s == [] || Less(k, s[0]) then
      assert StrictlySorted(s) && s != [] ==> forall x | x in s :: Less(k, x) by {
        if StrictlySorted(s) && s != [] {
          AllBelow(k, s[0], s);
        }
      }
      SortedCons(k, s);
      [k] + s
    else
      assert s == [s[0]] + s[1..];
      LessTotal(k, s[0]);
      SortedCons(s[0], s[1..]);
      SortedCons(s[0], InsertString(k, s[1..]));
      [s[0]] + InsertString(k, s[1..])
  }

  /** A set of strings in order. */
  ghost function Listed(s: set<string>): (r: seq<string>)
    ensures StrictlySorted(r) && forall x :: x in r <==> x in s
  {
    if s == {} then [] else
    var x :| x in s;
    InsertString(x, Listed(s - {x}))
  }

  lemma {:induction false} SortedUnique(a: seq<string>, b: seq<string>)
    requires StrictlySorted(a) && StrictlySorted(b) && forall x :: x in a <==> x in b
    ensures a == b
  {
    if a == [] {
      assert forall i | 0 <= i < |b| :: b[i] in b;
    } else {
      assert a[0] in b && b[0] in a;
      assert a == [a[0]] + a[1..] && b == [b[0]] + b[1..];
      SortedCons(a[0], a[1..]);
      SortedCons(b[0], b[1..]);
      LessTotal(a[0], b[0]);
      assert a[0] == b[0];
      forall x
        ensures x in a[1..] <==> x in b[1..]
      {
        LessTotal(a[0], x);
        assert x in a <==> x == a[0] || x in a[1..];
        assert x in b <==> x == b[0] || x in b[1..];
      }
      SortedUnique(a[1..], b[1..]);
    }
  }

  /** The attribute keys that pass the allowlist, sorted. */
  ghost function Kept(attrs: map<string, string>): (kept: seq<string>)
    ensures StrictlySorted(kept) && forall k :: k in kept <==> k in attrs && Forwardable(k)
  {
    Listed(set k | k in attrs && Forwardable(k))
  }

  function Renamed(names: seq<string>): (keys: seq<string>)
    ensures |keys| == |names| && forall i | 0 <= i < |names| :: keys[i] == PromName(names[i])
  {
    seq(|names|, i requires 0 <= i < |names| => PromName(names[i]))
  }

  function ValuesOf(attrs: map<string, string>, names: seq<string>): (vals: seq<string>)
    requires forall k | k in names :: k in attrs
    ensures |vals| == |names| && forall i | 0 <= i < |names| :: vals[i] == attrs[names[i]]
  {
    seq(|names|, i requires 0 <= i < |names| => attrs[names[i]])
  }

  /** `allowedLabels`: collect in map order, sort, then rename; and the attributes that were dropped, each once. */
  method AllowedLabels(attrs: map<string, string>)
    returns (keys: seq<string>, vals: seq<string>, dropped: seq<string>)
    ensures keys == Renamed(Kept(attrs)) && vals == ValuesOf(attrs, Kept(attrs))
    ensures Distinct(dropped) && forall k :: k in dropped <==> k in attrs && !Forwardable(k)
  {
    var names: seq<string>, todo := [], attrs.Keys;
    dropped := [];
    while todo != {}
      invariant todo <= attrs.Keys && Distinct(names) && Distinct(dropped)
      invariant forall k :: k in names <==> k in attrs && k !in todo && Forwardable(k)
      invariant forall k :: k in dropped <==> k in attrs && k !in todo && !Forwardable(k)
      decreases todo
    {
      var k :| k in todo;
      if Forwardable(k) {
        names := names + [k];
      } else {
        dropped := dropped + [k];
      }
      todo := todo - {k};
    }
    names := SortStrings(names);
    SortedUnique(names, Kept(attrs));
    keys, vals := Renamed(names), ValuesOf(attrs, names);
  }

  // ---------- the widening merge ----------

  /** The merge that `unionKeys` performs. */
  function Merge(a: seq<string>, b: seq<string>): (r: seq<string>)
    decreases |a| + |b|
  {
    if a == [] then b
    else if b == [] then a
    else if a[0] == b[0] then [a[0]] + Merge(a[1..], b[1..])
    else if Less(a[0], b[0]) then [a[0]] + Merge(a[1..], b)
    else [b[0]] + Merge(a, b[1..])
  }

  method UnionKeys(a: seq<string>, b: seq<string>) returns (out: seq<string>)
    ensures out == Merge(a, b)
    ensures forall x :: x in out <==> x in a || x in b
    ensures StrictlySorted(out) <==> StrictlySorted(a) && StrictlySorted(b)
  {
    out := [];
    var i, j := 0, 0;
    while i < |a| && j < |b|
      invariant 0 <= i <= |a| && 0 <= j <= |b|
      invariant out + Merge(a[i..], b[j..]) == Merge(a, b)
      decreases |a| - i + |b| - j
    {
      MergeStep(a, b, i, j, out);
      if a[i] == b[j] {
        out := out + [a[i]];
        i, j := i + 1, j + 1;
      } else if Less(a[i], b[j]) {
        out := out + [a[i]];
        i := i + 1;
      } else {
        out := out + [b[j]];
        j := j + 1;
      }
    }
    assert a[i..] + b[j..] == Merge(a[i..], b[j..]);
    assert out + (a[i..] + b[j..]) == out + a[i..] + b[j..];
    out := out + a[i..];
    out := out + b[j..];
    MergeElements(a, b);
    MergeSortedIff(a, b);
  }

  lemma MergeStep(a: seq<string>, b: seq<string>, i: nat, j: nat, out: seq<string>)
    requires i < |a| && j < |b|
    ensures out + Merge(a[i..], b[j..]) ==
            if a[i] == b[j] then (out + [a[i]]) + Merge(a[i + 1..], b[j + 1..])
            else if Less(a[i], b[j]) then (out + [a[i]]) + Merge(a[i + 1..], b[j..])
            else (out + [b[j]]) + Merge(a[i..], b[j + 1..])
  {
  }

  lemma {:induction false} MergeElements(a: seq<string>, b: seq<string>)
    ensures forall x :: x in Merge(a, b) <==> x in a || x in b
    decreases |a| + |b|
  {
    if a != [] && b != [] {
      assert a == [a[0]] + a[1..] && b == [b[0]] + b[1..];
      if a[0] == b[0] {
        MergeElements(a[1..], b[1..]);
      } else if Less(a[0], b[0]) {
        MergeElements(a[1..], b);
      } else {
        MergeElements(a, b[1..]);
      }
    }
  }

  /** A list is sorted exactly when its head is below the rest and the rest is sorted. */
  lemma SortedCons(h: string, t: seq<string>)
    ensures StrictlySorted([h] + t) <==> StrictlySorted(t) && forall x | x in t :: Less(h, x)
  {
    if StrictlySorted([h] + t) {
      SortedTail(h, t);
    }
    if StrictlySorted(t) && forall x | x in t :: Less(h, x) {
      var s := [h] + t;
      forall i, j | 0 <= i < j < |s|
        ensures Less(s[i], s[j])
      {
        assert s[j] == t[j - 1];
        if i > 0 {
          assert s[i] == t[i - 1];
        }
      }
    }
  }

  lemma SortedTail(h: string, t: seq<string>)
    requires StrictlySorted([h] + t)
    ensures StrictlySorted(t) && forall x | x in t :: Less(h, x)
  {
    var s := [h] + t;
    forall i | 0 <= i < |t|
      ensures Less(h, t[i]) && t[i] == s[i + 1]
    {
      assert Less(s[0], s[i + 1]);
    }
  }

  lemma {:induction false} AllBelow(lo: string, h: string, s: seq<string>)
    requires Less(lo, h) && s != [] && s[0] == h && StrictlySorted(s)
    ensures forall x | x in s :: Less(lo, x)
  {
    forall x | x in s
      ensures Less(lo, x)
    {
      var i :| 0 <= i < |s| && s[i] == x;
      if i > 0 {
        LessTransitive(lo, h, x);
      }
    }
  }

  /** The merge is sorted and free of duplicates exactly when both of its inputs are. */
  lemma {:induction false} MergeSortedIff(a: seq<string>, b: seq<string>)
    ensures StrictlySorted(Merge(a, b)) <==> StrictlySorted(a) && StrictlySorted(b)
    decreases |a| + |b|
  {
    if a != [] && b != [] {
      var x, y := a[0], b[0];
      assert a == [x] + a[1..] && b == [y] + b[1..];
      SortedCons(x, a[1..]);
      SortedCons(y, b[1..]);
      if x == y {
        MergeSortedIff(a[1..], b[1..]);
        MergeElements(a[1..], b[1..]);
        SortedCons(x, Merge(a[1..], b[1..]));
      } else if Less(x, y) {
        MergeSortedIff(a[1..], b);
        MergeElements(a[1..], b);
        SortedCons(x, Merge(a[1..], b));
        if StrictlySorted(b) {
          AllBelow(x, y, b);
        }
      } else {
        LessTotal(x, y);
        MergeSortedIff(a, b[1..]);
        MergeElements(a, b[1..]);
        SortedCons(y, Merge(a, b[1..]));
        if StrictlySorted(a) {
          AllBelow(y, x, a);
        }
      }
    }
  }

  /** The schema of a name after points with these key lists: the first is pinned, the others widen it. */
  function SchemaAfter(lists: seq<seq<string>>): (schema: seq<string>)
    requires lists != []
  {
    if |lists| == 1 then lists[0] else Merge(SchemaAfter(lists[..|lists| - 1]), lists[|lists| - 1])
  }

  /** However often it is widened, a schema is sorted and free of duplicates if and only if every key list was. */
  lemma {:induction false} SchemaSortedIff(lists: seq<seq<string>>)
    requires lists != []
    ensures StrictlySorted(SchemaAfter(lists)) <==> forall i | 0 <= i < |lists| :: StrictlySorted(lists[i])
  {
    if |lists| > 1 {
      var n := |lists| - 1;
      SchemaSortedIff(lists[..n]);
      MergeSortedIff(SchemaAfter(lists[..n]), lists[n]);
      assert forall i | 0 <= i < n :: lists[..n][i] == lists[i];
    }
  }

  // ---------- alignment onto a schema ----------

  /** The value `coerceToSchema`'s inner loop finds for `k`: that of the first equal key, else "". */
  function Lookup(keys: seq<string>, vals: seq<string>, k: string): (v: string)
    requires |keys| == |vals|
  {
    if keys == [] then "" else if keys[0] == k then vals[0] else Lookup(keys[1..], vals[1..], k)
  }

  /** The labels a key list and a value list stand for; an empty value is no label. */
  function LabelsOf(keys: seq<string>, vals: seq<string>): (m: map<string, string>)
    requires |keys| == |vals|
  {
    map k | k in keys && Lookup(keys, vals, k) != "" :: Lookup(keys, vals, k)
  }

  /** The value list of `labels` on a schema. */
  function Align(schema: seq<string>, labels: map<string, string>): (vals: seq<string>)
    ensures |vals| == |schema|
    ensures forall i | 0 <= i < |schema| :: vals[i] == if schema[i] in labels then labels[schema[i]] else ""
  {
    seq(|schema|, i requires 0 <= i < |schema| => if schema[i] in labels then labels[schema[i]] else "")
  }

  lemma {:induction false} LookupAbsent(keys: seq<string>, vals: seq<string>, k: string)
    requires |keys| == |vals| && k !in keys
    ensures Lookup(keys, vals, k) == ""
  {
    if keys != [] {
      LookupAbsent(keys[1..], vals[1..], k);
    }
  }

  lemma {:induction false} LookupAt(keys: seq<string>, vals: seq<string>, i: nat)
    requires |keys| == |vals| && StrictlySorted(keys) && i < |keys|
    ensures Lookup(keys, vals, keys[i]) == vals[i]
  {
    if i > 0 {
      if keys[0] == keys[i] {
        StrictlySortedDistinct(keys, 0, i);
      }
      LookupAt(keys[1..], vals[1..], i - 1);
    }
  }

  method CoerceToSchema(schema: seq<string>, keys: seq<string>, vals: seq<string>) returns (out: seq<string>)
    requires |keys| == |vals|
    ensures StrictlySorted(keys) ==> out == Align(schema, LabelsOf(keys, vals))
  {
    if schema == keys {
      if StrictlySorted(keys) {
        forall i | 0 <= i < |keys|
          ensures vals[i] == Align(schema, LabelsOf(keys, vals))[i]
        {
          LookupAt(keys, vals, i);
        }
      }
      return vals;
    }
    out := [];
    for i := 0 to |schema|
      invariant |out| == i
      invariant forall n | 0 <= n < i :: out[n] == Lookup(keys, vals, schema[n])
    {
      var v, j := "", 0;
      while j < |keys|
        invariant 0 <= j <= |keys|
        invariant v == "" && Lookup(keys, vals, schema[i]) == Lookup(keys[j..], vals[j..], schema[i])
      {
        assert keys[j..][1..] == keys[j + 1..] && vals[j..][1..] == vals[j + 1..];
        if keys[j] == schema[i] {
          v := vals[j];
          break;
        }
        j := j + 1;
      }
      out := out + [v];
    }
    forall i | 0 <= i < |schema|
      ensures out[i] == Align(schema, LabelsOf(keys, vals))[i]
    {
      if schema[i] !in keys {
        LookupAbsent(keys, vals, schema[i]);
      }
    }
  }

  /** Reading labels off their own alignment gives them back. */
  lemma LabelsOfAlign(schema: seq<string>, labels: map<string, string>)
    requires StrictlySorted(schema) && (forall k | k in labels :: k in schema && labels[k] != "")
    ensures LabelsOf(schema, Align(schema, labels)) == labels
  {
    var vals := Align(schema, labels);
    forall k | k in schema
      ensures Lookup(schema, vals, k) == if k in labels then labels[k] else ""
    {
      var i :| 0 <= i < |schema| && schema[i] == k;
      LookupAt(schema, vals, i);
    }
  }

  /** And aligning the labels of aligned values gives the values back. */
  lemma AlignOfLabels(schema: seq<string>, vals: seq<string>)
    requires StrictlySorted(schema) && |vals| == |schema|
    ensures Align(schema, LabelsOf(schema, vals)) == vals
  {
    forall i | 0 <= i < |schema|
      ensures Align(schema, LabelsOf(schema, vals))[i] == vals[i]
    {
      LookupAt(schema, vals, i);
    }
  }

  /** Why the condition on the keys is needed.  Two allowed attribute keys can change places when they are
      renamed, since the list is sorted before that ... */
  lemma RenamingCanUnsort()
    ensures Forwardable("tcp..") && Forwardable("tcp.0")
    ensures Less("tcp..", "tcp.0")
    ensures PromName("tcp..") == "tcp__" && PromName("tcp.0") == "tcp_0"
    ensures Less("tcp_0", "tcp__")
  {
    assert FORWARD_PREFIXES[3] == "tcp.";
    assert ProperPrefix("tcp.", "tcp..") && ProperPrefix("tcp.", "tcp.0");
    LessTail("tcp", "..", ".0");
    assert Less("..", ".0");
    LessTail("tcp_", "0", "_");
  }

  /** ... and a later event with only the smaller one then widens the schema to a list that has it twice. */
  lemma WideningCanDuplicate(x: string, y: string)
    requires Less(x, y)
    ensures Merge([y, x], [x]) == [x, y, x]
  {
    LessTotal(x, y);
    LessTotal(x, x);
    var a, b := [y, x], [x];
    assert Merge(a, b[1..]) == a;
  }

  lemma {:induction false} LessTail(p: string, a: string, b: string)
    requires Less(a, b)
    ensures Less(p + a, p + b)
  {
    if p == "" {
      assert p + a == a && p + b == b;
    } else {
      assert (p + a)[1..] == p[1..] + a && (p + b)[1..] == p[1..] + b;
      LessTail(p[1..], a, b);
    }
  }
}
