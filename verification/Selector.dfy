/** Kubernetes label selectors as PromQL matchers (`promMatchersFromSelector` in custommetrics.go). */
module Selector {
  import opened Prelude
  import Labels

  /** A stored series: its labels.  To PromQL an absent label has the empty value. */
  type Series = map<string, string>

  function Value(s: Series, key: string): (v: string) {
    if key in s then s[key] else ""
  }

  predicate NoEmptyLabels(s: Series) {
    forall k | k in s :: s[k] != ""
  }

  // ---------- Kubernetes ----------

  datatype Operator = Equals | DoubleEquals | NotEquals | In | NotIn | Exists | DoesNotExist | GreaterThan | LessThan

  /** A requirement as `labels.Parse` delivers it. */
  datatype Requirement = Requirement(key: string, op: Operator, vals: seq<string>)

  predicate Comparison(op: Operator) {
    op in {Equals, DoubleEquals, NotEquals}
  }

  predicate Membership(op: Operator) {
    op in {In, NotIn}
  }

  /** What the parser guarantees about the number of values. */
  predicate WellFormed(r: Requirement) {
    (Comparison(r.op) ==> |r.vals| == 1) && (Membership(r.op) ==> r.vals != [])
  }

  /** `Requirement.Matches`, on the stored name of the key.  Numeric comparison is not expressible and stays open. */
  predicate Holds(r: Requirement, s: Series) {
    var key := Stored(r.key);
    match r.op
    case Exists => key in s
    case DoesNotExist => key !in s
    case Equals => key in s && s[key] in r.vals
    case DoubleEquals => key in s && s[key] in r.vals
    case In => key in s && s[key] in r.vals
    case NotEquals => key !in s || s[key] !in r.vals
    case NotIn => key !in s || s[key] !in r.vals
    case _ => false
  }

  /** Dotted names are aliases of the stored ones. */
  function Stored(key: string): (k: string)
    ensures |k| == |key| && forall i | 0 <= i < |key| :: k[i] == if key[i] == '.' then '_' else key[i]
  {
    if key == "" then "" else [if key[0] == '.' then '_' else key[0]] + Stored(key[1..])
  }

  predicate NameStart(c: char) {
    'a' <= c <= 'z' || 'A' <= c <= 'Z' || c == '_'
  }

  predicate LegalName(k: string) {
    k != "" && NameStart(k[0]) && forall i | 0 < i < |k| :: NameStart(k[i]) || '0' <= k[i] <= '9'
  }

  /** A label name is a metric name without colons: what renaming leaves as it is. */
  lemma LegalNameIff(k: string)
    ensures LegalName(k) <==> k != "" && Labels.PromName(k) == k && ':' !in k
  {
    var r := Labels.PromName(k);
    if k != "" && r == k && ':' !in k {
      forall i | 0 <= i < |k|
        ensures NameStart(k[i]) || (i > 0 && '0' <= k[i] <= '9')
      {
        assert Labels.PromChar(r[i], i) && k[i] != ':';
      }
    }
    if LegalName(k) {
      forall i | 0 <= i < |k|
        ensures r[i] == k[i] && k[i] != ':'
      {
        assert i > 0 ==> NameStart(k[i]) || '0' <= k[i] <= '9';
        assert Labels.PromChar(k[i], i);
      }
    }
  }

  // ---------- PromQL ----------

  datatype MatchOp = Eq | Neq | Re | NotRe

  datatype Matcher = Matcher(key: string, op: MatchOp, arg: string)

  /** The characters that `regexp.QuoteMeta` escapes. */
  predicate Meta(c: char) {
    || c == '\\' || c == '.' || c == '+' || c == '*' || c == '?' || c == '(' || c == ')' || c == '|'
    || c == '[' || c == ']' || c == '{' || c == '}' || c == '^' || c == '$'
  }

  function Escaped(c: char): (q: string) {
    if Meta(c) then ['\\', c] else [c]
  }

  /** `regexp.QuoteMeta`. */
  function Quote(v: string): (q: string) {
    if v == "" then "" else Escaped(v[0]) + Quote(v[1..])
  }

  /** `strings.Join(quoted, "|")`. */
  function JoinBar(vs: seq<string>): (s: string) {
    if vs == [] then "" else if |vs| == 1 then vs[0] else vs[0] + "|" + JoinBar(vs[1..])
  }

  function Quoted(vals: seq<string>): (qs: seq<string>)
    ensures |qs| == |vals| && forall i | 0 <= i < |vals| :: qs[i] == Quote(vals[i])
  {
    seq(|vals|, i requires 0 <= i < |vals| => Quote(vals[i]))
  }

  /** The regular expressions of the fragment used here: alternatives of literal characters, metacharacters escaped.
      Reading one with `seen` already read of the current alternative; `None` is outside the fragment. */
  function Alternatives(p: string, seen: string): (r: Option<seq<string>>) {
    if p == "" then Some([seen])
    else if p[0] == '\\' then
      if |p| > 1 && Meta(p[1]) then Alternatives(p[2..], seen + [p[1]]) else None
    else if p[0] == '|' then
      var rest := Alternatives(p[1..], "");
      if rest.None? then None else Some([seen] + rest.value)
    else if Meta(p[0]) then None
    else Alternatives(p[1..], seen + [p[0]])
  }

  /** PromQL anchors its regular expressions at both ends. */
  predicate RegexMatches(pattern: string, v: string) {
    var alts := Alternatives(pattern, "");
    alts.Some? && v in alts.value
  }

  predicate Selects(m: Matcher, s: Series) {
    var v := Value(s, m.key);
    match m.op
    case Eq => v == m.arg
    case Neq => v != m.arg
    case Re => RegexMatches(m.arg, v)
    case NotRe => !RegexMatches(m.arg, v)
  }

  // ---------- quoting is undone ----------

  /** Reading one escaped character. */
  lemma EscapedReadsBack(c: char, rest: string, seen: string)
    ensures Alternatives(Escaped(c) + rest, seen) == Alternatives(rest, seen + [c])
  {
    var p := Escaped(c) + rest;
    if Meta(c) {
      assert p[2..] == rest;
    } else {
      assert p[1..] == rest;
    }
  }

  lemma {:induction false} QuoteReadsBack(v: string, rest: string, seen: string)
    ensures Alternatives(Quote(v) + rest, seen) == Alternatives(rest, seen + v)
  {
    if v == "" {
      assert Quote(v) + rest == rest && seen + v == seen;
    } else {
      var tail := Quote(v[1..]) + rest;
      assert Quote(v) + rest == Escaped(v[0]) + tail;
      EscapedReadsBack(v[0], tail, seen);
      QuoteReadsBack(v[1..], rest, seen + [v[0]]);
      assert seen + [v[0]] + v[1..] == seen + v;
    }
  }

  lemma BarReadsBack(v: string, rest: string, vals: seq<string>)
    requires Alternatives(rest, "") == Some(vals)
    ensures Alternatives(Quote(v) + ("|" + rest), "") == Some([v] + vals)
  {
    QuoteReadsBack(v, "|" + rest, "");
    assert ("|" + rest)[1..] == rest && "" + v == v;
  }

  lemma JoinBarCons(vals: seq<string>)
    requires |vals| > 1
    ensures JoinBar(Quoted(vals)) == Quote(vals[0]) + ("|" + JoinBar(Quoted(vals[1..])))
  {
    assert Quoted(vals)[1..] == Quoted(vals[1..]);
  }

  /** The alternation stands for exactly the listed values, whatever characters they contain. */
  lemma {:induction false} AlternationReadsBack(vals: seq<string>)
    requires vals != []
    ensures Alternatives(JoinBar(Quoted(vals)), "") == Some(vals)
  {
    if |vals| == 1 {
      OneReadsBack(vals[0]);
      assert Quoted(vals) == [Quote(vals[0])] && vals == [vals[0]];
    } else {
      AlternationReadsBack(vals[1..]);
      BarReadsBack(vals[0], JoinBar(Quoted(vals[1..])), vals[1..]);
      JoinBarCons(vals);
      assert vals == [vals[0]] + vals[1..];
    }
  }

  lemma OneReadsBack(v: string)
    ensures Alternatives(Quote(v), "") == Some([v])
  {
    QuoteReadsBack(v, "", "");
    assert Quote(v) + "" == Quote(v) && "" + v == v;
  }

  // ---------- one requirement ----------

  /** The matcher for a requirement, if there is one. */
  function Translate(r: Requirement): (m: Option<Matcher>)
    requires WellFormed(r)
  {
    var key := Stored(r.key);
    if !LegalName(key) then None else
    match r.op
    case Equals => Some(Matcher(key, Eq, r.vals[0]))
    case DoubleEquals => Some(Matcher(key, Eq, r.vals[0]))
    case NotEquals => Some(Matcher(key, Neq, r.vals[0]))
    case In => Some(Matcher(key, Re, JoinBar(Quoted(r.vals))))
    case NotIn => Some(Matcher(key, NotRe, JoinBar(Quoted(r.vals))))
    case Exists => Some(Matcher(key, Neq, ""))
    case DoesNotExist => Some(Matcher(key, Eq, ""))
    case _ => None
  }

  /** The matcher selects the series the requirement holds of. */
  ghost predicate Faithful(r: Requirement, m: Matcher) {
    forall s: Series | NoEmptyLabels(s) :: Selects(m, s) <==> Holds(r, s)
  }

  lemma SelectsIff(r: Requirement, s: Series)
    requires WellFormed(r) && Translate(r).Some? && NoEmptyLabels(s)
    requires !((Comparison(r.op) || Membership(r.op)) && "" in r.vals)
    ensures Selects(Translate(r).value, s) <==> Holds(r, s)
  {
    if Membership(r.op) {
      AlternationReadsBack(r.vals);
    }
  }

  lemma AbsentDiffers(r: Requirement)
    requires WellFormed(r) && Translate(r).Some? && (Comparison(r.op) || Membership(r.op)) && "" in r.vals
    ensures Selects(Translate(r).value, map[]) != Holds(r, map[])
  {
    if Membership(r.op) {
      AlternationReadsBack(r.vals);
    } else {
      assert r.vals[0] == "";
    }
  }

  /** A translated requirement selects exactly the right series, unless an empty value is asked for: that one also
      stands for an absent label. */
  lemma FaithfulIff(r: Requirement)
    requires WellFormed(r) && Translate(r).Some?
    ensures Faithful(r, Translate(r).value) <==> !((Comparison(r.op) || Membership(r.op)) && "" in r.vals)
  {
    if (Comparison(r.op) || Membership(r.op)) && "" in r.vals {
      AbsentDiffers(r);
      var empty: Series := map[];
      assert NoEmptyLabels(empty);
    } else {
      forall s: Series | NoEmptyLabels(s)
        ensures Selects(Translate(r).value, s) <==> Holds(r, s)
      {
        SelectsIff(r, s);
      }
    }
  }

  // ---------- the whole selector ----------

  predicate HoldAll(rs: seq<Requirement>, s: Series) {
    forall i | 0 <= i < |rs| :: Holds(rs[i], s)
  }

  predicate SelectAll(ms: seq<Matcher>, s: Series) {
    forall i | 0 <= i < |ms| :: Selects(ms[i], s)
  }

  /** No requirement asks for an empty value. */
  predicate NoEmptyValues(rs: seq<Requirement>) {
    forall i | 0 <= i < |rs| :: !((Comparison(rs[i].op) || Membership(rs[i].op)) && "" in rs[i].vals)
  }

  /** `promMatchersFromSelector`: it refuses just if some key is no label name or some operator is numeric, and
      otherwise gives one matcher for each requirement. */
  method PromMatchers(rs: seq<Requirement>) returns (ms: Option<seq<Matcher>>)
    requires forall i | 0 <= i < |rs| :: WellFormed(rs[i])
    ensures ms.None? <==>
            exists i :: 0 <= i < |rs| && (!LegalName(Stored(rs[i].key)) || rs[i].op in {GreaterThan, LessThan})
    ensures ms.Some? ==> |ms.value| == |rs| && forall i | 0 <= i < |rs| :: Translate(rs[i]) == Some(ms.value[i])
  {
    var out: seq<Matcher> := [];
    for i := 0 to |rs|
      invariant |out| == i && forall j | 0 <= j < i :: Translate(rs[j]) == Some(out[j])
    {
      var r := rs[i];
      var key := Stored(r.key);
      if !LegalName(key) {
        return None;
      }
      var m;
      match r.op {
        case Equals => m := Matcher(key, Eq, r.vals[0]);
        case DoubleEquals => m := Matcher(key, Eq, r.vals[0]);
        case NotEquals => m := Matcher(key, Neq, r.vals[0]);
        case In =>
          var alternation := Alternation(r.vals);
          m := Matcher(key, Re, alternation);
        case NotIn =>
          var alternation := Alternation(r.vals);
          m := Matcher(key, NotRe, alternation);
        case Exists => m := Matcher(key, Neq, "");
        case DoesNotExist => m := Matcher(key, Eq, "");
        case _ => return None;
      }
      out := out + [m];
    }
    return Some(out);
  }

  method Alternation(vals: seq<string>) returns (s: string)
    ensures s == JoinBar(Quoted(vals))
  {
    var quoted: seq<string> := [];
    for i := 0 to |vals|
      invariant quoted == Quoted(vals)[..i]
    {
      quoted := quoted + [Quote(vals[i])];
    }
    assert quoted == Quoted(vals);
    s := JoinBar(quoted);
  }

  /** A selector without empty values is refused, or its matchers select exactly the series it matches. */
  lemma SelectorFaithful(rs: seq<Requirement>, ms: seq<Matcher>, s: Series)
    requires forall i | 0 <= i < |rs| :: WellFormed(rs[i])
    requires |ms| == |rs| && forall i | 0 <= i < |rs| :: Translate(rs[i]) == Some(ms[i])
    requires NoEmptyValues(rs) && NoEmptyLabels(s)
    ensures SelectAll(ms, s) <==> HoldAll(rs, s)
  {
    forall i | 0 <= i < |rs|
      ensures Selects(ms[i], s) <==> Holds(rs[i], s)
    {
      SelectsIff(rs[i], s);
    }
  }

  /** With an empty value it can go wrong: `a=""` matches no series in Kubernetes, and every series without `a` here. */
  lemma EmptyValueMisread()
    ensures var r := Requirement("a", Equals, [""]);
            && WellFormed(r) && Translate(r) == Some(Matcher("a", Eq, ""))
            && var s: Series := map["b" := "x"];
            NoEmptyLabels(s) && !Holds(r, s) && Selects(Matcher("a", Eq, ""), s)
  {
    assert Stored("a") == "a";
  }
}
