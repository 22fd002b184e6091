/** The string key under which an alert rule's state is remembered. */
module RuleKey {

  datatype Op = GreaterThan | LessThan

  /** `window` is the evaluation window; it is not part of the key. */
  datatype Rule = Rule(host: string, name: string, op: Op, threshold: real, window: int)

  /** The shortest printed form of a number. */
  type Printer = real -> string

  /** A printer that gives different thresholds in use different texts, none with a slash. */
  ghost predicate Faithful(print_: Printer, inUse: set<real>) {
    && (forall x, y :: x in inUse && y in inUse && print_(x) == print_(y) ==> x == y)
    && (forall x :: x in inUse ==> '/' !in print_(x))
  }

  function OpText(op: Op): string {
    match op
    case GreaterThan => ">"
    case LessThan => "<"
  }

  /** host/name/op/threshold */
  function KeyOf(print_: Printer, r: Rule): string {
    ((r.host + "/" + r.name) + "/" + OpText(r.op)) + "/" + print_(r.threshold)
  }

  predicate IsLastSlash(s: string, i: nat) {
    i < |s| && s[i] == '/' && forall k :: i < k < |s| ==> s[k] != '/'
  }

  lemma JoinedAtLastSlash(a: string, u: string)
    requires '/' !in u
    ensures IsLastSlash(a + "/" + u, |a|)
  {
  }

  /** The last slash splits a text in only one way. */
  lemma LastSlash(a: string, u: string, b: string, v: string)
    requires '/' !in u && '/' !in v
    requires a + "/" + u == b + "/" + v
    ensures a == b && u == v
  {
    var s, s' := a + "/" + u, b + "/" + v;
    JoinedAtLastSlash(a, u);
    JoinedAtLastSlash(b, v);
    assert |a| == |b|;
    assert s[..|a|] == a && s'[..|b|] == b;
    assert s[|a| + 1..] == u && s'[|b| + 1..] == v;
  }

  /** Two rules share a key exactly when host/name, operator and threshold agree; the window plays no part. */
  lemma SameKeyIff(print_: Printer, a: Rule, b: Rule)
    requires Faithful(print_, {a.threshold, b.threshold})
    ensures KeyOf(print_, a) == KeyOf(print_, b) <==>
            a.host + "/" + a.name == b.host + "/" + b.name && a.op == b.op && a.threshold == b.threshold
  {
    var ha, hb := a.host + "/" + a.name, b.host + "/" + b.name;
    if KeyOf(print_, a) == KeyOf(print_, b) {
      LastSlash(ha + "/" + OpText(a.op), print_(a.threshold), hb + "/" + OpText(b.op), print_(b.threshold));
      LastSlash(ha, OpText(a.op), hb, OpText(b.op));
    }
  }

  /** Metric names have no slash: then the key determines host, name, operator and threshold, whatever the hosts are. */
  lemma KeyDeterminesRule(print_: Printer, a: Rule, b: Rule)
    requires Faithful(print_, {a.threshold, b.threshold}) && '/' !in a.name && '/' !in b.name
    ensures KeyOf(print_, a) == KeyOf(print_, b) <==> a.(window := 0) == b.(window := 0)
  {
    SameKeyIff(print_, a, b);
    if a.host + "/" + a.name == b.host + "/" + b.name {
      LastSlash(a.host, a.name, b.host, b.name);
    }
  }

  /** A slash in one of the names can make rules of different hosts share a key. */
  lemma SlashInNameCollides(print_: Printer, host: string, mid: string, name: string, op: Op, x: real)
    ensures KeyOf(print_, Rule(host + "/" + mid, name, op, x, 0)) ==
            KeyOf(print_, Rule(host, mid + "/" + name, op, x, 0))
  {
  }
}
