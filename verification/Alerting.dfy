/** The threshold evaluator: remembered alert states and the events their changes cause. */
module Alerting {
  import opened Common
  import opened RuleKey

  /** The key a rule's state is remembered under. */
  type Keying = Rule -> string

  datatype AlertState = Firing | Quiet

  datatype Alert = Alert(rule: Rule, state: AlertState, updatedAt: int, value: real)

  datatype EventKind = FiringEvent | ResolvedEvent

  datatype Event = Event(kind: EventKind, rule: Rule, value: real, at: int)

  /** The remembered states, and the events decided so far in the order of the state swaps. */
  datatype Memory = Memory(state: map<string, Alert>, events: seq<Event>)

  const EMPTY := Memory(map[], [])

  // ----- one observation -----

  /** The event a new state causes, given what was remembered under its key. */
  function Announce(before: Option<Alert>, a: Alert): seq<Event> {
    if before == None || before.value.state != a.state then
      if a.state == Firing then [Event(FiringEvent, a.rule, a.value, a.updatedAt)]
      else if before != None && before.value.state == Firing then [Event(ResolvedEvent, a.rule, a.value, a.updatedAt)]
      else []
    else []
  }

  function Remembered(m: Memory, key: string): Option<Alert> {
    if key in m.state then Some(m.state[key]) else None
  }

  function Observe(k: Keying, m: Memory, a: Alert): Memory {
    var key := k(a.rule);
    Memory(m.state[key := a], m.events + Announce(Remembered(m, key), a))
  }

  function ObserveAll(k: Keying, m: Memory, seen: seq<Alert>): Memory {
    ObserveFirst(k, m, seen, |seen|)
  }

  /** What is remembered after the first `n` observations. */
  function ObserveFirst(k: Keying, m: Memory, seen: seq<Alert>, n: nat): Memory
    requires n <= |seen|
  {
    if n == 0 then m else Observe(k, ObserveFirst(k, m, seen, n - 1), seen[n - 1])
  }

  lemma {:induction false} SameFirst(k: Keying, m: Memory, a: seq<Alert>, b: seq<Alert>, n: nat)
    requires n <= |a| && n <= |b| && forall i :: 0 <= i < n ==> a[i] == b[i]
    ensures ObserveFirst(k, m, a, n) == ObserveFirst(k, m, b, n)
  {
    if n > 0 {
      SameFirst(k, m, a, b, n - 1);
    }
  }

  lemma ObserveLast(k: Keying, m: Memory, seen: seq<Alert>)
    requires seen != []
    ensures ObserveAll(k, m, seen) == Observe(k, ObserveAll(k, m, seen[..|seen| - 1]), seen[|seen| - 1])
  {
    SameFirst(k, m, seen, seen[..|seen| - 1], |seen| - 1);
  }

  // ----- one evaluation pass -----

  datatype Answer = QueryFailed | Points(values: seq<real>)

  /** What a pass learns from outside: the clock, and for each rule the known hosts and the answers to its queries. */
  datatype World = World(now: int, hostLists: seq<Option<seq<string>>>, answers: seq<seq<Answer>>)

  function KnownHosts(w: World, i: nat): Option<seq<string>> {
    if i < |w.hostLists| then w.hostLists[i] else None
  }

  function AnswerTo(w: World, i: nat, j: nat): Answer {
    if i < |w.answers| && j < |w.answers[i]| then w.answers[i][j] else QueryFailed
  }

  function Sum(values: seq<real>): real
    decreases |values|
  {
    if values == [] then 0.0 else Sum(values[..|values| - 1]) + values[|values| - 1]
  }

  function Average(values: seq<real>): real
    requires values != []
  {
    Sum(values) / |values| as real
  }

  function Crosses(r: Rule, mean: real): bool {
    (r.op == GreaterThan && mean > r.threshold) || (r.op == LessThan && mean < r.threshold)
  }

  function HostsFor(r: Rule, known: Option<seq<string>>): seq<string> {
    if r.host != "*" then [r.host] else if known == None then [] else known.value
  }

  /** The alert a host's data makes of a rule; nothing if the query failed or found no data. */
  function Evaluation(r: Rule, host: string, answer: Answer, now: int): seq<Alert> {
    if answer.QueryFailed? || answer.values == [] then []
    else
      var mean := Average(answer.values);
      [Alert(r.(host := host), if Crosses(r, mean) then Firing else Quiet, now, mean)]
  }

  function HostAlerts(r: Rule, i: nat, hosts: seq<string>, w: World, n: nat): seq<Alert>
    requires n <= |hosts|
  {
    if n == 0 then [] else HostAlerts(r, i, hosts, w, n - 1) + Evaluation(r, hosts[n - 1], AnswerTo(w, i, n - 1), w.now)
  }

  function RuleShare(r: Rule, i: nat, w: World): seq<Alert> {
    var hosts := HostsFor(r, KnownHosts(w, i));
    HostAlerts(r, i, hosts, w, |hosts|)
  }

  function RuleAlerts(rules: seq<Rule>, w: World, n: nat): seq<Alert>
    requires n <= |rules|
  {
    if n == 0 then [] else RuleAlerts(rules, w, n - 1) + RuleShare(rules[n - 1], n - 1, w)
  }

  /** Each event goes to every notifier. */
  function Fanout(events: seq<Event>, notifiers: nat): seq<(int, Event)> {
    FlatMap((e: Event) => seq(notifiers, i => (i, e)), events)
  }

  lemma ObserveOne(k: Keying, m: Memory, a: seq<Alert>)
    requires |a| <= 1
    ensures ObserveAll(k, m, a) == if a == [] then m else Observe(k, m, a[0])
  {
    if a != [] {
      ObserveLast(k, m, a);
      assert a[..0] == [];
    }
  }

  lemma ObserveConcat(k: Keying, m: Memory, a: seq<Alert>, b: seq<Alert>)
    ensures ObserveAll(k, m, a + b) == ObserveAll(k, ObserveAll(k, m, a), b)
  {
    SameFirst(k, m, a, a + b, |a|);
    ObserveSecond(k, m, a, b, |b|);
  }

  lemma {:induction false} ObserveSecond(k: Keying, m: Memory, a: seq<Alert>, b: seq<Alert>, n: nat)
    requires n <= |b|
    ensures ObserveFirst(k, m, a + b, |a| + n) == ObserveFirst(k, ObserveFirst(k, m, a + b, |a|), b, n)
  {
    if n > 0 {
      ObserveSecond(k, m, a, b, n - 1);
      assert (a + b)[|a| + n - 1] == b[n - 1];
    }
  }

  /** One more host's evaluation in the fold. */
  lemma FoldHost(k: Keying, start: Memory, r: Rule, i: nat, hosts: seq<string>, w: World, j: nat)
    requires j < |hosts|
    ensures var m := ObserveAll(k, start, HostAlerts(r, i, hosts, w, j));
            var a := Evaluation(r, hosts[j], AnswerTo(w, i, j), w.now);
            ObserveAll(k, start, HostAlerts(r, i, hosts, w, j + 1)) == if a == [] then m else Observe(k, m, a[0])
  {
    var before, a := HostAlerts(r, i, hosts, w, j), Evaluation(r, hosts[j], AnswerTo(w, i, j), w.now);
    ObserveConcat(k, start, before, a);
    ObserveOne(k, ObserveAll(k, start, before), a);
  }

  /** `m` is the fold of the first `i` rules' evaluations. */
  ghost predicate IsFold(k: Keying, start: Memory, rules: seq<Rule>, w: World, i: nat, m: Memory)
    requires i <= |rules|
  {
    m == ObserveAll(k, start, RuleAlerts(rules, w, i))
  }

  lemma FoldStart(k: Keying, start: Memory, rules: seq<Rule>, w: World)
    ensures IsFold(k, start, rules, w, 0, start)
  {
  }

  /** One more rule's share in the fold. */
  lemma FoldRule(k: Keying, start: Memory, rules: seq<Rule>, w: World, i: nat, m: Memory) returns (next: Memory)
    requires i < |rules| && IsFold(k, start, rules, w, i, m)
    ensures next == ObserveAll(k, m, RuleShare(rules[i], i, w)) && IsFold(k, start, rules, w, i + 1, next)
  {
    ObserveConcat(k, start, RuleAlerts(rules, w, i), RuleShare(rules[i], i, w));
    next := ObserveAll(k, m, RuleShare(rules[i], i, w));
  }

  function MeanOf(answer: Answer): real {
    if answer.Points? && answer.values != [] then Average(answer.values) else 0.0
  }

  lemma OneHost(r: Rule, i: nat, host: string, w: World)
    requires HostsFor(r, KnownHosts(w, i)) == [host]
    ensures RuleShare(r, i, w) == Evaluation(r, host, AnswerTo(w, i, 0), w.now)
  {
    var hosts := HostsFor(r, KnownHosts(w, i));
    assert HostAlerts(r, i, hosts, w, 1) ==
           HostAlerts(r, i, hosts, w, 0) + Evaluation(r, hosts[0], AnswerTo(w, i, 0), w.now);
  }

  /**
   Two rules that differ in their windows only, or one for a host and one for all hosts, share a key. If
   one crosses its threshold and the other does not, a single pass announces firing and then resolved.
   */
  lemma SharedKeyInOnePass(k: Keying, a: Rule, b: Rule, host: string, w: World)
    requires k(a.(host := host)) == k(b.(host := host))
    requires HostsFor(a, KnownHosts(w, 0)) == [host] == HostsFor(b, KnownHosts(w, 1))
    requires AnswerTo(w, 0, 0).Points? && AnswerTo(w, 0, 0).values != [] && Crosses(a, MeanOf(AnswerTo(w, 0, 0)))
    requires AnswerTo(w, 1, 0).Points? && AnswerTo(w, 1, 0).values != [] && !Crosses(b, MeanOf(AnswerTo(w, 1, 0)))
    ensures ObserveAll(k, EMPTY, RuleAlerts([a, b], w, 2)).events ==
            [Event(FiringEvent, a.(host := host), MeanOf(AnswerTo(w, 0, 0)), w.now),
             Event(ResolvedEvent, b.(host := host), MeanOf(AnswerTo(w, 1, 0)), w.now)]
  {
    var rules := [a, b];
    OneHost(a, 0, host, w);
    OneHost(b, 1, host, w);
    var x := Alert(a.(host := host), Firing, w.now, MeanOf(AnswerTo(w, 0, 0)));
    var y := Alert(b.(host := host), Quiet, w.now, MeanOf(AnswerTo(w, 1, 0)));
    assert RuleShare(a, 0, w) == [x] && RuleShare(b, 1, w) == [y];
    assert RuleAlerts(rules, w, 1) == RuleAlerts(rules, w, 0) + [x];
    assert RuleAlerts(rules, w, 2) == RuleAlerts(rules, w, 1) + [y];
    ObserveConcat(k, EMPTY, [x], [y]);
    ObserveOne(k, EMPTY, [x]);
    ObserveOne(k, Observe(k, EMPTY, x), [y]);
    assert [x] + [y] == RuleAlerts(rules, w, 2);
  }

  class Evaluator {
    const rules: seq<Rule>
    const notifiers: nat
    /** How rules are turned into keys of `state`. */
    const keys: Keying
    var state: map<string, Alert>
    var sent: seq<(int, Event)>
    ghost var events: seq<Event>

    ghost predicate Valid()
      reads this
    {
      sent == Fanout(events, notifiers)
    }

    ghost function View(): Memory
      reads this
    {
      Memory(state, events)
    }

    constructor (rules: seq<Rule>, notifiers: nat, printer: Printer)
      ensures this.rules == rules && this.notifiers == notifiers
      ensures forall r :: keys(r) == KeyOf(printer, r)
      ensures Valid() && View() == EMPTY
    {
      this.rules, this.notifiers, keys := rules, notifiers, r => KeyOf(printer, r);
      state, sent, events := map[], [], [];
    }

    /** Hands an event to every notifier. */
    method NotifyAll(e: Event)
      requires Valid()
      modifies `sent, `events
      ensures Valid() && events == old(events) + [e]
    {
      ghost var before := sent;
      for i := 0 to notifiers
        invariant sent == before + seq(i, j => (j, e))
        invariant events == old(events)
      {
        sent := sent + [(i, e)];
      }
      FlatMapSnoc((e: Event) => seq(notifiers, i => (i, e)), events, e);
      events := events + [e];
    }

    method Mean(values: seq<real>) returns (mean: real)
      requires values != []
      ensures mean == Average(values)
    {
      var sum := 0.0;
      for i := 0 to |values|
        invariant sum == Sum(values[..i])
      {
        assert values[..i + 1][..i] == values[..i];
        sum := sum + values[i];
      }
      assert values[..|values|] == values;
      mean := sum / |values| as real;
    }

    /** One host's evaluation: swap the remembered state, then announce a change. */
    method EvaluateHost(rule: Rule, host: string, answer: Answer, now: int)
      requires Valid()
      modifies this
      ensures Valid()
      ensures var a := Evaluation(rule, host, answer, now);
              View() == if a == [] then old(View()) else Observe(keys, old(View()), a[0])
    {
      if answer.QueryFailed? {
        return;
      }
      if |answer.values| == 0 {
        return;
      }
      var mean := Mean(answer.values);
      var firing := (rule.op == GreaterThan && mean > rule.threshold) || (rule.op == LessThan && mean < rule.threshold);
      var newState := if firing then Firing else Quiet;
      var key := keys(rule.(host := host));
      var existed := key in state;
      var prev := if existed then state[key].state else Quiet;
      state := state[key := Alert(rule.(host := host), newState, now, mean)];
      if !existed || prev != newState {
        if newState == Firing {
          NotifyAll(Event(FiringEvent, rule.(host := host), mean, now));
        } else if existed && prev == Firing {
          NotifyAll(Event(ResolvedEvent, rule.(host := host), mean, now));
        }
      }
    }

    /** One rule's share of a pass: its hosts in order. */
    method EvaluateRule(i: nat, w: World)
      requires Valid() && i < |rules|
      modifies this
      ensures Valid()
      ensures View() == ObserveAll(keys, old(View()), RuleShare(rules[i], i, w))
    {
      var hosts := HostsFor(rules[i], KnownHosts(w, i));
      ghost var start := View();
      for j := 0 to |hosts|
        invariant Valid()
        invariant View() == ObserveAll(keys, start, HostAlerts(rules[i], i, hosts, w, j))
      {
        FoldHost(keys, start, rules[i], i, hosts, w, j);
        EvaluateHost(rules[i], hosts[j], AnswerTo(w, i, j), w.now);
      }
    }

    /** A pass is the fold of its observations, rule by rule and host by host, over what was remembered. */
    method Evaluate(w: World)
      requires Valid()
      modifies this
      ensures Valid()
      ensures View() == ObserveAll(keys, old(View()), RuleAlerts(rules, w, |rules|))
    {
      hide RuleShare, RuleAlerts, ObserveAll;
      ghost var start := View();
      FoldStart(keys, start, rules, w);
      for i := 0 to |rules|
        invariant Valid()
        invariant IsFold(keys, start, rules, w, i, View())
      {
        ghost var next := FoldRule(keys, start, rules, w, i, View());
        EvaluateRule(i, w);
        assert View() == next;
      }
    }
  }

  // ----- what every run keeps -----

  /** The observations under one key. */
  function ForKey(k: Keying, key: string, seen: seq<Alert>): seq<Alert>
    decreases |seen|
  {
    if seen == [] then []
    else
      var last := seen[|seen| - 1];
      ForKey(k, key, seen[..|seen| - 1]) + if k(last.rule) == key then [last] else []
  }

  /** The events about one key. */
  function EventsFor(k: Keying, key: string, events: seq<Event>): seq<Event> {
    FlatMap((e: Event) => if k(e.rule) == key then [e] else [], events)
  }

  function LastState(seen: seq<Alert>): AlertState {
    if seen == [] then Quiet else seen[|seen| - 1].state
  }

  /** A plain edge detector over one key's observations, quiet to begin with. */
  function Edges(seen: seq<Alert>): seq<Event>
    decreases |seen|
  {
    if seen == [] then []
    else
      var a := seen[|seen| - 1];
      Edges(seen[..|seen| - 1]) +
      if a.state == LastState(seen[..|seen| - 1]) then []
      else [Event(if a.state == Firing then FiringEvent else ResolvedEvent, a.rule, a.value, a.updatedAt)]
  }

  /**
   Whatever is observed in whatever order, each key's events are the edges of its own observations,
   and its remembered alert is its last observation. Other keys play no part.
   */
  lemma {:induction false} KeysAreIndependent(k: Keying, seen: seq<Alert>, key: string)
    ensures EventsFor(k, key, ObserveAll(k, EMPTY, seen).events) == Edges(ForKey(k, key, seen))
    ensures Remembered(ObserveAll(k, EMPTY, seen), key) == Latest(ForKey(k, key, seen))
    decreases |seen|
  {
    hide Announce;
    if seen != [] {
      var init, a := seen[..|seen| - 1], seen[|seen| - 1];
      KeysAreIndependent(k, init, key);
      ObserveLast(k, EMPTY, seen);
      ObserveEvents(k, ObserveAll(k, EMPTY, init), a, key);
      EdgesMore(ForKey(k, key, init), a);
    }
  }

  function Latest(seen: seq<Alert>): Option<Alert> {
    if seen == [] then None else Some(seen[|seen| - 1])
  }

  lemma EdgesMore(mine: seq<Alert>, a: Alert)
    ensures Edges(mine + [a]) == Edges(mine) + Announce(Latest(mine), a)
    ensures Edges(mine + []) == Edges(mine)
  {
    assert (mine + [a])[..|mine|] == mine;
    assert mine + [] == mine;
  }

  /** An observation adds its announcement to its own key's events and nothing to another's. */
  lemma ObserveEvents(k: Keying, m: Memory, a: Alert, key: string)
    ensures EventsFor(k, key, Observe(k, m, a).events) ==
            EventsFor(k, key, m.events) + if k(a.rule) == key then Announce(Remembered(m, key), a) else []
  {
    var news := Announce(Remembered(m, k(a.rule)), a);
    FlatMapConcat((e: Event) => if k(e.rule) == key then [e] else [], m.events, news);
    EventsOfOne(k, key, news, a);
  }

  lemma EventsOfOne(k: Keying, key: string, news: seq<Event>, a: Alert)
    requires |news| <= 1 && (news != [] ==> news[0].rule == a.rule)
    ensures EventsFor(k, key, news) == if k(a.rule) == key then news else []
  {
    if news != [] {
      assert EventsFor(k, key, news[1..]) == [];
    }
  }

  /** Firing first, and then resolved and firing by turns. */
  ghost predicate Alternates(events: seq<Event>) {
    forall i :: 0 <= i < |events| ==> events[i].kind == if i % 2 == 0 then FiringEvent else ResolvedEvent
  }

  lemma {:induction false} EdgesAlternate(seen: seq<Alert>)
    ensures Alternates(Edges(seen))
    ensures |Edges(seen)| % 2 == if LastState(seen) == Firing then 1 else 0
    decreases |seen|
  {
    if seen != [] {
      EdgesAlternate(seen[..|seen| - 1]);
    }
  }

  /**
   Over every run, per key: events alternate, starting with firing, and the last one says firing
   exactly when the remembered state is firing.
   */
  lemma EventsAlternate(k: Keying, seen: seq<Alert>, key: string)
    ensures Alternates(EventsFor(k, key, ObserveAll(k, EMPTY, seen).events))
    ensures IsFiring(ObserveAll(k, EMPTY, seen), key) <==>
            LastIsFiring(EventsFor(k, key, ObserveAll(k, EMPTY, seen).events))
  {
    KeysAreIndependent(k, seen, key);
    EdgesAlternate(ForKey(k, key, seen));
  }

  predicate IsFiring(m: Memory, key: string) {
    Remembered(m, key).Some? && Remembered(m, key).value.state == Firing
  }

  predicate LastIsFiring(events: seq<Event>) {
    events != [] && events[|events| - 1].kind == FiringEvent
  }

  function CountKind(events: seq<Event>, kind: EventKind): nat
    decreases |events|
  {
    if events == [] then 0
    else CountKind(events[..|events| - 1], kind) + if events[|events| - 1].kind == kind then 1 else 0
  }

  lemma {:induction false} AlternatingCounts(events: seq<Event>)
    requires Alternates(events)
    ensures CountKind(events, FiringEvent) - CountKind(events, ResolvedEvent) == |events| % 2
    decreases |events|
  {
    if events != [] {
      AlternatingCounts(events[..|events| - 1]);
    }
  }

  /** Over every run, per key: one more firing than resolved events while the state is firing, else as many. */
  lemma FiringBalance(k: Keying, seen: seq<Alert>, key: string)
    ensures var m := ObserveAll(k, EMPTY, seen); var es := EventsFor(k, key, m.events);
            CountKind(es, FiringEvent) - CountKind(es, ResolvedEvent) == if IsFiring(m, key) then 1 else 0
  {
    KeysAreIndependent(k, seen, key);
    EdgesAlternate(ForKey(k, key, seen));
    AlternatingCounts(Edges(ForKey(k, key, seen)));
  }

  /** A pass touches only the keys it has data for: those get their last observation, no key is lost. */
  lemma {:induction false} PassFrame(k: Keying, m: Memory, seen: seq<Alert>, key: string)
    ensures var m' := ObserveAll(k, m, seen); var mine := ForKey(k, key, seen);
            && Remembered(m', key) == (if mine == [] then Remembered(m, key) else Latest(mine))
            && m.events <= m'.events
            && (mine == [] ==> EventsFor(k, key, m'.events) == EventsFor(k, key, m.events))
    decreases |seen|
  {
    if seen != [] {
      PassFrame(k, m, seen[..|seen| - 1], key);
      ObserveLast(k, m, seen);
      ObserveEvents(k, ObserveAll(k, m, seen[..|seen| - 1]), seen[|seen| - 1], key);
    }
  }

  ghost predicate NoneUnder(k: Keying, key: string, seen: seq<Alert>) {
    forall i :: 0 <= i < |seen| ==> k(seen[i].rule) != key
  }

  lemma {:induction false} NoneForKey(k: Keying, key: string, seen: seq<Alert>)
    requires NoneUnder(k, key, seen)
    ensures ForKey(k, key, seen) == []
    decreases |seen|
  {
    if seen != [] {
      NoneForKey(k, key, seen[..|seen| - 1]);
    }
  }

  /** No query about `key` brings data: every rule and host with that key fails or finds no points. */
  ghost predicate NoDataFor(k: Keying, key: string, rules: seq<Rule>, w: World) {
    forall i, j | 0 <= i < |rules| && 0 <= j < |HostsFor(rules[i], KnownHosts(w, i))| ::
      k(rules[i].(host := HostsFor(rules[i], KnownHosts(w, i))[j])) == key ==>
        AnswerTo(w, i, j).QueryFailed? || AnswerTo(w, i, j).values == []
  }

  lemma {:induction false} NoDataInShare(k: Keying, key: string, rules: seq<Rule>, w: World, i: nat, n: nat)
    requires i < |rules| && NoDataFor(k, key, rules, w)
    requires n <= |HostsFor(rules[i], KnownHosts(w, i))|
    ensures NoneUnder(k, key, HostAlerts(rules[i], i, HostsFor(rules[i], KnownHosts(w, i)), w, n))
  {
    if n > 0 {
      NoDataInShare(k, key, rules, w, i, n - 1);
    }
  }

  lemma {:induction false} NoDataInPass(k: Keying, key: string, rules: seq<Rule>, w: World, n: nat)
    requires n <= |rules| && NoDataFor(k, key, rules, w)
    ensures NoneUnder(k, key, RuleAlerts(rules, w, n))
  {
    if n > 0 {
      NoDataInPass(k, key, rules, w, n - 1);
      NoDataInShare(k, key, rules, w, n - 1, |HostsFor(rules[n - 1], KnownHosts(w, n - 1))|);
    }
  }

  /** A pass leaves a key without data as it was, and announces nothing about it. */
  lemma NoDataNoChange(k: Keying, m: Memory, key: string, rules: seq<Rule>, w: World)
    requires NoDataFor(k, key, rules, w)
    ensures var m' := ObserveAll(k, m, RuleAlerts(rules, w, |rules|));
            && Remembered(m', key) == Remembered(m, key)
            && EventsFor(k, key, m'.events) == EventsFor(k, key, m.events)
  {
    NoDataInPass(k, key, rules, w, |rules|);
    NoneForKey(k, key, RuleAlerts(rules, w, |rules|));
    PassFrame(k, m, RuleAlerts(rules, w, |rules|), key);
  }

  // ----- what the data of a pass decide -----

  /** `Sum` adds up: these two laws leave no other function. */
  lemma SumOne(x: real)
    ensures Sum([x]) == x
  {
    assert [x][..0] == [];
  }

  lemma {:induction false} SumConcat(a: seq<real>, b: seq<real>)
    ensures Sum(a + b) == Sum(a) + Sum(b)
    decreases |b|
  {
    if b == [] {
      assert a + b == a;
    } else {
      assert (a + b)[..|a + b| - 1] == a + b[..|b| - 1];
      SumConcat(a, b[..|b| - 1]);
    }
  }

  ghost predicate AllAbove(values: seq<real>, x: real) {
    forall v :: v in values ==> v > x
  }

  ghost predicate AllBelow(values: seq<real>, x: real) {
    forall v :: v in values ==> v < x
  }

  ghost predicate NoneAbove(values: seq<real>, x: real) {
    forall v :: v in values ==> v <= x
  }

  ghost predicate NoneBelow(values: seq<real>, x: real) {
    forall v :: v in values ==> v >= x
  }

  function Scaled(n: nat, x: real): real {
    n as real * x
  }

  lemma ScaledMore(n: nat, x: real)
    ensures Scaled(0, x) == 0.0 && Scaled(n + 1, x) == Scaled(n, x) + x
  {
  }

  lemma SidesOfInit(values: seq<real>, x: real)
    requires values != []
    ensures var init, last := values[..|values| - 1], values[|values| - 1];
            && (AllAbove(values, x) <==> AllAbove(init, x) && last > x)
            && (AllBelow(values, x) <==> AllBelow(init, x) && last < x)
            && (NoneAbove(values, x) <==> NoneAbove(init, x) && last <= x)
            && (NoneBelow(values, x) <==> NoneBelow(init, x) && last >= x)
  {
    var init, last := values[..|values| - 1], values[|values| - 1];
    assert values == init + [last];
    assert last in values && forall v :: v in values <==> v in init || v == last;
  }

  lemma {:induction false} SumSides(values: seq<real>, x: real)
    ensures NoneAbove(values, x) ==> Sum(values) <= Scaled(|values|, x)
    ensures NoneBelow(values, x) ==> Sum(values) >= Scaled(|values|, x)
    ensures values != [] && AllBelow(values, x) ==> Sum(values) < Scaled(|values|, x)
    ensures values != [] && AllAbove(values, x) ==> Sum(values) > Scaled(|values|, x)
    decreases |values|
  {
    if values != [] {
      SidesOfInit(values, x);
      SumSides(values[..|values| - 1], x);
      ScaledMore(|values| - 1, x);
    } else {
      ScaledMore(0, x);
    }
  }

  lemma AverageScales(values: seq<real>, x: real)
    requires values != []
    ensures Scaled(|values|, Average(values)) == Sum(values)
    ensures Average(values) < x <==> Sum(values) < Scaled(|values|, x)
    ensures Average(values) == x <==> Sum(values) == Scaled(|values|, x)
  {
    var n, a := |values| as real, Average(values);
    assert n * a == Sum(values);
    SameFactor(n, a, x);
  }

  lemma SameFactor(n: real, a: real, b: real)
    requires n > 0.0
    ensures n * a < n * b <==> a < b
    ensures n * a == n * b <==> a == b
  {
    if a < b {
      assert n * (b - a) > 0.0;
    } else if a > b {
      assert n * (a - b) > 0.0;
    }
  }

  /** What data on one side of a rule's threshold mean for its state. */
  ghost predicate Decides(r: Rule, values: seq<real>, state: AlertState) {
    && (r.op == GreaterThan && AllAbove(values, r.threshold) ==> state == Firing)
    && (r.op == GreaterThan && NoneAbove(values, r.threshold) ==> state == Quiet)
    && (r.op == LessThan && AllBelow(values, r.threshold) ==> state == Firing)
    && (r.op == LessThan && NoneBelow(values, r.threshold) ==> state == Quiet)
    && (Sum(values) == Scaled(|values|, r.threshold) ==> state == Quiet)
  }

  lemma EvaluationDecides(r: Rule, host: string, values: seq<real>, now: int)
    requires values != []
    ensures var seen := Evaluation(r, host, Points(values), now);
            && |seen| == 1 && seen[0].rule == r.(host := host) && seen[0].updatedAt == now
            && Decides(r, values, seen[0].state)
            && Scaled(|values|, seen[0].value) == Sum(values)
  {
    SumSides(values, r.threshold);
    AverageScales(values, r.threshold);
  }

  /** The `j`-th host of a rule: the one it names, or the `j`-th known host for a rule about all hosts. */
  predicate IsHost(r: Rule, known: Option<seq<string>>, j: nat, host: string) {
    if r.host == "*" then known != None && j < |known.value| && known.value[j] == host
    else j == 0 && r.host == host
  }

  predicate HasData(w: World, i: nat, j: nat) {
    AnswerTo(w, i, j).Points? && AnswerTo(w, i, j).values != []
  }

  /** Rule `i` has data under `key` for its `j`-th host, and no later evaluation of the pass has. */
  ghost predicate LastData(k: Keying, key: string, rules: seq<Rule>, w: World, i: nat, j: nat, host: string) {
    && i < |rules| && IsHost(rules[i], KnownHosts(w, i), j, host)
    && k(rules[i].(host := host)) == key && HasData(w, i, j)
    && forall i', j', host' |
         i <= i' < |rules| && (i' == i ==> j < j') && IsHost(rules[i'], KnownHosts(w, i'), j', host') ::
         k(rules[i'].(host := host')) == key ==> !HasData(w, i', j')
  }

  lemma HostsForMeans(r: Rule, known: Option<seq<string>>, j: nat, host: string)
    ensures IsHost(r, known, j, host) <==> j < |HostsFor(r, known)| && HostsFor(r, known)[j] == host
  {
  }

  lemma {:induction false} ForKeyConcat(k: Keying, key: string, a: seq<Alert>, b: seq<Alert>)
    ensures ForKey(k, key, a + b) == ForKey(k, key, a) + ForKey(k, key, b)
    decreases |b|
  {
    if b == [] {
      assert a + b == a;
    } else {
      ForKeyConcat(k, key, a, b[..|b| - 1]);
      assert (a + b)[..|a + b| - 1] == a + b[..|b| - 1];
    }
  }

  lemma ForKeyOne(k: Keying, key: string, a: Alert)
    ensures ForKey(k, key, [a]) == if k(a.rule) == key then [a] else []
  {
    assert [a][..0] == [];
  }

  /** The last observation under `key` is `a`. */
  predicate LastIs(k: Keying, key: string, seen: seq<Alert>, a: Alert) {
    Latest(ForKey(k, key, seen)) == Some(a)
  }

  lemma LastIsBehind(k: Keying, key: string, before: seq<Alert>, seen: seq<Alert>, a: Alert)
    requires LastIs(k, key, seen, a)
    ensures LastIs(k, key, before + seen, a)
  {
    ForKeyConcat(k, key, before, seen);
  }

  lemma LastIsBefore(k: Keying, key: string, seen: seq<Alert>, after: seq<Alert>, a: Alert)
    requires LastIs(k, key, seen, a) && ForKey(k, key, after) == []
    ensures LastIs(k, key, seen + after, a)
  {
    ForKeyConcat(k, key, seen, after);
  }

  lemma LastOfOne(k: Keying, key: string, a: Alert)
    requires k(a.rule) == key
    ensures LastIs(k, key, [a], a)
  {
    ForKeyOne(k, key, a);
  }

  /** An evaluation behind the last data brings nothing for the key. */
  lemma NothingLater(k: Keying, key: string, rules: seq<Rule>, w: World, i: nat, j: nat, host: string, i': nat, j': nat)
    requires LastData(k, key, rules, w, i, j, host) && i <= i' < |rules| && (i' == i ==> j < j')
    requires j' < |HostsFor(rules[i'], KnownHosts(w, i'))|
    ensures var host' := HostsFor(rules[i'], KnownHosts(w, i'))[j'];
            ForKey(k, key, Evaluation(rules[i'], host', AnswerTo(w, i', j'), w.now)) == []
  {
    var host' := HostsFor(rules[i'], KnownHosts(w, i'))[j'];
    HostsForMeans(rules[i'], KnownHosts(w, i'), j', host');
    var seen := Evaluation(rules[i'], host', AnswerTo(w, i', j'), w.now);
    if seen != [] {
      ForKeyOne(k, key, seen[0]);
    }
  }

  lemma {:induction false} LastOfRule(
    k: Keying, key: string, rules: seq<Rule>, w: World, i: nat, j: nat, host: string,
    hosts: seq<string>, n: nat, a: Alert)
    requires LastData(k, key, rules, w, i, j, host) && hosts == HostsFor(rules[i], KnownHosts(w, i))
    requires j < n <= |hosts| && hosts[j] == host
    requires Evaluation(rules[i], host, AnswerTo(w, i, j), w.now) == [a] && k(a.rule) == key
    ensures LastIs(k, key, HostAlerts(rules[i], i, hosts, w, n), a)
    decreases n
  {
    var before := HostAlerts(rules[i], i, hosts, w, n - 1);
    if n - 1 == j {
      LastOfOne(k, key, a);
      LastIsBehind(k, key, before, [a], a);
    } else {
      LastOfRule(k, key, rules, w, i, j, host, hosts, n - 1, a);
      NothingLater(k, key, rules, w, i, j, host, i, n - 1);
      LastIsBefore(k, key, before, Evaluation(rules[i], hosts[n - 1], AnswerTo(w, i, n - 1), w.now), a);
    }
  }

  lemma {:induction false} NoneLaterOfRule(
    k: Keying, key: string, rules: seq<Rule>, w: World, i: nat, j: nat, host: string,
    i': nat, hosts: seq<string>, n: nat)
    requires LastData(k, key, rules, w, i, j, host) && i < i' < |rules|
    requires hosts == HostsFor(rules[i'], KnownHosts(w, i')) && n <= |hosts|
    ensures ForKey(k, key, HostAlerts(rules[i'], i', hosts, w, n)) == []
    decreases n
  {
    if n > 0 {
      NoneLaterOfRule(k, key, rules, w, i, j, host, i', hosts, n - 1);
      NothingLater(k, key, rules, w, i, j, host, i', n - 1);
      NoneOfBoth(k, key, HostAlerts(rules[i'], i', hosts, w, n - 1),
                 Evaluation(rules[i'], hosts[n - 1], AnswerTo(w, i', n - 1), w.now));
    }
  }

  lemma NoneOfBoth(k: Keying, key: string, a: seq<Alert>, b: seq<Alert>)
    requires ForKey(k, key, a) == [] == ForKey(k, key, b)
    ensures ForKey(k, key, a + b) == []
  {
    ForKeyConcat(k, key, a, b);
  }

  lemma LastOfShare(k: Keying, key: string, rules: seq<Rule>, w: World, i: nat, j: nat, host: string, a: Alert)
    requires LastData(k, key, rules, w, i, j, host)
    requires Evaluation(rules[i], host, AnswerTo(w, i, j), w.now) == [a] && k(a.rule) == key
    ensures LastIs(k, key, RuleShare(rules[i], i, w), a)
  {
    var hosts := HostsFor(rules[i], KnownHosts(w, i));
    HostsForMeans(rules[i], KnownHosts(w, i), j, host);
    LastOfRule(k, key, rules, w, i, j, host, hosts, |hosts|, a);
  }

  lemma NoneInLaterShare(k: Keying, key: string, rules: seq<Rule>, w: World, i: nat, j: nat, host: string, i': nat)
    requires LastData(k, key, rules, w, i, j, host) && i < i' < |rules|
    ensures ForKey(k, key, RuleShare(rules[i'], i', w)) == []
  {
    var hosts := HostsFor(rules[i'], KnownHosts(w, i'));
    NoneLaterOfRule(k, key, rules, w, i, j, host, i', hosts, |hosts|);
  }

  lemma {:induction false} LastOfPass(
    k: Keying, key: string, rules: seq<Rule>, w: World, i: nat, j: nat, host: string, n: nat, a: Alert)
    requires LastData(k, key, rules, w, i, j, host) && i < n <= |rules|
    requires Evaluation(rules[i], host, AnswerTo(w, i, j), w.now) == [a] && k(a.rule) == key
    ensures LastIs(k, key, RuleAlerts(rules, w, n), a)
    decreases n
  {
    hide RuleShare, ForKey, Evaluation, LastData;
    var before, share := RuleAlerts(rules, w, n - 1), RuleShare(rules[n - 1], n - 1, w);
    if n - 1 == i {
      LastOfShare(k, key, rules, w, i, j, host, a);
      LastIsBehind(k, key, before, share, a);
    } else {
      LastOfPass(k, key, rules, w, i, j, host, n - 1, a);
      NoneInLaterShare(k, key, rules, w, i, j, host, n - 1);
      LastIsBefore(k, key, before, share, a);
    }
  }

  /**
   After a pass, the last data found under a key decide: all above the threshold of a `>` rule, or all
   below that of a `<` rule, and it is firing; none, or a mean at the threshold, and it is not.
   What is remembered is that rule for that host, the mean and the time of the pass.
   */
  lemma PassDecides(k: Keying, m: Memory, rules: seq<Rule>, w: World, i: nat, j: nat, host: string, key: string)
    requires LastData(k, key, rules, w, i, j, host)
    ensures var values := AnswerTo(w, i, j).values;
            var now := Remembered(ObserveAll(k, m, RuleAlerts(rules, w, |rules|)), key);
            && now != None && now.value.rule == rules[i].(host := host) && now.value.updatedAt == w.now
            && Decides(rules[i], values, now.value.state)
            && Scaled(|values|, now.value.value) == Sum(values)
  {
    var a := LastRemembered(k, m, rules, w, i, j, host, key);
    EvaluationDecides(rules[i], host, AnswerTo(w, i, j).values, w.now);
  }

  lemma LastRemembered(k: Keying, m: Memory, rules: seq<Rule>, w: World, i: nat, j: nat, host: string, key: string)
    returns (a: Alert)
    requires LastData(k, key, rules, w, i, j, host)
    ensures Evaluation(rules[i], host, AnswerTo(w, i, j), w.now) == [a]
    ensures Remembered(ObserveAll(k, m, RuleAlerts(rules, w, |rules|)), key) == Some(a)
  {
    a := Evaluation(rules[i], host, AnswerTo(w, i, j), w.now)[0];
    LastOfPass(k, key, rules, w, i, j, host, |rules|, a);
    PassFrame(k, m, RuleAlerts(rules, w, |rules|), key);
  }

  /** Every event tells of an observation: its rule, value and time, firing exactly if that state was. */
  lemma {:induction false} EventsTellOfObservations(k: Keying, seen: seq<Alert>, e: Event)
    requires e in ObserveAll(k, EMPTY, seen).events
    ensures exists a :: a in seen && e.rule == a.rule && e.value == a.value && e.at == a.updatedAt
                        && (e.kind == FiringEvent <==> a.state == Firing)
    decreases |seen|
  {
    if seen != [] {
      var init, a := seen[..|seen| - 1], seen[|seen| - 1];
      ObserveLast(k, EMPTY, seen);
      var m := ObserveAll(k, EMPTY, init);
      if e in m.events {
        EventsTellOfObservations(k, init, e);
      } else {
        assert e in Announce(Remembered(m, k(a.rule)), a);
        assert a in seen && e.rule == a.rule && e.value == a.value && e.at == a.updatedAt;
      }
    }
  }

  // ----- who is told -----

  /** What notifier `i` was handed, in order. */
  function HandedTo(sent: seq<(int, Event)>, i: int): seq<Event> {
    FlatMap((p: (int, Event)) => if p.0 == i then [p.1] else [], sent)
  }

  lemma HandedToConcat(a: seq<(int, Event)>, b: seq<(int, Event)>, i: int)
    ensures HandedTo(a + b, i) == HandedTo(a, i) + HandedTo(b, i)
  {
    FlatMapConcat((p: (int, Event)) => if p.0 == i then [p.1] else [], a, b);
  }

  lemma {:induction false} OneToEach(e: Event, n: nat, i: int)
    ensures HandedTo(seq(n, j => (j, e)), i) == if 0 <= i < n then [e] else []
    decreases n
  {
    if n > 0 {
      var init: seq<(int, Event)> := seq(n - 1, j => (j, e));
      OneToEach(e, n - 1, i);
      assert seq(n, j => (j, e)) == init + [(n - 1, e)];
      HandedToConcat(init, [(n - 1, e)], i);
      HandedToOne(n - 1, e, i);
    }
  }

  lemma HandedToOne(n: int, e: Event, i: int)
    ensures HandedTo([(n, e)], i) == if n == i then [e] else []
  {
    var sent: seq<(int, Event)> := [(n, e)];
    assert sent[1..] == [];
    assert HandedTo(sent, i) == (if n == i then [e] else []) + HandedTo([], i);
  }

  lemma {:induction false} FanoutToEach(events: seq<Event>, n: nat, i: int)
    ensures HandedTo(Fanout(events, n), i) == if 0 <= i < n then events else []
  {
    if events != [] {
      OneToEach(events[0], n, i);
      FanoutToEach(events[1..], n, i);
      HandedToConcat(seq(n, j => (j, events[0])), Fanout(events[1..], n), i);
      assert Fanout(events, n) == seq(n, j => (j, events[0])) + Fanout(events[1..], n);
    }
  }

  /** At all times each notifier was handed exactly the events, each once and in order. */
  lemma EachNotifierIsTold(e: Evaluator, i: int)
    requires e.Valid()
    ensures HandedTo(e.sent, i) == if 0 <= i < e.notifiers then e.events else []
  {
    FanoutToEach(e.events, e.notifiers, i);
  }

  // ----- passes that overlap -----

  /** A step of any of several overlapping passes: a state swap under the lock, or a later hand-over of its event. */
  datatype Step = Swap(a: Alert) | HandOver(e: Event)

  datatype Overlap = Overlap(memory: Memory, waiting: multiset<Event>, handedOver: multiset<Event>)

  predicate Enabled(o: Overlap, s: Step) {
    s.HandOver? ==> s.e in o.waiting
  }

  function Next(k: Keying, o: Overlap, s: Step): Overlap
    requires Enabled(o, s)
  {
    match s
    case Swap(a) =>
      o.(memory := Observe(k, o.memory, a),
         waiting := o.waiting + multiset(Announce(Remembered(o.memory, k(a.rule)), a)))
    case HandOver(e) => o.(waiting := o.waiting - multiset{e}, handedOver := o.handedOver + multiset{e})
  }

  ghost predicate Possible(k: Keying, o: Overlap, steps: seq<Step>)
    decreases |steps|
  {
    steps != [] ==> Enabled(o, steps[0]) && Possible(k, Next(k, o, steps[0]), steps[1..])
  }

  ghost function Run(k: Keying, o: Overlap, steps: seq<Step>): Overlap
    requires Possible(k, o, steps)
    decreases |steps|
  {
    if steps == [] then o else Run(k, Next(k, o, steps[0]), steps[1..])
  }

  /** The swaps of a run, in lock order. */
  function Swaps(steps: seq<Step>): seq<Alert>
    decreases |steps|
  {
    if steps == [] then [] else (if steps[0].Swap? then [steps[0].a] else []) + Swaps(steps[1..])
  }

  /**
   However the passes overlap, the memory is that of the swaps in lock order, so that everything above
   holds of it, and the events handed over and still waiting are exactly the ones it decided on.
   */
  lemma {:induction false} OverlapKeepsEvents(k: Keying, o: Overlap, steps: seq<Step>)
    requires Possible(k, o, steps)
    requires multiset(o.memory.events) == o.waiting + o.handedOver
    ensures var o' := Run(k, o, steps);
            && o'.memory == ObserveAll(k, o.memory, Swaps(steps))
            && multiset(o'.memory.events) == o'.waiting + o'.handedOver
    decreases |steps|
  {
    if steps != [] {
      var o1 := Next(k, o, steps[0]);
      assert multiset(o1.memory.events) == o1.waiting + o1.handedOver;
      OverlapKeepsEvents(k, o1, steps[1..]);
      if steps[0].Swap? {
        ObserveOne(k, o.memory, [steps[0].a]);
        ObserveConcat(k, o.memory, [steps[0].a], Swaps(steps[1..]));
      } else {
        assert Swaps(steps) == Swaps(steps[1..]);
      }
    }
  }
}
