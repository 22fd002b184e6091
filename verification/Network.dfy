/** Per-interface network traffic from 64-bit counters that wrap around. */
module Network {
  import opened Common

  const TWO_63: int := 0x8000_0000_0000_0000
  const TWO_64: int := 0x1_0000_0000_0000_0000

  type U64 = x: int | 0 <= x < 0x1_0000_0000_0000_0000

  datatype Stat = Stat(name: string, received: U64, sent: U64)

  type Snapshot = map<string, Stat>

  datatype Direction = BytesIn | BytesOut

  datatype Metric = Metric(at: int, direction: Direction, iface: string, value: int)

  // ----- the difference of two counters -----

  /** Conversion of an unsigned 64-bit value to a signed one. */
  function ToSigned(u: U64): int {
    if u < TWO_63 then u else u - TWO_64
  }

  /** Signed 64-bit arithmetic wraps around. */
  function WrapSigned(x: int): int {
    (x + TWO_63) % TWO_64 - TWO_63
  }

  function Delta(current: U64, previous: U64): int {
    var d := WrapSigned(ToSigned(current) - ToSigned(previous));
    if d < 0 then 0 else d
  }

  /** The distance a counter moved, counted around the wrap. */
  function Moved(current: int, previous: int): int {
    (current - previous) % TWO_64
  }

  /** The delta is the true distance, wrap or not, if that is below 2^63, and is clamped to 0 otherwise. */
  lemma DeltaIsDistance(current: U64, previous: U64)
    ensures Delta(current, previous) == if Moved(current, previous) < TWO_63 then Moved(current, previous) else 0
  {
  }

  // ----- one collection -----

  function Counted(ifaces: seq<string>, name: string): bool {
    name != "lo" && (ifaces == [] || name in ifaces)
  }

  /** The counted interfaces of a read; of two entries with one name the later counts. */
  function Filtered(ifaces: seq<string>, stats: seq<Stat>): Snapshot
    decreases |stats|
  {
    if stats == [] then map[]
    else
      var before, s := Filtered(ifaces, stats[..|stats| - 1]), stats[|stats| - 1];
      if Counted(ifaces, s.name) then before[s.name := s] else before
  }

  /** Entry `i` is the last one of this name. */
  predicate IsLast(stats: seq<Stat>, i: nat, name: string) {
    i < |stats| && stats[i].name == name && forall j :: i < j < |stats| ==> stats[j].name != name
  }

  ghost predicate Listed(stats: seq<Stat>, name: string) {
    exists i: nat :: i < |stats| && stats[i].name == name
  }

  lemma ListedStep(stats: seq<Stat>, name: string)
    requires stats != []
    ensures var n := |stats| - 1; Listed(stats, name) <==> Listed(stats[..n], name) || stats[n].name == name
  {
    var init := stats[..|stats| - 1];
    if Listed(init, name) {
      var i: nat :| i < |init| && init[i].name == name;
      assert stats[i].name == name;
    }
    if Listed(stats, name) && stats[|init|].name != name {
      var i: nat :| i < |stats| && stats[i].name == name;
      assert init[i].name == name;
    }
  }

  /** All listed interfaces but loopback are kept, or of those the ones asked for. */
  lemma {:induction false} FilteredNames(ifaces: seq<string>, stats: seq<Stat>, name: string)
    ensures name in Filtered(ifaces, stats) <==>
            name != "lo" && (ifaces == [] || name in ifaces) && Listed(stats, name)
    decreases |stats|
  {
    if stats != [] {
      FilteredNames(ifaces, stats[..|stats| - 1], name);
      ListedStep(stats, name);
    }
  }

  /** Of several entries with one name the last counts. */
  lemma {:induction false} FilteredStats(ifaces: seq<string>, stats: seq<Stat>, i: nat, name: string)
    requires IsLast(stats, i, name) && name in Filtered(ifaces, stats)
    ensures Filtered(ifaces, stats)[name] == stats[i]
    decreases |stats|
  {
    FilteredNames(ifaces, stats, name);
    if i < |stats| - 1 {
      FilteredStats(ifaces, stats[..|stats| - 1], i, name);
    }
  }

  function Value(current: Snapshot, previous: Snapshot, iface: string, d: Direction): int
    requires iface in current && iface in previous
  {
    match d
    case BytesIn => Delta(current[iface].received, previous[iface].received)
    case BytesOut => Delta(current[iface].sent, previous[iface].sent)
  }

  /** The metrics due: one each way for every interface present in both snapshots. */
  ghost predicate IsReport(metrics: seq<Metric>, current: Snapshot, previous: Snapshot, now: int) {
    && (forall i, j :: 0 <= i < j < |metrics| ==> metrics[i] != metrics[j])
    && (forall i :: 0 <= i < |metrics| ==>
          && metrics[i].at == now && metrics[i].iface in current && metrics[i].iface in previous
          && metrics[i].value == Value(current, previous, metrics[i].iface, metrics[i].direction))
    && (forall n, d :: n in current && n in previous ==> Metric(now, d, n, Value(current, previous, n, d)) in metrics)
  }

  class NetworkCollector {
    const ifaces: seq<string>
    var prev: Option<Snapshot>

    constructor (ifaces: seq<string>)
      ensures this.ifaces == ifaces && prev == None
    {
      this.ifaces, prev := ifaces, None;
    }

    /** A failed read changes nothing; the first successful one only remembers; later ones report and remember. */
    method Collect(stats: Option<seq<Stat>>, now: int) returns (ok: bool, metrics: seq<Metric>)
      modifies this
      ensures ok <==> stats != None
      ensures !ok ==> prev == old(prev) && metrics == []
      ensures ok ==> prev == Some(Filtered(ifaces, stats.value))
      ensures ok ==> forall name :: name in prev.value <==>
                name != "lo" && (ifaces == [] || name in ifaces) && Listed(stats.value, name)
      ensures ok ==> forall name, i: nat :: name in prev.value && IsLast(stats.value, i, name) ==>
                prev.value[name] == stats.value[i]
      ensures forall m :: m in metrics ==> m.iface != "lo" && m.at == now
      ensures ok && old(prev) == None ==> metrics == []
      ensures ok && old(prev) != None ==> IsReport(metrics, prev.value, old(prev).value, now)
    {
      metrics := [];
      if stats == None {
        return false, [];
      }
      ok := true;
      var curr: Snapshot := map[];
      for i := 0 to |stats.value|
        invariant curr == Filtered(ifaces, stats.value[..i])
      {
        var s := stats.value[i];
        assert stats.value[..i + 1][..i] == stats.value[..i];
        if s.name == "lo" {
          continue;
        }
        if |ifaces| > 0 && s.name !in ifaces {
          continue;
        }
        curr := curr[s.name := s];
      }
      assert stats.value[..|stats.value|] == stats.value;
      forall name
        ensures name in curr <==> name != "lo" && (ifaces == [] || name in ifaces) && Listed(stats.value, name)
        ensures forall i: nat :: name in curr && IsLast(stats.value, i, name) ==> curr[name] == stats.value[i]
      {
        FilteredNames(ifaces, stats.value, name);
        forall i: nat | name in curr && IsLast(stats.value, i, name)
          ensures curr[name] == stats.value[i]
        {
          FilteredStats(ifaces, stats.value, i, name);
        }
      }
      if prev == None {
        prev := Some(curr);
        return;
      }
      metrics := Report(curr, prev.value, now);
      prev := Some(curr);
    }

    method Report(curr: Snapshot, previous: Snapshot, now: int) returns (metrics: seq<Metric>)
      ensures IsReport(metrics, curr, previous, now)
    {
      metrics := [];
      var todo := curr.Keys;
      while todo != {}
        invariant todo <= curr.Keys
        invariant forall i, j :: 0 <= i < j < |metrics| ==> metrics[i] != metrics[j]
        invariant forall i :: 0 <= i < |metrics| ==>
                    && metrics[i].at == now && metrics[i].iface !in todo
                    && metrics[i].iface in curr && metrics[i].iface in previous
                    && metrics[i].value == Value(curr, previous, metrics[i].iface, metrics[i].direction)
        invariant forall n, d :: n in curr && n in previous && n !in todo ==>
                    Metric(now, d, n, Value(curr, previous, n, d)) in metrics
        decreases |todo|
      {
        var name :| name in todo;
        todo := todo - {name};
        if name in previous {
          var bytesIn := WrapSigned(ToSigned(curr[name].received) - ToSigned(previous[name].received));
          var bytesOut := WrapSigned(ToSigned(curr[name].sent) - ToSigned(previous[name].sent));
          if bytesIn < 0 {
            bytesIn := 0;
          }
          if bytesOut < 0 {
            bytesOut := 0;
          }
          var pair := [Metric(now, BytesIn, name, bytesIn), Metric(now, BytesOut, name, bytesOut)];
          assert forall d :: Metric(now, d, name, Value(curr, previous, name, d)) in pair by {
            assert pair[0] in pair && pair[1] in pair;
          }
          metrics := metrics + pair;
        }
      }
    }
  }

  // ----- sums over a run -----

  /** What is remembered after a read; None is a failed one. */
  function Remember(prev: Snapshot, read: Option<Snapshot>): Snapshot {
    if read == None then prev else read.value
  }

  function Counter(s: Snapshot, iface: string, d: Direction): U64
    requires iface in s
  {
    match d
    case BytesIn => s[iface].received
    case BytesOut => s[iface].sent
  }

  /** The interface is in every successful read. */
  ghost predicate Present(run: seq<Option<Snapshot>>, iface: string) {
    forall r :: r in run ==> r != None ==> iface in r.value
  }

  /** Everything reported for one interface and direction over a run of reads. */
  function Reported(prev: Snapshot, run: seq<Option<Snapshot>>, iface: string, d: Direction): int
    requires iface in prev && Present(run, iface)
    decreases |run|
  {
    if run == [] then 0
    else (if run[0] == None then 0 else Value(run[0].value, prev, iface, d)) +
         Reported(Remember(prev, run[0]), run[1..], iface, d)
  }

  /** The distances that were clamped away over a run. */
  function Lost(prev: Snapshot, run: seq<Option<Snapshot>>, iface: string, d: Direction): int
    requires iface in prev && Present(run, iface)
    decreases |run|
  {
    if run == [] then 0
    else
      var next := Remember(prev, run[0]);
      var moved := Moved(Counter(next, iface, d), Counter(prev, iface, d));
      (if moved < TWO_63 then 0 else moved) + Lost(next, run[1..], iface, d)
  }

  function FinalSnapshot(prev: Snapshot, run: seq<Option<Snapshot>>): Snapshot
    decreases |run|
  {
    if run == [] then prev else FinalSnapshot(Remember(prev, run[0]), run[1..])
  }

  lemma {:induction false} FinalHas(prev: Snapshot, run: seq<Option<Snapshot>>, iface: string)
    requires iface in prev && Present(run, iface)
    ensures iface in FinalSnapshot(prev, run)
    decreases |run|
  {
    if run != [] {
      assert run[0] in run;
      FinalHas(Remember(prev, run[0]), run[1..], iface);
    }
  }

  /**
   Over any run in which the interface stays present: what was reported and what was clamped away
   together make up the counter's movement from first to last, modulo 2^64, and failed reads cost nothing.
   */
  lemma {:induction false} Telescopes(prev: Snapshot, run: seq<Option<Snapshot>>, iface: string, d: Direction)
    requires iface in prev && Present(run, iface)
    ensures iface in FinalSnapshot(prev, run)
    ensures (Reported(prev, run, iface, d) + Lost(prev, run, iface, d)) % TWO_64 ==
            Moved(Counter(FinalSnapshot(prev, run), iface, d), Counter(prev, iface, d))
    ensures Reported(prev, run, iface, d) >= 0 && Lost(prev, run, iface, d) >= 0
    decreases |run|
  {
    FinalHas(prev, run, iface);
    if run != [] {
      assert run[0] in run;
      var next := Remember(prev, run[0]);
      Telescopes(next, run[1..], iface, d);
      var a, b := Counter(prev, iface, d), Counter(next, iface, d);
      var z := Counter(FinalSnapshot(prev, run), iface, d);
      DeltaIsDistance(b, a);
      MovedAdds(a, b, z, Moved(b, a), Reported(next, run[1..], iface, d) + Lost(next, run[1..], iface, d));
    }
  }

  lemma MovedAdds(a: int, b: int, z: int, step: int, rest: int)
    requires step == Moved(b, a) && rest % TWO_64 == Moved(z, b)
    ensures (step + rest) % TWO_64 == Moved(z, a)
  {
  }

  // ----- true traffic -----

  /** The counters show a true, ever-growing count modulo 2^64. */
  function Shown(count: nat): U64 {
    count % TWO_64
  }

  /** Each successful read shows the count for one interface and direction; None is a failed read. */
  ghost predicate Shows(run: seq<Option<Snapshot>>, counts: seq<Option<nat>>, iface: string, d: Direction)
    requires Present(run, iface)
  {
    && |run| == |counts|
    && forall i :: 0 <= i < |run| ==>
         if run[i] == None then counts[i] == None
         else assert run[i] in run; counts[i] != None && Counter(run[i].value, iface, d) == Shown(counts[i].value)
  }

  function LastCount(last: nat, counts: seq<Option<nat>>): nat
    decreases |counts|
  {
    if counts == [] then last
    else LastCount(if counts[0] == None then last else counts[0].value, counts[1..])
  }

  /** The count never falls, and grows by less than 2^63 from one successful read to the next. */
  ghost predicate Steady(last: nat, counts: seq<Option<nat>>)
    decreases |counts|
  {
    counts != [] ==>
      if counts[0] == None then Steady(last, counts[1..])
      else last <= counts[0].value < last + TWO_63 && Steady(counts[0].value, counts[1..])
  }

  /** Then what is reported adds up to exactly the bytes that passed, however often the counters wrapped. */
  lemma {:induction false} TrafficIsExact(
    prev: Snapshot, last: nat, run: seq<Option<Snapshot>>, counts: seq<Option<nat>>, iface: string, d: Direction)
    requires iface in prev && Counter(prev, iface, d) == Shown(last)
    requires Present(run, iface) && Shows(run, counts, iface, d) && Steady(last, counts)
    ensures Reported(prev, run, iface, d) == LastCount(last, counts) - last
    decreases |run|
  {
    if run != [] {
      assert run[0] in run;
      if run[0] == None {
        TrafficIsExact(prev, last, run[1..], counts[1..], iface, d);
      } else {
        var count := counts[0].value;
        TrafficIsExact(run[0].value, count, run[1..], counts[1..], iface, d);
        DeltaOfCounts(count, last);
      }
    }
  }

  // ----- the traffic in the metrics -----

  /** Everything that metrics say about one interface and direction. */
  function SumFor(metrics: seq<Metric>, name: string, d: Direction): int {
    if metrics == [] then 0
    else
      var m := metrics[0];
      (if m.iface == name && m.direction == d then m.value else 0) + SumFor(metrics[1..], name, d)
  }

  lemma {:induction false} SumOfNone(metrics: seq<Metric>, name: string, d: Direction)
    requires forall i :: 0 <= i < |metrics| ==> !(metrics[i].iface == name && metrics[i].direction == d)
    ensures SumFor(metrics, name, d) == 0
  {
    if metrics != [] {
      SumOfNone(metrics[1..], name, d);
    }
  }

  lemma {:induction false} SumOfOne(metrics: seq<Metric>, i: nat, name: string, d: Direction)
    requires i < |metrics| && metrics[i].iface == name && metrics[i].direction == d
    requires forall j :: 0 <= j < |metrics| && j != i ==> !(metrics[j].iface == name && metrics[j].direction == d)
    ensures SumFor(metrics, name, d) == metrics[i].value
  {
    if i == 0 {
      SumOfNone(metrics[1..], name, d);
    } else {
      SumOfOne(metrics[1..], i - 1, name, d);
    }
  }

  /** A report has one metric for the interface and direction, with the value due. */
  lemma ReportSum(metrics: seq<Metric>, current: Snapshot, previous: Snapshot, now: int, name: string, d: Direction)
    requires IsReport(metrics, current, previous, now) && name in current && name in previous
    ensures SumFor(metrics, name, d) == Value(current, previous, name, d)
  {
    var m := Metric(now, d, name, Value(current, previous, name, d));
    var i :| 0 <= i < |metrics| && metrics[i] == m;
    forall j | 0 <= j < |metrics| && j != i
      ensures !(metrics[j].iface == name && metrics[j].direction == d)
    {
      assert metrics[j] != metrics[i];
    }
    SumOfOne(metrics, i, name, d);
  }

  /** The reports that collections of these reads give, after `prev` was remembered; None is a failed read. */
  ghost predicate Collected(
    ifaces: seq<string>, prev: Snapshot, polls: seq<Option<seq<Stat>>>, reports: seq<seq<Metric>>, now: nat -> int)
    decreases |polls|
  {
    && |reports| == |polls|
    && (polls != [] ==>
          if polls[0] == None then
            reports[0] == [] && Collected(ifaces, prev, polls[1..], reports[1..], (k: nat) => now(k + 1))
          else
            var curr := Filtered(ifaces, polls[0].value);
            && IsReport(reports[0], curr, prev, now(0))
            && Collected(ifaces, curr, polls[1..], reports[1..], (k: nat) => now(k + 1)))
  }

  function SumOverRun(reports: seq<seq<Metric>>, name: string, d: Direction): int {
    if reports == [] then 0 else SumFor(reports[0], name, d) + SumOverRun(reports[1..], name, d)
  }

  /** The interface's last entry in a read shows the count, received bytes or sent ones, modulo 2^64. */
  ghost predicate ShowsIn(stats: seq<Stat>, name: string, d: Direction, count: nat) {
    exists i: nat :: IsLast(stats, i, name) &&
      (if d == BytesIn then stats[i].received else stats[i].sent) == count % 0x1_0000_0000_0000_0000
  }

  ghost predicate AllShow(polls: seq<Option<seq<Stat>>>, counts: seq<Option<nat>>, name: string, d: Direction) {
    && |polls| == |counts|
    && forall i :: 0 <= i < |polls| ==>
         if polls[i] == None then counts[i] == None
         else counts[i] != None && ShowsIn(polls[i].value, name, d, counts[i].value)
  }

  lemma ShownIn(ifaces: seq<string>, stats: seq<Stat>, name: string, d: Direction, count: nat)
    requires name != "lo" && (ifaces == [] || name in ifaces) && ShowsIn(stats, name, d, count)
    ensures name in Filtered(ifaces, stats) && Counter(Filtered(ifaces, stats), name, d) == Shown(count)
  {
    var i: nat :| IsLast(stats, i, name) &&
      (if d == BytesIn then stats[i].received else stats[i].sent) == count % 0x1_0000_0000_0000_0000;
    FilteredNames(ifaces, stats, name);
    FilteredStats(ifaces, stats, i, name);
  }

  /**
   Over any run of reads, given as lists of counters: the metrics reported for an interface other than
   loopback, if all are asked for or this one is, add up to exactly the bytes that passed, however often the
   counters wrapped, as long as every successful read lists it and less than 2^63 bytes pass between two.
   */
  lemma {:induction false} CollectedTraffic(
    ifaces: seq<string>, first: seq<Stat>, last: nat, polls: seq<Option<seq<Stat>>>, counts: seq<Option<nat>>,
    reports: seq<seq<Metric>>, now: nat -> int, name: string, d: Direction)
    requires name != "lo" && (ifaces == [] || name in ifaces)
    requires ShowsIn(first, name, d, last) && AllShow(polls, counts, name, d) && Steady(last, counts)
    requires Collected(ifaces, Filtered(ifaces, first), polls, reports, now)
    ensures SumOverRun(reports, name, d) == LastCount(last, counts) - last
    decreases |polls|
  {
    if polls != [] {
      var later := (k: nat) => now(k + 1);
      if polls[0] == None {
        CollectedTraffic(ifaces, first, last, polls[1..], counts[1..], reports[1..], later, name, d);
      } else {
        var read, count := polls[0].value, counts[0].value;
        ShownIn(ifaces, first, name, d, last);
        ShownIn(ifaces, read, name, d, count);
        ReportSum(reports[0], Filtered(ifaces, read), Filtered(ifaces, first), now(0), name, d);
        DeltaOfCounts(count, last);
        CollectedTraffic(ifaces, read, count, polls[1..], counts[1..], reports[1..], later, name, d);
      }
    }
  }

  lemma DeltaOfCounts(count: nat, last: nat)
    requires last <= count < last + TWO_63
    ensures Delta(Shown(count), Shown(last)) == count - last
  {
    var rounds, distance := count / TWO_64 - last / TWO_64, Shown(count) - Shown(last);
    assert count - last == TWO_64 * rounds + distance;
    RoundsOf(rounds, distance, count - last);
    DistanceModulo(distance, count - last);
    DeltaIsDistance(Shown(count), Shown(last));
  }

  lemma RoundsOf(rounds: int, distance: int, moved: int)
    requires -TWO_64 < distance < TWO_64 && 0 <= moved < TWO_63 && moved == TWO_64 * rounds + distance
    ensures moved == distance || moved == TWO_64 + distance
  {
    assert rounds == 0 || rounds == 1;
  }

  lemma DistanceModulo(distance: int, moved: int)
    requires 0 <= moved < TWO_63 && (moved == distance || moved == TWO_64 + distance)
    ensures distance % TWO_64 == moved
  {
  }

  /**
   A counter that reads lower than before is reported as 0 exactly when it fell by at most 2^63. A
   larger fall, as after a wrap or after a reset from a high value, is reported as movement forward.
   */
  lemma FallIsClampedIff(current: U64, previous: U64)
    requires current < previous
    ensures Delta(current, previous) == 0 <==> previous - current <= TWO_63
    ensures previous - current > TWO_63 ==> Delta(current, previous) == TWO_64 - (previous - current)
  {
  }
}
