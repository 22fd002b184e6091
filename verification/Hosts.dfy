/** Liveness of hosts by their heartbeats, and the notice that a host went down. */
module Hosts {
  import opened Common

  datatype Liveness = Up | Stale | Down

  /** `lastSeen` is None for the zero time. */
  datatype HostStatus = HostStatus(host: string, status: Liveness, lastSeen: Option<int>)

  /** Last heartbeat times, and the hosts already reported down. */
  datatype Track = Track(hosts: map<string, int>, down: set<string>)

  function Beat(t: Track, host: string, at: int): Track {
    if host == "" then t else Track(t.hosts[host := at], t.down - {host})
  }

  /** The hosts a scan at `now` reports: silent for `downAfter` or longer, and not reported yet. */
  function NewlyDown(t: Track, now: int, downAfter: int): set<string> {
    set h | h in t.hosts && now - t.hosts[h] >= downAfter && h !in t.down
  }

  function Mark(t: Track, now: int, downAfter: int): Track {
    t.(down := t.down + NewlyDown(t, now, downAfter))
  }

  /** The order in which a set was gone through: each element once. */
  ghost predicate IsOrderOf(order: seq<string>, s: set<string>) {
    && (forall i, j :: 0 <= i < j < |order| ==> order[i] != order[j])
    && (forall h :: h in order <==> h in s)
  }

  /** Down from age `downAfter` on, stale from `staleAfter` on before that, else up. */
  predicate IsByAge(status: Liveness, age: int, staleAfter: int, downAfter: int) {
    && (status == Down <==> downAfter <= age)
    && (status == Stale <==> staleAfter <= age < downAfter)
    && (status == Up <==> age < staleAfter && age < downAfter)
  }

  // ----- sorting by name -----

  /** Byte-wise order of names. */
  predicate Less(a: string, b: string) {
    b != "" && (a == "" || a[0] < b[0] || (a[0] == b[0] && Less(a[1..], b[1..])))
  }

  /** The first difference decides, the smaller character or the shorter name first: "a" comes before "b". */
  lemma {:induction false} LessIff(a: string, b: string, n: nat)
    requires n <= |a| && n <= |b| && a[..n] == b[..n] && (n < |a| && n < |b| ==> a[n] != b[n])
    ensures Less(a, b) <==> n < |b| && (n == |a| || a[n] < b[n])
    ensures Less("a", "b")
  {
    if n > 0 {
      assert a[0] == a[..n][0] == b[0];
      assert a[1..][..n - 1] == a[..n][1..] && b[1..][..n - 1] == b[..n][1..];
      LessIff(a[1..], b[1..], n - 1);
    }
  }

  lemma {:induction false} LessTotal(a: string, b: string)
    ensures Less(a, b) || Less(b, a) || a == b
  {
    if a != "" && b != "" && a[0] == b[0] {
      LessTotal(a[1..], b[1..]);
      assert a == [a[0]] + a[1..] && b == [b[0]] + b[1..];
    }
  }

  lemma {:induction false} LessTransitive(a: string, b: string, c: string)
    requires Less(a, b) && Less(b, c)
    ensures Less(a, c)
  {
    if a != "" && a[0] == b[0] && b[0] == c[0] {
      LessTransitive(a[1..], b[1..], c[1..]);
    }
  }

  ghost predicate SortedByHost(s: seq<HostStatus>) {
    forall i, j :: 0 <= i < j < |s| ==> Less(s[i].host, s[j].host)
  }

  function Insert(x: HostStatus, s: seq<HostStatus>): seq<HostStatus> {
    if s == [] || Less(x.host, s[0].host) then [x] + s else [s[0]] + Insert(x, s[1..])
  }

  function SortByHost(s: seq<HostStatus>): seq<HostStatus> {
    if s == [] then [] else Insert(s[0], SortByHost(s[1..]))
  }

  lemma {:induction false} InsertSorts(x: HostStatus, s: seq<HostStatus>)
    requires SortedByHost(s) && forall i :: 0 <= i < |s| ==> s[i].host != x.host
    ensures SortedByHost(Insert(x, s))
    ensures multiset(Insert(x, s)) == multiset(s) + multiset{x}
  {
    if s == [] {
    } else if Less(x.host, s[0].host) {
      forall j | 0 < j < |s|
        ensures Less(x.host, s[j].host)
      {
        LessTransitive(x.host, s[0].host, s[j].host);
      }
    } else {
      LessTotal(x.host, s[0].host);
      InsertSorts(x, s[1..]);
      assert s == [s[0]] + s[1..];
      var rest := Insert(x, s[1..]);
      forall j | 0 <= j < |rest|
        ensures Less(s[0].host, rest[j].host)
      {
        assert rest[j] in multiset(rest);
        assert rest[j] == x || rest[j] in s[1..];
      }
    }
  }

  /** Entries of different hosts are sorted, none lost or added. */
  lemma {:induction false} SortSorts(s: seq<HostStatus>)
    requires forall i, j :: 0 <= i < j < |s| ==> s[i].host != s[j].host
    ensures SortedByHost(SortByHost(s))
    ensures multiset(SortByHost(s)) == multiset(s)
  {
    hide Less, Insert;
    if s != [] {
      SortSorts(s[1..]);
      var rest := SortByHost(s[1..]);
      forall i | 0 <= i < |rest|
        ensures rest[i].host != s[0].host
      {
        assert rest[i] in multiset(rest);
        assert rest[i] in s[1..];
      }
      InsertSorts(s[0], rest);
      assert s == [s[0]] + s[1..];
    }
  }

  // ----- the tracker -----

  lemma SortedHasSame(s: seq<HostStatus>)
    requires forall i, j :: 0 <= i < j < |s| ==> s[i].host != s[j].host
    ensures SortedByHost(SortByHost(s))
    ensures forall x :: x in SortByHost(s) <==> x in s
  {
    SortSorts(s);
    assert forall x :: x in SortByHost(s) <==> x in multiset(s);
  }

  class HostTracker {
    const staleAfter: int
    const downAfter: int
    const notifies: bool
    var hosts: map<string, int>
    var down: set<string>
    var calls: seq<string>

    constructor (staleAfter: int, downAfter: int, notifies: bool)
      ensures this.staleAfter == staleAfter && this.downAfter == downAfter && this.notifies == notifies
      ensures View() == Track(map[], {}) && calls == []
    {
      this.staleAfter, this.downAfter, this.notifies := staleAfter, downAfter, notifies;
      hosts, down, calls := map[], {}, [];
    }

    function View(): Track
      reads this
    {
      Track(hosts, down)
    }

    method Heartbeat(host: string, now: int)
      modifies `hosts, `down
      ensures View() == Beat(old(View()), host, now)
      ensures host != "" ==> host in hosts && hosts[host] == now && host !in down
      ensures forall h :: h != host || host == "" ==>
                && (h in hosts <==> h in old(hosts)) && (h in hosts ==> hosts[h] == old(hosts[h]))
                && (h in down <==> h in old(down))
    {
      if host == "" {
        return;
      }
      hosts := hosts[host := now];
      down := down - {host};
    }

    function Classify(lastSeen: int, now: int): Liveness {
      var age := now - lastSeen;
      if age >= downAfter then Down else if age >= staleAfter then Stale else Up
    }

    function Status(host: string, now: int): HostStatus
      reads this
    {
      if host in hosts then HostStatus(host, Classify(hosts[host], now), Some(hosts[host]))
      else HostStatus(host, Down, None)
    }

    /** A known host's status is by the age of its last heartbeat; an unknown one is down. */
    lemma StatusMeans(host: string, now: int)
      ensures var s := Status(host, now);
              && s.host == host
              && (host in hosts ==>
                    s.lastSeen == Some(hosts[host]) && IsByAge(s.status, now - hosts[host], staleAfter, downAfter))
              && (host !in hosts ==> s.lastSeen == None && s.status == Down)
    {
    }

    /** One snapshot: strictly sorted by name, exactly the known hosts, each with its status. */
    method All(now: int) returns (out: seq<HostStatus>)
      ensures SortedByHost(out)
      ensures forall h :: h in hosts <==> Status(h, now) in out
      ensures forall s :: s in out ==> s.host in hosts && s == Status(s.host, now)
      ensures forall s :: s in out ==> s.host in hosts && s.lastSeen == Some(hosts[s.host])
      ensures forall s :: s in out ==> IsByAge(s.status, now - hosts[s.host], staleAfter, downAfter)
    {
      out := [];
      var todo := hosts.Keys;
      while todo != {}
        invariant todo <= hosts.Keys
        invariant forall i :: 0 <= i < |out| ==> out[i].host in hosts && out[i].host !in todo
        invariant forall i :: 0 <= i < |out| ==> out[i] == Status(out[i].host, now)
        invariant forall i, j :: 0 <= i < j < |out| ==> out[i].host != out[j].host
        invariant forall h :: h in hosts && h !in todo ==> Status(h, now) in out
        decreases |todo|
      {
        var h :| h in todo;
        out := out + [HostStatus(h, Classify(hosts[h], now), Some(hosts[h]))];
        todo := todo - {h};
      }
      SortedHasSame(out);
      out := SortByHost(out);
    }

    /** The part of a scan under the lock: marks the hosts that are newly down and lists them. */
    method MarkDown(now: int) returns (newlyDown: seq<string>)
      modifies `down
      ensures View() == Mark(old(View()), now, downAfter)
      ensures IsOrderOf(newlyDown, NewlyDown(old(View()), now, downAfter))
    {
      newlyDown := [];
      ghost var all := NewlyDown(View(), now, downAfter);
      var todo := hosts.Keys;
      while todo != {}
        invariant todo <= hosts.Keys
        invariant forall i, j :: 0 <= i < j < |newlyDown| ==> newlyDown[i] != newlyDown[j]
        invariant forall h :: h in newlyDown <==> h in all && h !in todo
        invariant forall h :: h in down <==> h in old(down) || (h in all && h !in todo)
        decreases |todo|
      {
        var h :| h in todo;
        var age := now - hosts[h];
        if age >= downAfter && h !in down {
          down := down + {h};
          newlyDown := newlyDown + [h];
        }
        todo := todo - {h};
      }
      assert down == old(down) + all;
    }

    /** Marks under the lock, then calls back once for each host marked by this scan. */
    method Scan(now: int) returns (ghost newlyDown: seq<string>)
      modifies `down, `calls
      ensures View() == Mark(old(View()), now, downAfter)
      ensures IsOrderOf(newlyDown, NewlyDown(old(View()), now, downAfter))
      ensures calls == old(calls) + if notifies then newlyDown else []
    {
      var marked := MarkDown(now);
      newlyDown := marked;
      if !notifies {
        return;
      }
      for i := 0 to |marked|
        invariant calls == old(calls) + marked[..i]
        invariant View() == Mark(old(View()), now, downAfter)
      {
        calls := calls + [marked[i]];
      }
    }
  }

  // ----- every interleaving of heartbeats, scans and callbacks -----

  /** A host marked down at `at`, when its last heartbeat was at `lastSeen`. */
  datatype Notice = Notice(host: string, lastSeen: int, at: int)

  datatype Step =
    | HeartbeatStep(host: string, at: int)
    | MarkStep(now: int, order: seq<string>)
    | CallbackStep

  /** `notices` lists all markings in order, of which the first `called` have been called back. */
  datatype World = World(track: Track, beats: seq<string>, notices: seq<Notice>, called: nat, lastScan: Option<int>)

  const START := World(Track(map[], {}), [], [], 0, None)

  ghost predicate Enabled(w: World, s: Step, downAfter: int) {
    match s
    case HeartbeatStep(host, at) => host != ""
    case MarkStep(now, order) => IsOrderOf(order, NewlyDown(w.track, now, downAfter))
    case CallbackStep => w.called < |w.notices|
  }

  function NoticesOf(t: Track, now: int, order: seq<string>): seq<Notice> {
    seq(|order|, i requires 0 <= i < |order| =>
      Notice(order[i], if order[i] in t.hosts then t.hosts[order[i]] else 0, now))
  }

  function Next(w: World, s: Step, downAfter: int): World {
    match s
    case HeartbeatStep(host, at) => w.(track := Beat(w.track, host, at), beats := w.beats + [host])
    case MarkStep(now, order) =>
      w.(track := Mark(w.track, now, downAfter),
         notices := w.notices + NoticesOf(w.track, now, order), lastScan := Some(now))
    case CallbackStep => w.(called := w.called + 1)
  }

  function HostsOf(notices: seq<Notice>): seq<string> {
    seq(|notices|, i requires 0 <= i < |notices| => notices[i].host)
  }

  function Marks(w: World, h: string): nat {
    multiset(HostsOf(w.notices))[h]
  }

  function Beats(w: World, h: string): nat {
    multiset(w.beats)[h]
  }

  function Calls(w: World, h: string): nat
    requires w.called <= |w.notices|
  {
    multiset(HostsOf(w.notices[..w.called]))[h]
  }

  /** A host that is known and not marked has a heartbeat to spare. */
  ghost predicate HostInv(w: World, h: string) {
    && (h !in w.track.hosts ==> Marks(w, h) == 0)
    && Marks(w, h) + (if h in w.track.hosts && h !in w.track.down then 1 else 0) <= Beats(w, h)
  }

  ghost predicate Inv(w: World, downAfter: int) {
    && w.called <= |w.notices|
    && w.track.down <= w.track.hosts.Keys
    && (forall h :: HostInv(w, h))
    && (forall i :: 0 <= i < |w.notices| ==> w.notices[i].at - w.notices[i].lastSeen >= downAfter)
  }

  lemma HostsOfConcat(a: seq<Notice>, b: seq<Notice>)
    ensures HostsOf(a + b) == HostsOf(a) + HostsOf(b)
  {
  }

  lemma OrderCounts(order: seq<string>, s: set<string>, h: string)
    requires IsOrderOf(order, s)
    ensures multiset(order)[h] == if h in s then 1 else 0
  {
    if h in s {
      var i :| 0 <= i < |order| && order[i] == h;
      assert order == order[..i] + [h] + order[i + 1..];
      assert h !in order[..i] && h !in order[i + 1..];
    } else {
      assert h !in order;
    }
  }

  /** A scan adds one marking to each newly down host and none to the others. */
  lemma MarkCounts(w: World, now: int, order: seq<string>, downAfter: int, h: string)
    requires IsOrderOf(order, NewlyDown(w.track, now, downAfter))
    ensures Marks(Next(w, MarkStep(now, order), downAfter), h) ==
            Marks(w, h) + if h in NewlyDown(w.track, now, downAfter) then 1 else 0
  {
    var more := NoticesOf(w.track, now, order);
    HostsOfConcat(w.notices, more);
    assert HostsOf(more) == order;
    OrderCounts(order, NewlyDown(w.track, now, downAfter), h);
  }

  lemma StepKeepsInv(w: World, s: Step, downAfter: int)
    requires Inv(w, downAfter) && Enabled(w, s, downAfter)
    ensures Inv(Next(w, s, downAfter), downAfter)
  {
    var w' := Next(w, s, downAfter);
    forall h
      ensures HostInv(w', h)
    {
      assert HostInv(w, h);
      if s.MarkStep? {
        MarkCounts(w, s.now, s.order, downAfter, h);
      }
    }
    if s.MarkStep? {
      forall i | 0 <= i < |s.order|
        ensures s.now - NoticesOf(w.track, s.now, s.order)[i].lastSeen >= downAfter
      {
        assert s.order[i] in NewlyDown(w.track, s.now, downAfter);
      }
    }
  }

  ghost predicate AllEnabled(w: World, steps: seq<Step>, downAfter: int)
    decreases |steps|
  {
    steps != [] ==> Enabled(w, steps[0], downAfter) && AllEnabled(Next(w, steps[0], downAfter), steps[1..], downAfter)
  }

  function Run(w: World, steps: seq<Step>, downAfter: int): World
    decreases |steps|
  {
    if steps == [] then w else Run(Next(w, steps[0], downAfter), steps[1..], downAfter)
  }

  lemma {:induction false} RunKeepsInv(w: World, steps: seq<Step>, downAfter: int)
    requires Inv(w, downAfter) && AllEnabled(w, steps, downAfter)
    ensures Inv(Run(w, steps, downAfter), downAfter)
    decreases |steps|
  {
    if steps != [] {
      StepKeepsInv(w, steps[0], downAfter);
      RunKeepsInv(Next(w, steps[0], downAfter), steps[1..], downAfter);
    }
  }

  /**
   In every interleaving: no host is called back more often than it is marked, nor marked more often
   than it sent heartbeats, and every notice was taken when the host had been silent long enough.
   */
  lemma CallbacksBounded(steps: seq<Step>, downAfter: int, h: string)
    requires AllEnabled(START, steps, downAfter)
    ensures var w := Run(START, steps, downAfter);
            && w.called <= |w.notices|
            && Calls(w, h) <= Marks(w, h) <= Beats(w, h)
            && forall i :: 0 <= i < |w.notices| ==> w.notices[i].at - w.notices[i].lastSeen >= downAfter
  {
    assert Inv(START, downAfter);
    RunKeepsInv(START, steps, downAfter);
    var w := Run(START, steps, downAfter);
    assert HostInv(w, h);
    HostsOfConcat(w.notices[..w.called], w.notices[w.called..]);
    assert w.notices == w.notices[..w.called] + w.notices[w.called..];
  }

  /** Without a heartbeat of a host in between, it is marked at most once, and not at all if it already was. */
  lemma {:induction false} MarkingsNeedHeartbeat(w: World, steps: seq<Step>, downAfter: int, h: string)
    requires Inv(w, downAfter) && AllEnabled(w, steps, downAfter)
    requires forall i :: 0 <= i < |steps| ==> !(steps[i].HeartbeatStep? && steps[i].host == h)
    ensures Marks(Run(w, steps, downAfter), h) <= Marks(w, h) + if h in w.track.down then 0 else 1
    decreases |steps|
  {
    if steps != [] {
      var s := steps[0];
      StepKeepsInv(w, s, downAfter);
      MarkingsNeedHeartbeat(Next(w, s, downAfter), steps[1..], downAfter, h);
      if s.MarkStep? {
        MarkCounts(w, s.now, s.order, downAfter, h);
      } else {
        assert !(s.HeartbeatStep? && s.host == h);
      }
    }
  }

  // ----- what the down set says -----

  /** The scanner's own clock readings never go back; heartbeats may carry any time. */
  ghost predicate ScanClockForward(w: World, steps: seq<Step>, downAfter: int)
    decreases |steps|
  {
    steps != [] ==>
      && (steps[0].MarkStep? && w.lastScan != None ==> steps[0].now >= w.lastScan.value)
      && ScanClockForward(Next(w, steps[0], downAfter), steps[1..], downAfter)
  }

  /** Every host in the down set was silent for `downAfter` at the last scan already. */
  ghost predicate DownIsOld(w: World, downAfter: int) {
    forall h :: h in w.track.down ==>
      h in w.track.hosts && w.lastScan != None && w.lastScan.value - w.track.hosts[h] >= downAfter
  }

  lemma {:induction false} RunKeepsDownOld(w: World, steps: seq<Step>, downAfter: int)
    requires DownIsOld(w, downAfter) && AllEnabled(w, steps, downAfter) && ScanClockForward(w, steps, downAfter)
    ensures DownIsOld(Run(w, steps, downAfter), downAfter)
    decreases |steps|
  {
    if steps != [] {
      assert DownIsOld(Next(w, steps[0], downAfter), downAfter);
      RunKeepsDownOld(Next(w, steps[0], downAfter), steps[1..], downAfter);
    }
  }

  /**
   If the scan clock never goes back, right after a scan at `now` the down set is exactly the set of
   hosts silent for `downAfter` or longer, and at any later time every host in it is classified down.
   */
  lemma DownSetExact(steps: seq<Step>, now: int, order: seq<string>, downAfter: int)
    requires AllEnabled(START, steps + [MarkStep(now, order)], downAfter)
    requires ScanClockForward(START, steps + [MarkStep(now, order)], downAfter)
    ensures var t := Run(START, steps + [MarkStep(now, order)], downAfter).track;
            t.down == set h | h in t.hosts && now - t.hosts[h] >= downAfter
  {
    var scan := MarkStep(now, order);
    Prefix(START, steps, scan, downAfter);
    RunKeepsDownOld(START, steps, downAfter);
  }

  lemma {:induction false} Prefix(w: World, steps: seq<Step>, s: Step, downAfter: int)
    requires AllEnabled(w, steps + [s], downAfter) && ScanClockForward(w, steps + [s], downAfter)
    ensures AllEnabled(w, steps, downAfter) && ScanClockForward(w, steps, downAfter)
    ensures var w' := Run(w, steps, downAfter);
            && Enabled(w', s, downAfter)
            && Run(w, steps + [s], downAfter) == Next(w', s, downAfter)
            && (s.MarkStep? && w'.lastScan != None ==> s.now >= w'.lastScan.value)
    decreases |steps|
  {
    if steps == [] {
      assert steps + [s] == [s];
    } else {
      assert (steps + [s])[1..] == steps[1..] + [s];
      Prefix(Next(w, steps[0], downAfter), steps[1..], s, downAfter);
    }
  }

  /** At every moment of a run, a host in the down set is classified down by any clock not behind the last scan. */
  lemma MarkedIsClassifiedDown(t: HostTracker, steps: seq<Step>, now: int, h: string)
    requires AllEnabled(START, steps, t.downAfter) && ScanClockForward(START, steps, t.downAfter)
    requires var w := Run(START, steps, t.downAfter);
             h in w.track.down && (w.lastScan != None ==> now >= w.lastScan.value)
    ensures var w := Run(START, steps, t.downAfter); h in w.track.hosts && t.Classify(w.track.hosts[h], now) == Down
  {
    RunKeepsDownOld(START, steps, t.downAfter);
  }

  // ----- by the heartbeats themselves -----

  /** The time of the host's last heartbeat in a run. */
  function LastBeat(steps: seq<Step>, h: string): Option<int>
    decreases |steps|
  {
    if steps == [] then None
    else
      var later := LastBeat(steps[1..], h);
      if later == None && steps[0].HeartbeatStep? && steps[0].host == h then Some(steps[0].at) else later
  }

  function Remembered(t: Track, h: string): Option<int> {
    if h in t.hosts then Some(t.hosts[h]) else None
  }

  lemma {:induction false} RunRemembers(w: World, steps: seq<Step>, downAfter: int, h: string)
    requires AllEnabled(w, steps, downAfter)
    ensures Remembered(Run(w, steps, downAfter).track, h) ==
            if LastBeat(steps, h) == None then Remembered(w.track, h) else LastBeat(steps, h)
    decreases |steps|
  {
    if steps != [] {
      RunRemembers(Next(w, steps[0], downAfter), steps[1..], downAfter, h);
    }
  }

  lemma {:induction false} RunOfMore(w: World, steps: seq<Step>, s: Step, downAfter: int)
    requires AllEnabled(w, steps + [s], downAfter)
    ensures AllEnabled(w, steps, downAfter)
    ensures Enabled(Run(w, steps, downAfter), s, downAfter)
    ensures Run(w, steps + [s], downAfter) == Next(Run(w, steps, downAfter), s, downAfter)
    decreases |steps|
  {
    if steps == [] {
      assert steps + [s] == [s];
    } else {
      assert (steps + [s])[1..] == steps[1..] + [s];
      RunOfMore(Next(w, steps[0], downAfter), steps[1..], s, downAfter);
    }
  }

  /**
   In every run: a scan earlier than `downAfter` after a host's last heartbeat does not mark it, nor one of
   a host without heartbeats, so neither is called back for; after a later scan it is in the down set.
   */
  lemma ScanByHeartbeats(steps: seq<Step>, now: int, order: seq<string>, downAfter: int, h: string)
    requires AllEnabled(START, steps + [MarkStep(now, order)], downAfter)
    ensures match LastBeat(steps, h)
            case None => h !in order
            case Some(beat) =>
              && (now - beat < downAfter ==> h !in order)
              && (now - beat >= downAfter ==> h in Run(START, steps + [MarkStep(now, order)], downAfter).track.down)
  {
    RunOfMore(START, steps, MarkStep(now, order), downAfter);
    RunRemembers(START, steps, downAfter, h);
    var t := Run(START, steps, downAfter).track;
    assert h in order <==> h in NewlyDown(t, now, downAfter);
  }

  /** With scan times that do not go back, the down set after a scan is exactly the hosts silent for that long. */
  lemma DownSetByHeartbeats(steps: seq<Step>, now: int, order: seq<string>, downAfter: int)
    requires AllEnabled(START, steps + [MarkStep(now, order)], downAfter)
    requires ScanClockForward(START, steps + [MarkStep(now, order)], downAfter)
    ensures forall h :: h in Run(START, steps + [MarkStep(now, order)], downAfter).track.down <==>
                        LastBeat(steps, h) != None && now - LastBeat(steps, h).value >= downAfter
  {
    var w' := Run(START, steps + [MarkStep(now, order)], downAfter);
    DownSetExact(steps, now, order, downAfter);
    RunOfMore(START, steps, MarkStep(now, order), downAfter);
    forall h
      ensures h in w'.track.down <==> LastBeat(steps, h) != None && now - LastBeat(steps, h).value >= downAfter
    {
      RunRemembers(START, steps, downAfter, h);
    }
  }
}
