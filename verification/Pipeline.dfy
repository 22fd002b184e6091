/** The agent's collector and sender, two loops joined by a bounded channel that drops the newest batch when full. */
module Pipeline {
  import opened Common

  datatype Batch<M> = Batch(host: string, metrics: seq<M>)

  datatype Outcome = Acknowledged | Failed | Abandoned

  datatype Sender<M> = Idle | Sending(batch: Batch<M>) | Exited(byClose: bool)

  /**
   The channel and both loops. `collected` lists all non-empty batches in the order they were
   collected, `kept` says of each whether the channel took it; `handed` lists the batches given to the
   sender and `outcomes` what became of them.
   */
  datatype Pipe<M> = Pipe(
    capacity: nat, queue: seq<Batch<M>>, closed: bool,
    collecting: bool, cancelled: bool, sender: Sender<M>,
    collected: seq<Batch<M>>, kept: seq<bool>, handed: seq<Batch<M>>, outcomes: seq<Outcome>)

  datatype Step<M> =
    | Cancel
    | Tick(host: string, metrics: seq<M>)  // the collector reads its metrics and offers a batch
    | StopCollecting                       // the collector sees the cancellation
    | CloseChannel                         // its deferred close
    | Receive                              // the sender takes the oldest queued batch
    | SendSucceeds
    | SendErrs                             // an error return; the sender then looks at the context
    | SenderSeesClose                      // the channel is closed and drained

  predicate Enabled<M>(p: Pipe<M>, s: Step<M>) {
    match s
    case Cancel => true
    case Tick(_, _) => p.collecting
    case StopCollecting => p.collecting && p.cancelled
    case CloseChannel => !p.collecting && !p.closed
    case Receive => p.sender.Idle? && p.queue != []
    case SendSucceeds => p.sender.Sending?
    case SendErrs => p.sender.Sending?
    case SenderSeesClose => p.sender.Idle? && p.queue == [] && p.closed
  }

  /** A batch without metrics is not offered; an offered one is dropped if the channel is full. */
  function Offer<M>(p: Pipe<M>, b: Batch<M>): Pipe<M> {
    if b.metrics == [] then p
    else if |p.queue| < p.capacity then
      p.(queue := p.queue + [b], collected := p.collected + [b], kept := p.kept + [true])
    else p.(collected := p.collected + [b], kept := p.kept + [false])
  }

  function Next<M>(p: Pipe<M>, s: Step<M>): Pipe<M>
    requires Enabled(p, s)
  {
    match s
    case Cancel => p.(cancelled := true)
    case Tick(host, metrics) => Offer(p, Batch(host, metrics))
    case StopCollecting => p.(collecting := false)
    case CloseChannel => p.(closed := true)
    case Receive => p.(queue := p.queue[1..], sender := Sending(p.queue[0]), handed := p.handed + [p.queue[0]])
    case SendSucceeds => p.(sender := Idle, outcomes := p.outcomes + [Acknowledged])
    case SendErrs =>
      if p.cancelled then p.(sender := Exited(false), outcomes := p.outcomes + [Abandoned])
      else p.(sender := Idle, outcomes := p.outcomes + [Failed])
    case SenderSeesClose => p.(sender := Exited(true))
  }

  function Start<M>(bufSize: int): Pipe<M> {
    Pipe(if bufSize <= 0 then 10 else bufSize, [], false, true, false, Idle, [], [], [], [])
  }

  // ----- the agent -----

  class Agent<M> {
    const host: string
    const capacity: nat
    var batches: seq<Batch<M>>
    var closed: bool
    var collecting: bool
    var cancelled: bool
    var sender: Sender<M>
    ghost var collected: seq<Batch<M>>
    ghost var kept: seq<bool>
    ghost var handed: seq<Batch<M>>
    ghost var outcomes: seq<Outcome>

    ghost function View(): Pipe<M>
      reads this
    {
      Pipe(capacity, batches, closed, collecting, cancelled, sender, collected, kept, handed, outcomes)
    }

    constructor (host: string, bufSize: int)
      ensures View() == Start(bufSize) && this.host == host
      ensures capacity == if bufSize > 0 then bufSize else 10
    {
      this.host := host;
      capacity := if bufSize <= 0 then 10 else bufSize;
      batches, closed, collecting, cancelled, sender := [], false, true, false, Idle;
      collected, kept, handed, outcomes := [], [], [], [];
    }

    /** One turn of the collect loop on a tick. */
    method CollectTick(metrics: seq<M>) returns (dropped: bool)
      requires collecting
      modifies this
      ensures View() == Next(old(View()), Tick(host, metrics))
      ensures dropped <==> metrics != [] && |old(batches)| >= capacity
    {
      if |metrics| == 0 {
        return false;
      }
      var batch := Batch(host, metrics);
      collected := collected + [batch];
      if |batches| < capacity {
        batches := batches + [batch];
        kept := kept + [true];
        dropped := false;
      } else {
        kept := kept + [false];
        dropped := true;
      }
    }

    /** The collect loop returns on cancellation, and its goroutine closes the channel. */
    method FinishCollecting()
      requires collecting && cancelled && !closed
      modifies this
      ensures View() == Next(Next(old(View()), StopCollecting), CloseChannel)
    {
      collecting := false;
      closed := true;
    }

    /** The head of the send loop: the oldest batch, or the end of the loop if the channel is closed and drained. */
    method NextBatch() returns (more: bool)
      requires sender.Idle? && (batches != [] || closed)
      modifies this
      ensures more <==> old(batches) != []
      ensures View() == Next(old(View()), if more then Receive else SenderSeesClose)
    {
      if |batches| > 0 {
        sender := Sending(batches[0]);
        handed := handed + [batches[0]];
        batches := batches[1..];
        more := true;
      } else {
        sender := Exited(true);
        more := false;
      }
    }

    /** The body of the send loop once Send has returned. */
    method AfterSend(err: bool)
      requires sender.Sending?
      modifies this
      ensures View() == Next(old(View()), if err then SendErrs else SendSucceeds)
    {
      if err {
        if cancelled {
          sender := Exited(false);
          outcomes := outcomes + [Abandoned];
          return;
        }
        outcomes := outcomes + [Failed];
      } else {
        outcomes := outcomes + [Acknowledged];
      }
      sender := Idle;
    }
  }

  // ----- what every run keeps -----

  /** How the sends of a run end, in order: true for a success. */
  function SendResults<M>(steps: seq<Step<M>>): seq<bool>
    decreases |steps|
  {
    if steps == [] then []
    else ResultOf(steps[0]) + SendResults(steps[1..])
  }

  function ResultOf<M>(s: Step<M>): seq<bool> {
    match s
    case SendSucceeds => [true]
    case SendErrs => [false]
    case _ => []
  }

  /** The batches that a run's ticks bring: one for each tick with metrics, under the host's name. */
  function Offered<M>(steps: seq<Step<M>>): seq<Batch<M>>
    decreases |steps|
  {
    if steps == [] then []
    else OfferedBy(steps[0]) + Offered(steps[1..])
  }

  function OfferedBy<M>(s: Step<M>): seq<Batch<M>> {
    if s.Tick? && s.metrics != [] then [Batch(s.host, s.metrics)] else []
  }

  /** Exactly these are collected, in order. */
  lemma {:induction false} CollectedAreOffered<M>(p: Pipe<M>, steps: seq<Step<M>>)
    requires AllEnabled(p, steps)
    ensures Run(p, steps).collected == p.collected + Offered(steps)
    decreases |steps|
  {
    if steps == [] {
      assert p.collected + [] == p.collected;
    } else {
      CollectedByStep(p, steps[0]);
      CollectedAreOffered(Next(p, steps[0]), steps[1..]);
      ConcatAssociative(p.collected, OfferedBy(steps[0]), Offered(steps[1..]));
    }
  }

  lemma CollectedByStep<M>(p: Pipe<M>, s: Step<M>)
    requires Enabled(p, s)
    ensures Next(p, s).collected == p.collected + OfferedBy(s)
  {
  }

  ghost predicate OutcomesTell(outcomes: seq<Outcome>, results: seq<bool>) {
    && |outcomes| == |results|
    && forall i :: 0 <= i < |results| ==> (outcomes[i] == Acknowledged <==> results[i])
  }

  lemma OutcomeOfStep<M>(p: Pipe<M>, s: Step<M>, before: seq<bool>)
    requires Enabled(p, s) && OutcomesTell(p.outcomes, before)
    ensures OutcomesTell(Next(p, s).outcomes, before + ResultOf(s))
  {
  }

  /** A batch is acknowledged exactly if its send succeeds; the i-th outcome is that of the i-th batch handed over. */
  lemma {:induction false} AcknowledgedIffSent<M>(p: Pipe<M>, steps: seq<Step<M>>, before: seq<bool>)
    requires AllEnabled(p, steps) && OutcomesTell(p.outcomes, before)
    ensures OutcomesTell(Run(p, steps).outcomes, before + SendResults(steps))
    decreases |steps|
  {
    if steps == [] {
      assert before + [] == before;
    } else {
      OutcomeOfStep(p, steps[0], before);
      AcknowledgedIffSent(Next(p, steps[0]), steps[1..], before + ResultOf(steps[0]));
      ConcatAssociative(before, ResultOf(steps[0]), SendResults(steps[1..]));
    }
  }

  /** The elements of `s` whose mark is `x`, in order. */
  function Select<A, B(==)>(s: seq<A>, marks: seq<B>, x: B): (r: seq<A>)
    requires |s| == |marks|
    ensures |r| <= |s|
    decreases |s|
  {
    if s == [] then []
    else Select(s[..|s| - 1], marks[..|s| - 1], x) + if marks[|s| - 1] == x then [s[|s| - 1]] else []
  }

  lemma SelectMore<A, B>(s: seq<A>, marks: seq<B>, x: B, a: A, b: B)
    requires |s| == |marks|
    ensures Select(s + [a], marks + [b], x) == Select(s, marks, x) + if b == x then [a] else []
  {
  }

  function Accepted<M>(p: Pipe<M>): seq<Batch<M>>
    requires |p.collected| == |p.kept|
  {
    Select(p.collected, p.kept, true)
  }

  function Dropped<M>(p: Pipe<M>): seq<Batch<M>>
    requires |p.collected| == |p.kept|
  {
    Select(p.collected, p.kept, false)
  }

  function InFlight<M>(p: Pipe<M>): seq<Batch<M>> {
    if p.sender.Sending? then [p.sender.batch] else []
  }

  /** The handed-over batches whose sending is over. */
  function Finished<M>(p: Pipe<M>): seq<Batch<M>>
    requires |p.outcomes| <= |p.handed|
  {
    p.handed[..|p.outcomes|]
  }

  function With<M>(p: Pipe<M>, o: Outcome): seq<Batch<M>>
    requires |p.outcomes| <= |p.handed|
  {
    Select(Finished(p), p.outcomes, o)
  }

  ghost predicate Inv<M>(p: Pipe<M>) {
    && |p.collected| == |p.kept|
    && |p.outcomes| <= |p.handed|
    // the channel is first in, first out, and within its capacity
    && Accepted(p) == p.handed + p.queue
    && p.handed == Finished(p) + InFlight(p)
    && |p.queue| <= p.capacity
    // the first batches, as many as the channel holds, are never dropped
    && (forall i :: 0 <= i < |p.kept| && i < p.capacity ==> p.kept[i])
    // only a finished collector closes the channel
    && (p.closed ==> !p.collecting)
    // a batch is abandoned only by the sender's early exit
    && (forall i :: 0 <= i < |p.outcomes| ==>
          (p.outcomes[i] == Abandoned <==> p.sender == Exited(false) && i == |p.outcomes| - 1))
    && (p.sender == Exited(false) ==> p.cancelled && p.outcomes != [])
    && (p.sender == Exited(true) ==> p.closed && p.queue == [])
  }

  lemma StartInv<M>(bufSize: int)
    ensures Inv<M>(Start(bufSize)) && Start<M>(bufSize).capacity >= 1
  {
  }

  lemma OfferKeepsInv<M>(p: Pipe<M>, b: Batch<M>)
    requires Inv(p) && p.collecting
    ensures Inv(Offer(p, b))
  {
    var p' := Offer(p, b);
    if b.metrics != [] {
      var taken := |p.queue| < p.capacity;
      SelectMore(p.collected, p.kept, true, b, taken);
      assert Finished(p') == Finished(p);
      assert |p.queue| <= |Accepted(p)| <= |p.kept|;
      if taken {
        ConcatAssociative(p.handed, p.queue, [b]);
      }
    }
  }

  /** A non-empty batch is dropped exactly when the channel is full, and accepted last in line otherwise. */
  lemma TickDropsIffFull<M>(p: Pipe<M>, host: string, metrics: seq<M>)
    requires Inv(p) && p.collecting && metrics != []
    ensures var p', b := Next(p, Tick(host, metrics)), Batch(host, metrics);
            && Inv(p')
            && Dropped(p') == Dropped(p) + (if |p.queue| == p.capacity then [b] else [])
            && Accepted(p') == Accepted(p) + (if |p.queue| == p.capacity then [] else [b])
  {
    var b := Batch(host, metrics);
    OfferKeepsInv(p, b);
    SelectMore(p.collected, p.kept, true, b, |p.queue| < p.capacity);
    SelectMore(p.collected, p.kept, false, b, |p.queue| < p.capacity);
  }

  lemma StepKeepsInv<M>(p: Pipe<M>, s: Step<M>)
    requires Inv(p) && Enabled(p, s)
    ensures Inv(Next(p, s))
  {
    match s
    case Tick(host, metrics) => OfferKeepsInv(p, Batch(host, metrics));
    case Receive =>
      var p' := Next(p, s);
      assert p.handed + p.queue == p'.handed + p'.queue;
      assert Finished(p') == Finished(p) && p.handed == Finished(p);
    case SendSucceeds => SendEnds(p, s);
    case SendErrs => SendEnds(p, s);
    case _ =>
  }

  lemma SendEnds<M>(p: Pipe<M>, s: Step<M>)
    requires Inv(p) && Enabled(p, s) && (s.SendSucceeds? || s.SendErrs?)
    ensures Inv(Next(p, s))
  {
    var p' := Next(p, s);
    assert |p.handed| == |p.outcomes| + 1;
    assert Finished(p') == p.handed;
  }

  ghost predicate AllEnabled<M>(p: Pipe<M>, steps: seq<Step<M>>)
    decreases |steps|
  {
    steps != [] ==> Enabled(p, steps[0]) && AllEnabled(Next(p, steps[0]), steps[1..])
  }

  ghost function Run<M>(p: Pipe<M>, steps: seq<Step<M>>): Pipe<M>
    requires AllEnabled(p, steps)
    decreases |steps|
  {
    if steps == [] then p else Run(Next(p, steps[0]), steps[1..])
  }

  /** In every interleaving of the two loops with a cancellation, the invariant holds throughout. */
  lemma {:induction false} RunKeepsInv<M>(p: Pipe<M>, steps: seq<Step<M>>)
    requires Inv(p) && AllEnabled(p, steps)
    ensures Inv(Run(p, steps))
    decreases |steps|
  {
    if steps != [] {
      StepKeepsInv(p, steps[0]);
      RunKeepsInv(Next(p, steps[0]), steps[1..]);
    }
  }

  /** The batches handed to Send are a prefix, in order, of the accepted ones. */
  lemma HandedIsFifoPrefix<M>(bufSize: int, steps: seq<Step<M>>)
    requires AllEnabled(Start(bufSize), steps)
    ensures var p := Run(Start(bufSize), steps);
            && |p.collected| == |p.kept|
            && p.handed <= Accepted(p)
            && Accepted(p)[|p.handed|..] == p.queue
            && |p.queue| <= p.capacity
            && forall i :: 0 <= i < |p.kept| && i < p.capacity ==> p.kept[i]
  {
    StartInv<M>(bufSize);
    RunKeepsInv(Start(bufSize), steps);
  }

  /** How often `a` is among the elements of `s` marked `x`. */
  function Count<A(==), B(==)>(s: seq<A>, marks: seq<B>, x: B, a: A): nat
    requires |s| == |marks|
  {
    multiset(Select(s, marks, x))[a]
  }

  lemma CountMore<A, B>(s: seq<A>, marks: seq<B>, x: B, a: A)
    requires |s| == |marks| > 0
    ensures Count(s, marks, x, a) ==
            Count(s[..|s| - 1], marks[..|s| - 1], x, a) + if marks[|s| - 1] == x && s[|s| - 1] == a then 1 else 0
  {
  }

  lemma MultisetMore<A>(s: seq<A>, a: A)
    requires s != []
    ensures multiset(s)[a] == multiset(s[..|s| - 1])[a] + if s[|s| - 1] == a then 1 else 0
  {
    assert s == s[..|s| - 1] + [s[|s| - 1]];
  }

  lemma NoneCounted<A>(s: seq<A>, a: A)
    requires s == []
    ensures multiset(s)[a] == 0
  {
  }

  lemma {:induction false} KeptOrDropped<A>(s: seq<A>, marks: seq<bool>, a: A)
    requires |s| == |marks|
    ensures multiset(s)[a] == Count(s, marks, true, a) + Count(s, marks, false, a)
    decreases |s|
  {
    if s == [] {
      NoneCounted(s, a);
    } else {
      KeptOrDropped(s[..|s| - 1], marks[..|s| - 1], a);
      MultisetMore(s, a);
      CountMore(s, marks, true, a);
      CountMore(s, marks, false, a);
      var last := marks[|s| - 1];
      assert last == true || last == false;
    }
  }

  lemma {:induction false} OneOutcome<A>(s: seq<A>, marks: seq<Outcome>, a: A)
    requires |s| == |marks|
    ensures multiset(s)[a] ==
            Count(s, marks, Acknowledged, a) + Count(s, marks, Failed, a) + Count(s, marks, Abandoned, a)
    decreases |s|
  {
    if s == [] {
      NoneCounted(s, a);
    } else {
      OneOutcome(s[..|s| - 1], marks[..|s| - 1], a);
      MultisetMore(s, a);
      CountMore(s, marks, Acknowledged, a);
      CountMore(s, marks, Failed, a);
      CountMore(s, marks, Abandoned, a);
      var last := marks[|s| - 1];
      assert last == Acknowledged || last == Failed || last == Abandoned;
    }
  }

  /** In every reachable state, each collected batch is in exactly one place. */
  lemma Conservation<M>(bufSize: int, steps: seq<Step<M>>)
    requires AllEnabled(Start(bufSize), steps)
    ensures var p := Run(Start(bufSize), steps);
            && |p.collected| == |p.kept| && |p.outcomes| <= |p.handed|
            && multiset(p.collected) ==
               multiset(With(p, Acknowledged)) + multiset(With(p, Failed)) + multiset(With(p, Abandoned)) +
               multiset(InFlight(p)) + multiset(p.queue) + multiset(Dropped(p))
  {
    StartInv<M>(bufSize);
    RunKeepsInv(Start(bufSize), steps);
    var p := Run(Start(bufSize), steps);
    forall b
      ensures multiset(p.collected)[b] == multiset(Accepted(p))[b] + multiset(Dropped(p))[b]
    {
      KeptOrDropped(p.collected, p.kept, b);
    }
    forall b
      ensures multiset(Finished(p))[b] ==
              multiset(With(p, Acknowledged))[b] + multiset(With(p, Failed))[b] + multiset(With(p, Abandoned))[b]
    {
      OneOutcome(Finished(p), p.outcomes, b);
    }
    SumUp(multiset(p.collected), multiset(Accepted(p)), multiset(Dropped(p)), multiset(Finished(p)),
          multiset(With(p, Acknowledged)), multiset(With(p, Failed)), multiset(With(p, Abandoned)),
          multiset(InFlight(p)), multiset(p.queue));
  }

  lemma SumUp<A>(all: multiset<A>, accepted: multiset<A>, dropped: multiset<A>, finished: multiset<A>,
                 good: multiset<A>, bad: multiset<A>, lost: multiset<A>, flying: multiset<A>, queued: multiset<A>)
    requires forall a :: all[a] == accepted[a] + dropped[a]
    requires forall a :: finished[a] == good[a] + bad[a] + lost[a]
    requires accepted == finished + flying + queued
    ensures all == good + bad + lost + flying + queued + dropped
  {
  }

  /** Once the channel is closed nothing more is sent on it, nor collected, and it stays closed. */
  lemma {:induction false} ClosedIsFinal<M>(p: Pipe<M>, steps: seq<Step<M>>)
    requires Inv(p) && p.closed && AllEnabled(p, steps)
    ensures var p' := Run(p, steps);
            p'.closed && p'.collected == p.collected && p'.kept == p.kept
    decreases |steps|
  {
    if steps != [] {
      StepKeepsInv(p, steps[0]);
      ClosedIsFinal(Next(p, steps[0]), steps[1..]);
    }
  }

  // ----- shutdown -----

  /** Both goroutines have returned. */
  predicate Returned<M>(p: Pipe<M>) {
    !p.collecting && p.closed && p.sender.Exited?
  }

  /** Some send of the run fails at a moment when the context is cancelled. */
  ghost predicate FailsAfterCancel<M>(p: Pipe<M>, steps: seq<Step<M>>)
    requires AllEnabled(p, steps)
    decreases |steps|
  {
    steps != [] && ((steps[0].SendErrs? && p.cancelled) || FailsAfterCancel(Next(p, steps[0]), steps[1..]))
  }

  /** That, and nothing else, makes the sender leave early. */
  lemma {:induction false} LeavesEarlyIff<M>(p: Pipe<M>, steps: seq<Step<M>>)
    requires AllEnabled(p, steps)
    ensures Run(p, steps).sender == Exited(false) <==> p.sender == Exited(false) || FailsAfterCancel(p, steps)
    decreases |steps|
  {
    if steps != [] {
      LeavesEarlyIff(Next(p, steps[0]), steps[1..]);
    }
  }

  /** Every accepted batch was handed over and then acknowledged or failed. */
  ghost predicate Drained<M>(p: Pipe<M>)
    requires |p.collected| == |p.kept|
  {
    Accepted(p) == p.handed && |p.outcomes| == |p.handed| && Abandoned !in p.outcomes
  }

  /**
   When the agent has returned, every accepted batch was acknowledged or has failed if and only if no
   send failed after the cancellation. If one did, exactly one batch, the last one handed over, is
   abandoned, and the queue is left undelivered.
   */
  lemma DrainedIff<M>(bufSize: int, steps: seq<Step<M>>)
    requires AllEnabled(Start(bufSize), steps) && Returned(Run(Start(bufSize), steps))
    ensures var p := Run(Start(bufSize), steps);
            && |p.collected| == |p.kept|
            && (Drained(p) <==> !FailsAfterCancel(Start(bufSize), steps))
            && (FailsAfterCancel(Start(bufSize), steps) ==>
                  && p.outcomes != [] && p.outcomes[|p.outcomes| - 1] == Abandoned
                  && Abandoned !in p.outcomes[..|p.outcomes| - 1]
                  && Accepted(p) == p.handed + p.queue)
  {
    StartInv<M>(bufSize);
    RunKeepsInv(Start(bufSize), steps);
    LeavesEarlyIff(Start(bufSize), steps);
    var p := Run(Start(bufSize), steps);
    if !p.sender.byClose {
      assert p.outcomes[|p.outcomes| - 1] in p.outcomes;
    }
  }

  /** A cancellation between two ticks and the first send leaves a queued batch behind. */
  lemma ShutdownMayLeaveBatches<M>(m: M)
    ensures var steps := [Tick("h", [m]), Tick("h", [m]), Cancel, StopCollecting, CloseChannel, Receive, SendErrs];
            && AllEnabled(Start(10), steps)
            && Returned(Run(Start(10), steps))
            && Run(Start(10), steps).queue == [Batch("h", [m])]
  {
    var b := Batch("h", [m]);
    var p0: Pipe<M> := Start(10);
    var p1 := Next(p0, Tick("h", [m]));
    var p2 := Next(p1, Tick("h", [m]));
    var p3 := Next(p2, Cancel);
    var p4 := Next(p3, StopCollecting);
    var p5 := Next(p4, CloseChannel);
    var p6 := Next(p5, Receive);
    var p7 := Next(p6, SendErrs);
    assert p7.queue == [b];
    RunSingle(p6, SendErrs);
    RunCons(p5, Receive, [SendErrs]);
    RunCons(p4, CloseChannel, [Receive, SendErrs]);
    RunCons(p3, StopCollecting, [CloseChannel, Receive, SendErrs]);
    RunCons(p2, Cancel, [StopCollecting, CloseChannel, Receive, SendErrs]);
    RunCons(p1, Tick("h", [m]), [Cancel, StopCollecting, CloseChannel, Receive, SendErrs]);
    RunCons(p0, Tick("h", [m]), [Tick("h", [m]), Cancel, StopCollecting, CloseChannel, Receive, SendErrs]);
  }

  lemma RunSingle<M>(p: Pipe<M>, s: Step<M>)
    requires Enabled(p, s)
    ensures AllEnabled(p, [s]) && Run(p, [s]) == Next(p, s)
  {
  }

  lemma RunCons<M>(p: Pipe<M>, s: Step<M>, rest: seq<Step<M>>)
    requires Enabled(p, s) && AllEnabled(Next(p, s), rest)
    ensures AllEnabled(p, [s] + rest) && Run(p, [s] + rest) == Run(Next(p, s), rest)
  {
  }
}
