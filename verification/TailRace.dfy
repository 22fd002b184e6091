/**
 A reader racing with an appending writer on one file. Each read takes the file's size and scans to
 the end of the file in two separate moments, and then moves its offset to the size it saw first.
 */
module TailRace {
  import opened Common
  import opened LogText
  import opened Logtail

  /** One read: the size at stat, and the file's bytes when the scan meets the end of the file. */
  datatype Read = Read(size: nat, content: Text)

  /** The bytes [lo, hi) of the file. */
  datatype Range = Range(lo: nat, hi: nat)

  /** The file only ever grows, in between reads and within a read. `before` is its content so far. */
  ghost predicate AppendOnly(before: Text, run: seq<Read>)
    decreases |run|
  {
    run != [] ==>
      && |before| <= run[0].size <= |run[0].content|
      && before <= run[0].content
      && AppendOnly(run[0].content, run[1..])
  }

  function FinalContent(before: Text, run: seq<Read>): Text
    decreases |run|
  {
    if run == [] then before else FinalContent(run[0].content, run[1..])
  }

  function FinalOffset(offset: nat, run: seq<Read>): nat
    decreases |run|
  {
    if run == [] then offset else FinalOffset(run[0].size, run[1..])
  }

  /** What one read scans: from the offset to where the scanner stops. */
  function RangeOf(offset: nat, r: Read): Range {
    Range(offset, offset + TakenBytes(Scanned(offset, r.size, r.content)))
  }

  /** The bytes of that range. */
  function TextOf(offset: nat, r: Read): Text {
    TakenText(Scanned(offset, r.size, r.content))
  }

  function Ranges(offset: nat, run: seq<Read>): seq<Range>
    decreases |run|
  {
    if run == [] then [] else [RangeOf(offset, run[0])] + Ranges(run[0].size, run[1..])
  }

  /** The bytes the scanner took, read by read. */
  function Texts(offset: nat, run: seq<Read>): seq<Text>
    decreases |run|
  {
    if run == [] then []
    else [TextOf(offset, run[0])] + Texts(run[0].size, run[1..])
  }

  /** The messages delivered over the whole run. */
  function Delivered(offset: nat, run: seq<Read>): seq<Text>
    decreases |run|
  {
    if run == [] then []
    else ScanMessages(Scanned(offset, run[0].size, run[0].content)) + Delivered(run[0].size, run[1..])
  }

  /** A run consists of write events: the messages they deliver are those of the run, and the offsets theirs. */
  lemma RunOfReads(p: PathState, before: Text, run: seq<Read>, now: Option<int>)
    requires p.handle != None && p.offset <= |before| && AppendOnly(before, run) && run != []
    ensures var os := Answers(p.handle, Some(run[0].size), true, run[0].content, now);
            var (p', messages) := EventSpec(p, {WriteOp}, os);
            && p' == PathState(p.handle, run[0].size)
            && FinalOffset(p.offset, run) == FinalOffset(p'.offset, run[1..])
            && Delivered(p.offset, run) == messages + Delivered(p'.offset, run[1..])
  {
    ScanNothing();
  }

  /** Offsets only move forward, never past the file. */
  lemma {:induction false} RunBounds(offset: nat, before: Text, run: seq<Read>)
    requires offset <= |before| && AppendOnly(before, run)
    ensures offset <= FinalOffset(offset, run) <= |FinalContent(before, run)|
    ensures before <= FinalContent(before, run)
    decreases |run|
  {
    if run != [] {
      RunBounds(run[0].size, run[0].content, run[1..]);
    }
  }

  // ----- which bytes are skipped -----

  ghost predicate CoveredBy(ranges: seq<Range>, p: nat) {
    exists k :: 0 <= k < |ranges| && ranges[k].lo <= p < ranges[k].hi
  }

  /**
   `reach` bytes of the file are scanned or not to be. A read that moves its offset beyond them meets
   no over-long line in the part that its size covers.
   */
  ghost predicate NoneMissed(offset: nat, reach: nat, run: seq<Read>)
    decreases |run|
  {
    run != [] ==>
      var r := run[0];
      && (r.size <= reach || FitsUpTo(Scanned(offset, r.size, r.content), r.size - offset))
      && NoneMissed(r.size, Later(reach, RangeOf(offset, r).hi), run[1..])
  }

  /** Every byte from `offset` up to the final one is among the first `reach` or scanned. */
  ghost predicate Reached(offset: nat, reach: nat, run: seq<Read>) {
    forall p: nat :: offset <= p < FinalOffset(offset, run) ==> p < reach || CoveredBy(Ranges(offset, run), p)
  }

  /** However appends race the reads: each begins at the size its predecessor saw, and offsets only move forward. */
  lemma {:induction false} RangesFollow(offset: nat, before: Text, run: seq<Read>)
    requires offset <= |before| && AppendOnly(before, run)
    ensures var rs := Ranges(offset, run);
            && |rs| == |run|
            && (forall k :: 0 <= k < |rs| ==> offset <= rs[k].lo <= rs[k].hi <= |run[k].content|)
            && (forall k :: 0 <= k < |rs| - 1 ==> rs[k].lo <= rs[k + 1].lo == run[k].size)
            && (rs != [] ==> rs[0].lo == offset)
    decreases |run|
  {
    hide Scanned, TakenBytes;
    if run != [] {
      RangesFollow(run[0].size, run[0].content, run[1..]);
      ReadTakes(offset, run[0], run[0].content);
      assert Ranges(offset, run)[1..] == Ranges(run[0].size, run[1..]);
    }
  }

  lemma CoveredByStep(offset: nat, run: seq<Read>, p: nat)
    requires run != []
    ensures CoveredBy(Ranges(offset, run), p) <==>
            offset <= p < RangeOf(offset, run[0]).hi || CoveredBy(Ranges(run[0].size, run[1..]), p)
  {
    var rs, tail := Ranges(offset, run), Ranges(run[0].size, run[1..]);
    if CoveredBy(tail, p) {
      var k :| 0 <= k < |tail| && tail[k].lo <= p < tail[k].hi;
      assert rs[k + 1] == tail[k];
    }
    if CoveredBy(rs, p) {
      var k :| 0 <= k < |rs| && rs[k].lo <= p < rs[k].hi;
      assert k > 0 ==> rs[k] == tail[k - 1];
    }
    assert rs[0] == RangeOf(offset, run[0]);
  }

  lemma {:induction false} ReachedIff(offset: nat, reach: nat, before: Text, run: seq<Read>)
    requires offset <= |before| && AppendOnly(before, run)
    ensures Reached(offset, reach, run) <==> NoneMissed(offset, reach, run)
    decreases |run|
  {
    if run != [] {
      var r := run[0];
      var hi := RangeOf(offset, r).hi;
      var reach' := Later(reach, hi);
      RangesFollow(offset, before, run);
      RunBounds(r.size, r.content, run[1..]);
      ReachedIff(r.size, reach', r.content, run[1..]);
      if r.size > offset {
        TakenAtLeastIff(Scanned(offset, r.size, r.content), r.size - offset);
      }
      if NoneMissed(offset, reach, run) {
        forall p: nat | offset <= p < FinalOffset(offset, run)
          ensures p < reach || CoveredBy(Ranges(offset, run), p)
        {
          CoveredByStep(offset, run, p);
        }
      }
      if Reached(offset, reach, run) {
        forall p: nat | r.size <= p < FinalOffset(offset, run)
          ensures p < reach' || CoveredBy(Ranges(r.size, run[1..]), p)
        {
          CoveredByStep(offset, run, p);
        }
        if hi < r.size && reach < r.size {
          NotLater(r.size, r.content, run[1..], reach');
          CoveredByStep(offset, run, reach');
        }
      }
    }
  }

  /** Later reads do not come back to what lies before their offset. */
  lemma NotLater(offset: nat, before: Text, run: seq<Read>, p: nat)
    requires offset <= |before| && AppendOnly(before, run) && p < offset
    ensures !CoveredBy(Ranges(offset, run), p)
  {
    RangesFollow(offset, before, run);
  }

  /**
   However appends fall between the two moments of a read: every byte from the first offset to the
   final one is scanned exactly when no over-long line starts in what some read still had to cover.
   */
  lemma GapFreeIff(offset: nat, before: Text, run: seq<Read>)
    requires offset <= |before| && AppendOnly(before, run)
    ensures EveryByteScanned(offset, run) <==> NoneMissed(offset, offset, run)
  {
    ReachedIff(offset, offset, before, run);
    if Reached(offset, offset, run) {
      forall p: nat | offset <= p < FinalOffset(offset, run)
        ensures CoveredBy(Ranges(offset, run), p)
      {
      }
    }
    if EveryByteScanned(offset, run) {
      forall p: nat | offset <= p < FinalOffset(offset, run)
        ensures p < offset || CoveredBy(Ranges(offset, run), p)
      {
      }
    }
  }

  ghost predicate EveryByteScanned(offset: nat, run: seq<Read>) {
    forall p: nat :: offset <= p < FinalOffset(offset, run) ==> CoveredBy(Ranges(offset, run), p)
  }

  /** With lines that fit the scanner there are no gaps: each read begins inside or right behind the previous range. */
  lemma GapFree(offset: nat, before: Text, run: seq<Read>)
    requires offset <= |before| && AppendOnly(before, run) && FittingFile(offset, before, run)
    ensures EveryByteScanned(offset, run)
    ensures var rs := Ranges(offset, run);
            forall k :: 0 <= k < |rs| - 1 ==> rs[k].lo <= rs[k + 1].lo <= rs[k].hi
  {
    RangesFollow(offset, before, run);
    FittingReads(offset, before, run);
    FittingMissesNone(offset, offset, before, run);
    GapFreeIff(offset, before, run);
  }

  /** With lines that fit, every read takes all it is given. */
  lemma {:induction false} FittingReads(offset: nat, before: Text, run: seq<Read>)
    requires offset <= |before| && AppendOnly(before, run) && FittingFile(offset, before, run)
    ensures |Ranges(offset, run)| == |run|
    ensures forall k :: 0 <= k < |run| ==> run[k].size <= Ranges(offset, run)[k].hi
    decreases |run|
  {
    if run != [] {
      FittingRead(offset, before, run);
      FittingReads(run[0].size, run[0].content, run[1..]);
      assert Ranges(offset, run)[1..] == Ranges(run[0].size, run[1..]);
    }
  }

  lemma FittingRead(offset: nat, before: Text, run: seq<Read>)
    requires run != [] && offset <= |before| && AppendOnly(before, run) && FittingFile(offset, before, run)
    ensures RangeOf(offset, run[0]).hi == if run[0].size == offset then offset else |run[0].content|
    ensures FittingFile(run[0].size, run[0].content, run[1..])
  {
    RunBounds(offset, before, run);
    RunBounds(run[0].size, run[0].content, run[1..]);
    TakesAll(offset, run[0], FinalContent(before, run));
    ShortLinesFrom(FinalContent(before, run), offset, run[0].size);
  }

  lemma TakesAll(offset: nat, r: Read, final: Text)
    requires offset <= r.size <= |r.content| && r.content <= final && ShortLines(final[offset..])
    ensures RangeOf(offset, r).hi == if r.size == offset then offset else |r.content|
  {
    if r.size != offset {
      var text := Scanned(offset, r.size, r.content);
      assert text == final[offset..|r.content|];
      ShortLinesBetween(final, offset, |r.content|);
      TakenAllIff(text);
    }
  }

  lemma ShortLinesFrom(data: Text, lo: nat, mid: nat)
    requires lo <= mid <= |data| && ShortLines(data[lo..])
    ensures ShortLines(data[mid..])
  {
    ShortLinesSuffix(data[lo..], mid - lo);
    assert data[lo..][mid - lo..] == data[mid..];
  }

  lemma {:induction false} FittingMissesNone(offset: nat, reach: nat, before: Text, run: seq<Read>)
    requires offset <= |before| && AppendOnly(before, run) && FittingFile(offset, before, run)
    ensures NoneMissed(offset, reach, run)
    decreases |run|
  {
    if run != [] {
      var r := run[0];
      FittingRead(offset, before, run);
      FittingMissesNone(r.size, Later(reach, RangeOf(offset, r).hi), r.content, run[1..]);
      TakenAtLeastIff(Scanned(offset, r.size, r.content), if r.size == offset then 0 else r.size - offset);
    }
  }

  ghost predicate IsRange(text: Text, final: Text, range: Range) {
    range.lo <= range.hi <= |final| && text == final[range.lo..range.hi]
  }

  /** What one read takes is exactly its range of the file. */
  lemma ReadTakes(offset: nat, r: Read, final: Text)
    requires offset <= r.size <= |r.content| && r.content <= final
    ensures IsRange(TextOf(offset, r), final, RangeOf(offset, r))
  {
  }

  /** What each read takes is exactly its range of the final file. */
  lemma {:induction false} TextsAreRanges(offset: nat, before: Text, run: seq<Read>)
    requires offset <= |before| && AppendOnly(before, run)
    ensures var rs, ts := Ranges(offset, run), Texts(offset, run);
            && |rs| == |ts|
            && forall k :: 0 <= k < |rs| ==> IsRange(ts[k], FinalContent(before, run), rs[k])
    decreases |run|
  {
    if run != [] {
      var r, rest := run[0], run[1..];
      TextsAreRanges(r.size, r.content, rest);
      RunBounds(r.size, r.content, rest);
      ReadTakes(offset, r, FinalContent(before, run));
      assert Ranges(offset, run)[1..] == Ranges(r.size, rest);
      assert Texts(offset, run)[1..] == Texts(r.size, rest);
    }
  }

  /** Over a run, the messages in what was taken are delivered, read by read. */
  lemma {:induction false} DeliveredFromTexts(offset: nat, before: Text, run: seq<Read>)
    requires offset <= |before| && AppendOnly(before, run)
    ensures Delivered(offset, run) == FlatMap(MessagesIn, Texts(offset, run))
    decreases |run|
  {
    if run != [] {
      DeliveredFromTexts(run[0].size, run[0].content, run[1..]);
      TakenMessages(Scanned(offset, run[0].size, run[0].content));
      assert Texts(offset, run)[1..] == Texts(run[0].size, run[1..]);
      FlatMapConcat(MessagesIn, [TextOf(offset, run[0])], Texts(run[0].size, run[1..]));
    }
  }

  // ----- which bytes are scanned twice -----

  /** How far the reads of a run have come: to the last size seen, or to where the last scan ended behind it. */
  function SeenEnd(offset: nat, run: seq<Read>): nat
    decreases |run|
  {
    if run == [] then offset else Later(RangeOf(offset, run[0]).hi, SeenEnd(run[0].size, run[1..]))
  }

  /** What was appended from `offset` up to there. */
  function AppendedBytes(offset: nat, before: Text, run: seq<Read>): Text {
    var final, end := FinalContent(before, run), SeenEnd(offset, run);
    if offset <= end <= |final| then final[offset..end] else []
  }

  lemma {:induction false} SeenBounds(offset: nat, before: Text, run: seq<Read>)
    requires offset <= |before| && AppendOnly(before, run)
    ensures FinalOffset(offset, run) <= SeenEnd(offset, run) <= |FinalContent(before, run)|
    ensures offset <= FinalOffset(offset, run)
    decreases |run|
  {
    if run != [] {
      SeenBounds(run[0].size, run[0].content, run[1..]);
      RunBounds(run[0].size, run[0].content, run[1..]);
      ReadTakes(offset, run[0], run[0].content);
    }
  }

  /** Whatever the first of several reads scans, the others come at least as far. */
  lemma SeenByRest(offset: nat, before: Text, run: seq<Read>)
    requires |run| > 1 && offset <= |before| && AppendOnly(before, run)
    ensures SeenEnd(offset, run) == SeenEnd(run[0].size, run[1..])
  {
    var rest := run[1..];
    ReadTakes(offset, run[0], run[0].content);
    SeenBounds(rest[0].size, rest[0].content, rest[1..]);
  }

  /** The last read finds something new, or nothing is appended after it took the size. */
  predicate LastComesToTheEnd(offset: nat, run: seq<Read>)
    decreases |run|
  {
    if run == [] then false
    else if |run| == 1 then run[0].size > offset || |run[0].content| == run[0].size
    else LastComesToTheEnd(run[0].size, run[1..])
  }

  /** With lines that fit, reads have then come to the end of all that was ever appended. */
  lemma {:induction false} SeenToTheEnd(offset: nat, before: Text, run: seq<Read>)
    requires offset <= |before| && AppendOnly(before, run) && FittingFile(offset, before, run)
    requires LastComesToTheEnd(offset, run)
    ensures SeenEnd(offset, run) == |FinalContent(before, run)|
    decreases |run|
  {
    FittingRead(offset, before, run);
    if |run| > 1 {
      SeenToTheEnd(run[0].size, run[0].content, run[1..]);
      SeenByRest(offset, before, run);
    }
  }

  lemma EverythingIsAppended(offset: nat, before: Text, run: seq<Read>)
    requires offset <= |before| && AppendOnly(before, run) && FittingFile(offset, before, run)
    requires LastComesToTheEnd(offset, run)
    ensures offset <= |FinalContent(before, run)|
    ensures AppendedBytes(offset, before, run) == FinalContent(before, run)[offset..]
  {
    SeenBounds(offset, before, run);
    SeenToTheEnd(offset, before, run);
  }

  /** Appended bytes are those that the first of several reads saw and those of the others. */
  lemma AppendedSplit(offset: nat, before: Text, run: seq<Read>)
    requires |run| > 1 && offset <= |before| && AppendOnly(before, run)
    ensures offset <= run[0].size <= |FinalContent(before, run)| && run[0].content <= FinalContent(before, run)
    ensures AppendedBytes(offset, before, run) ==
            FinalContent(before, run)[offset..run[0].size] + AppendedBytes(run[0].size, run[0].content, run[1..])
  {
    RunBounds(run[0].size, run[0].content, run[1..]);
    SeenBounds(run[0].size, run[0].content, run[1..]);
    SeenByRest(offset, before, run);
    SliceSplit(FinalContent(before, run), offset, run[0].size, SeenEnd(offset, run));
  }

  lemma SliceSplit<T>(s: seq<T>, lo: nat, mid: nat, hi: nat)
    requires lo <= mid <= hi <= |s|
    ensures s[lo..hi] == s[lo..mid] + s[mid..hi]
  {
  }

  /** A single read has seen what it took, if that is up to its size. */
  lemma AppendedOnce(offset: nat, before: Text, r: Read)
    requires offset <= |before| && AppendOnly(before, [r]) && RangeOf(offset, r).hi >= r.size
    ensures AppendedBytes(offset, before, [r]) == TextOf(offset, r) == AllBytes(offset, [r])
    ensures SeenEnd(offset, [r]) == RangeOf(offset, r).hi
  {
    var run := [r];
    assert run[1..] == [];
    assert FinalContent(before, run) == FinalContent(r.content, run[1..]) == r.content;
    assert SeenEnd(offset, run) == Later(RangeOf(offset, r).hi, SeenEnd(r.size, run[1..]));
    ReadTakes(offset, r, r.content);
    AllBytesStep(offset, run);
    assert AllBytes(r.size, run[1..]) == [];
  }

  /** No append falls between the stat and the end of a scan, unless no read follows that comes back to it. */
  predicate NoReread(offset: nat, run: seq<Read>)
    decreases |run|
  {
    |run| <= 1 ||
    ((run[0].size == offset || |run[0].content| == run[0].size) && NoReread(run[0].size, run[1..]))
  }

  /** Each range begins where the previous one ends, from `lo` to `hi`. */
  ghost predicate Tiles(ranges: seq<Range>, lo: nat, hi: nat)
    decreases |ranges|
  {
    if ranges == [] then lo == hi else ranges[0].lo == lo && Tiles(ranges[1..], ranges[0].hi, hi)
  }

  /** A scan ends at the size its read saw: all before fits, and there the file ends or an over-long line starts. */
  ghost predicate StopsAtSize(offset: nat, r: Read) {
    r.size > offset ==>
      var text := Scanned(offset, r.size, r.content);
      FitsUpTo(text, r.size - offset) && (|r.content| == r.size || OverlongAt(text, r.size - offset))
  }

  /** Every scan but the last one does, and the last one comes at least that far. */
  ghost predicate AllStopAtSizes(offset: nat, run: seq<Read>)
    decreases |run|
  {
    if run == [] then true
    else if |run| == 1 then FitsUpTo(Scanned(offset, run[0].size, run[0].content), run[0].size - offset)
    else StopsAtSize(offset, run[0]) && AllStopAtSizes(run[0].size, run[1..])
  }

  lemma StopsAtSizeIff(offset: nat, r: Read)
    requires offset <= r.size <= |r.content|
    ensures RangeOf(offset, r).hi == r.size <==> StopsAtSize(offset, r)
  {
    if r.size > offset {
      TakenIsIff(Scanned(offset, r.size, r.content), r.size - offset);
    }
  }

  lemma ReachesSizeIff(offset: nat, r: Read)
    requires offset <= r.size <= |r.content|
    ensures RangeOf(offset, r).hi >= r.size <==> FitsUpTo(Scanned(offset, r.size, r.content), r.size - offset)
  {
    if r.size > offset {
      TakenAtLeastIff(Scanned(offset, r.size, r.content), r.size - offset);
    }
  }

  /**
   The scanned ranges cover what was appended, as far as reads have come, without gap or overlap exactly
   when every scan but the last ends at the size its read saw, and the last one comes at least that far.
   */
  lemma {:induction false} EachByteOnceIff(offset: nat, before: Text, run: seq<Read>)
    requires offset <= |before| && AppendOnly(before, run)
    ensures Tiles(Ranges(offset, run), offset, SeenEnd(offset, run)) <==> AllStopAtSizes(offset, run)
    decreases |run|
  {
    if run != [] {
      var r, tail := run[0], Ranges(run[0].size, run[1..]);
      if |run| == 1 {
        ReachesSizeIff(offset, r);
        TilesOne(RangeOf(offset, r), SeenEnd(offset, run));
      } else {
        StopsAtSizeIff(offset, r);
        EachByteOnceIff(r.size, r.content, run[1..]);
        RangesFollow(r.size, r.content, run[1..]);
        SeenByRest(offset, before, run);
        TilesStep(RangeOf(offset, r), tail, r.size, SeenEnd(offset, run));
      }
    }
  }

  lemma TilesOne(range: Range, hi: nat)
    ensures Tiles([range], range.lo, hi) <==> range.hi == hi
  {
    assert [range][1..] == [];
  }

  lemma TilesStep(first: Range, tail: seq<Range>, next: nat, hi: nat)
    requires tail != [] && tail[0].lo == next
    ensures Tiles([first] + tail, first.lo, hi) <==> first.hi == next && Tiles(tail, next, hi)
  {
    assert ([first] + tail)[1..] == tail;
  }

  /** How many bytes are scanned beyond the size their read had seen, and then again. */
  function Overrun(offset: nat, run: seq<Read>): int
    decreases |run|
  {
    if |run| <= 1 then 0
    else RangeOf(offset, run[0]).hi - run[0].size + Overrun(run[0].size, run[1..])
  }

  function AllBytes(offset: nat, run: seq<Read>): Text {
    FlatMap((t: Text) => t, Texts(offset, run))
  }

  lemma AllBytesStep(offset: nat, run: seq<Read>)
    requires run != []
    ensures AllBytes(offset, run) == TextOf(offset, run[0]) + AllBytes(run[0].size, run[1..])
  {
  }

  lemma FittingReaches(offset: nat, before: Text, run: seq<Read>)
    requires run != [] && offset <= |before| && AppendOnly(before, run) && FittingFile(offset, before, run)
    ensures RangeOf(offset, run[0]).hi >= run[0].size
    ensures RangeOf(offset, run[0]).hi == run[0].size <==>
            run[0].size == offset || |run[0].content| == run[0].size
  {
    FittingRead(offset, before, run);
  }

  lemma {:induction false} OverrunCounts(offset: nat, before: Text, run: seq<Read>)
    requires offset <= |before| && AppendOnly(before, run) && FittingFile(offset, before, run)
    ensures |AllBytes(offset, run)| == SeenEnd(offset, run) - offset + Overrun(offset, run)
    ensures Overrun(offset, run) >= 0
    ensures Overrun(offset, run) == 0 <==> NoReread(offset, run)
    decreases |run|
  {
    if run != [] {
      AllBytesStep(offset, run);
      FittingReaches(offset, before, run);
      if |run| == 1 {
        assert run == [run[0]];
        AppendedOnce(offset, before, run[0]);
      } else {
        FittingRead(offset, before, run);
        SeenByRest(offset, before, run);
        OverrunCounts(run[0].size, run[0].content, run[1..]);
      }
    }
  }

  lemma {:induction false} NoRereadBytes(offset: nat, before: Text, run: seq<Read>)
    requires offset <= |before| && AppendOnly(before, run) && NoReread(offset, run) && FittingFile(offset, before, run)
    ensures AllBytes(offset, run) == AppendedBytes(offset, before, run)
    decreases |run|
  {
    if run == [] {
      assert AppendedBytes(offset, before, run) == [];
    } else if |run| == 1 {
      assert run == [run[0]];
      FittingReaches(offset, before, run);
      AppendedOnce(offset, before, run[0]);
    } else {
      var r := run[0];
      AllBytesStep(offset, run);
      AppendedSplit(offset, before, run);
      FittingReaches(offset, before, run);
      FittingRead(offset, before, run);
      ReadTakes(offset, r, FinalContent(before, run));
      NoRereadBytes(r.size, r.content, run[1..]);
    }
  }

  /**
   With lines that fit the scanner, the bytes scanned over a run are the appended bytes, each once and in
   order, exactly when no append races a read that another one follows.
   */
  lemma BytesExactlyOnceIff(offset: nat, before: Text, run: seq<Read>)
    requires offset <= |before| && AppendOnly(before, run) && FittingFile(offset, before, run)
    ensures AllBytes(offset, run) == AppendedBytes(offset, before, run) <==> NoReread(offset, run)
  {
    SeenBounds(offset, before, run);
    OverrunCounts(offset, before, run);
    if NoReread(offset, run) {
      NoRereadBytes(offset, before, run);
    }
  }

  /** Every size a read sees is at the end of a line. */
  ghost predicate SizesAtLineEnds(run: seq<Read>) {
    forall r :: r in run ==> r.size <= |r.content| && AtLineEnd(r.content[..r.size])
  }

  /** The messages in the bytes that a read scans beyond the size it saw. */
  function RacedIn(offset: nat, r: Read): seq<Text> {
    if r.size == offset || r.size > |r.content| then [] else ScanMessages(r.content[r.size..])
  }

  /** The messages that raced a read and that the next one finds again. */
  function RacedAgain(offset: nat, run: seq<Read>): seq<Text>
    decreases |run|
  {
    if |run| <= 1 then [] else RacedIn(offset, run[0]) + RacedAgain(run[0].size, run[1..])
  }

  /** Every line of the file behind `offset` fits the scanner. */
  ghost predicate FittingFile(offset: nat, before: Text, run: seq<Read>) {
    offset <= |FinalContent(before, run)| ==> ShortLines(FinalContent(before, run)[offset..])
  }

  /** One read delivers its own lines and then whatever raced in behind them. */
  lemma ReadDelivers(offset: nat, r: Read, final: Text)
    requires offset <= r.size <= |r.content| && r.content <= final
    requires ShortLines(final[offset..]) && AtLineEnd(r.content[..r.size])
    ensures ScanMessages(Scanned(offset, r.size, r.content)) ==
            ScanMessages(final[offset..r.size]) + RacedIn(offset, r)
  {
    var mine, extra := r.content[offset..r.size], r.content[r.size..];
    assert final[offset..r.size] == mine;
    if r.size != offset {
      assert r.content[offset..] == mine + extra;
      assert final[offset..][0..|r.content| - offset] == mine + extra;
      ShortLinesSlice(final[offset..], 0, |r.content| - offset);
      assert mine[|mine| - 1] == r.content[..r.size][r.size - 1];
      ScanMessagesConcat(mine, extra);
    }
  }

  /** The appended messages are those of the first read's lines followed by those of the rest. */
  lemma AppendedStep(offset: nat, before: Text, run: seq<Read>)
    requires |run| > 1 && offset <= |before| && AppendOnly(before, run) && SizesAtLineEnds(run)
    requires FittingFile(offset, before, run)
    ensures var r, final := run[0], FinalContent(before, run);
            && offset <= r.size <= |r.content| && r.content <= final
            && ScanMessages(AppendedBytes(offset, before, run)) ==
               ScanMessages(final[offset..r.size]) + ScanMessages(AppendedBytes(r.size, r.content, run[1..]))
  {
    RunBounds(offset, before, run);
    RunBounds(run[0].size, run[0].content, run[1..]);
    SeenBounds(run[0].size, run[0].content, run[1..]);
    SeenByRest(offset, before, run);
    var r, final, end := run[0], FinalContent(before, run), SeenEnd(offset, run);
    assert r in run && r.content[..r.size] == final[..r.size];
    SplitMessages(offset, r.size, end, final);
  }

  lemma SplitMessages(lo: nat, mid: nat, hi: nat, final: Text)
    requires lo <= mid <= hi <= |final|
    requires ShortLines(final[lo..]) && AtLineEnd(final[..mid])
    ensures ScanMessages(final[lo..hi]) == ScanMessages(final[lo..mid]) + ScanMessages(final[mid..hi])
  {
    var a, b := final[lo..mid], final[mid..hi];
    ShortLinesBetween(final, lo, hi);
    assert final[lo..hi] == a + b;
    if a != [] {
      assert a[|a| - 1] == final[..mid][mid - 1];
    }
    ScanMessagesConcat(a, b);
  }

  /** The rest of a run inherits what a run assumes. */
  lemma RestOfRun(offset: nat, before: Text, run: seq<Read>)
    requires run != [] && offset <= |before| && AppendOnly(before, run) && SizesAtLineEnds(run)
    requires FittingFile(offset, before, run)
    ensures SizesAtLineEnds(run[1..]) && FittingFile(run[0].size, run[0].content, run[1..])
    ensures offset <= |FinalContent(before, run)| && ShortLines(FinalContent(before, run)[offset..])
  {
    RunBounds(offset, before, run);
    RunBounds(run[0].size, run[0].content, run[1..]);
    ShortLinesFrom(FinalContent(before, run), offset, run[0].size);
  }

  /** A single read delivers what was appended, as far as it came. */
  lemma OneReadDelivers(offset: nat, before: Text, r: Read)
    requires offset <= |before| && AppendOnly(before, [r]) && FittingFile(offset, before, [r])
    ensures Delivered(offset, [r]) == ScanMessages(AppendedBytes(offset, before, [r]))
  {
    var run, text := [r], Scanned(offset, r.size, r.content);
    FittingReaches(offset, before, run);
    FittingRead(offset, before, run);
    AppendedOnce(offset, before, r);
    assert TakenBytes(text) == |text| && TextOf(offset, r) == text;
    assert run[1..] == [] && Delivered(r.size, []) == [];
    assert Delivered(offset, run) == ScanMessages(text) + [];
  }

  /**
   For every interleaving: the delivered messages are the appended ones, as far as reads have come, each
   once, plus a second time exactly the messages that raced a read and that the next one finds again.
   */
  lemma {:induction false} DeliveryAccount(offset: nat, before: Text, run: seq<Read>)
    requires offset <= |before| && AppendOnly(before, run) && SizesAtLineEnds(run)
    requires FittingFile(offset, before, run)
    ensures multiset(Delivered(offset, run)) ==
            multiset(ScanMessages(AppendedBytes(offset, before, run))) + multiset(RacedAgain(offset, run))
    ensures RacedAgain(offset, run) == [] ==>
              Delivered(offset, run) == ScanMessages(AppendedBytes(offset, before, run))
    decreases |run|
  {
    hide ScanMessages, Scanned;
    if run == [] {
      ScanNothing();
      assert AppendedBytes(offset, before, run) == [];
    } else if |run| == 1 {
      assert run == [run[0]];
      OneReadDelivers(offset, before, run[0]);
    } else {
      var r, rest := run[0], run[1..];
      var final := FinalContent(before, run);
      RestOfRun(offset, before, run);
      DeliveryAccount(r.size, r.content, rest);
      AppendedStep(offset, before, run);
      assert r in run;
      ReadDelivers(offset, r, final);
      Combine(ScanMessages(final[offset..r.size]), RacedIn(offset, r),
              Delivered(r.size, rest), ScanMessages(AppendedBytes(r.size, r.content, rest)), RacedAgain(r.size, rest));
    }
  }

  lemma Combine<T>(own: seq<T>, extra: seq<T>, delivered: seq<T>, expected: seq<T>, raced: seq<T>)
    requires multiset(delivered) == multiset(expected) + multiset(raced)
    requires raced == [] ==> delivered == expected
    ensures multiset(own + extra + delivered) == multiset(own + expected) + multiset(extra + raced)
    ensures extra + raced == [] ==> own + extra + delivered == own + expected
  {
  }

  lemma ShortLinesBetween(data: Text, lo: nat, hi: nat)
    requires lo <= hi <= |data| && ShortLines(data[lo..])
    ensures ShortLines(data[lo..hi])
  {
    ShortLinesSlice(data[lo..], 0, hi - lo);
    assert data[lo..][0..hi - lo] == data[lo..hi];
  }

  lemma ShortLinesSuffix(data: Text, lo: nat)
    requires ShortLines(data) && lo <= |data|
    ensures ShortLines(data[lo..])
  {
    ShortLinesSlice(data, lo, |data|);
    assert data[lo..|data|] == data[lo..];
  }

  lemma {:induction false} NoRereadNothingRaced(offset: nat, before: Text, run: seq<Read>)
    requires AppendOnly(before, run) && NoReread(offset, run)
    ensures RacedAgain(offset, run) == []
    decreases |run|
  {
    if |run| > 1 {
      ScanNothing();
      assert |run[0].content| == run[0].size ==> run[0].content[run[0].size..] == [];
      NoRereadNothingRaced(run[0].size, run[0].content, run[1..]);
    }
  }

  lemma AppendedFits(offset: nat, before: Text, run: seq<Read>)
    requires offset <= |before| && AppendOnly(before, run) && FittingFile(offset, before, run)
    ensures ScanMessages(AppendedBytes(offset, before, run)) == MessagesIn(AppendedBytes(offset, before, run))
  {
    SeenBounds(offset, before, run);
    var final, end := FinalContent(before, run), SeenEnd(offset, run);
    ShortLinesBetween(final, offset, end);
    ShortScan(final[offset..end]);
  }

  /**
   With observed sizes at line ends and lines that fit the scanner, a run delivers the messages of the
   appended lines exactly once and in order if and only if no message races a read that another one follows.
   */
  lemma DeliveredExactlyOnceIff(offset: nat, before: Text, run: seq<Read>)
    requires offset <= |before| && AppendOnly(before, run) && SizesAtLineEnds(run)
    requires FittingFile(offset, before, run)
    ensures Delivered(offset, run) == MessagesIn(AppendedBytes(offset, before, run)) <==> RacedAgain(offset, run) == []
    ensures NoReread(offset, run) ==> RacedAgain(offset, run) == []
  {
    DeliveryAccount(offset, before, run);
    AppendedFits(offset, before, run);
    NothingExtra(Delivered(offset, run), ScanMessages(AppendedBytes(offset, before, run)), RacedAgain(offset, run));
    if NoReread(offset, run) {
      NoRereadNothingRaced(offset, before, run);
    }
  }

  // ----- where once is not kept -----

  lemma TwoReads(offset: nat, r: Read, r': Read)
    ensures Delivered(offset, [r, r']) ==
            ScanMessages(Scanned(offset, r.size, r.content)) + ScanMessages(Scanned(r.size, r'.size, r'.content))
  {
    assert [r, r'][1..] == [r'] && [r'][1..] == [];
    assert Delivered(r.size, [r']) == ScanMessages(Scanned(r.size, r'.size, r'.content)) + Delivered(r'.size, []);
  }

  /** Lines appended between stat and scan are delivered by that read and again by the next one. */
  lemma RacedLinesTwice(first: Text, second: Text)
    requires first != [] && second != [] && AtLineEnd(first) && ShortLines(first + second)
    ensures var both := first + second;
            Delivered(0, [Read(|first|, both), Read(|both|, both)]) ==
            ScanMessages(first) + ScanMessages(second) + ScanMessages(second)
  {
    var both := first + second;
    TwoReads(0, Read(|first|, both), Read(|both|, both));
    assert both[0..] == both && both[|first|..] == second;
    ScanMessagesConcat(first, second);
  }

  /** A text without line ends that is kept as it is. */
  predicate PlainLine(line: Text) {
    && !Blank(line)
    && |line| <= MAX_LINE_BYTES
    && line[|line| - 1] != RETURN
    && NEWLINE !in line
  }

  lemma ScanPlainLine(line: Text, end: Text)
    requires PlainLine(line) && (end == [] || end == [NEWLINE])
    ensures ScanMessages(line + end) == [line]
  {
    var data := line + end;
    assert forall j :: 0 <= j < |line| ==> data[j] == line[j];
    LineLengthUnique(data, |line|);
    assert data[..|line|] == line;
    if end != [] {
      assert data[|line| + 1..] == [];
    } else {
      assert data == line;
    }
    assert ScanNext(data) == Token(line, []);
    ScanMessagesStep(data);
    ScanMessagesStep([]);
  }

  lemma DropFront(a: Text, b: Text)
    ensures (a + b)[|a|..] == b
  {
  }

  lemma CutReads(head: Text, rest: Text)
    ensures Delivered(0, [Read(|head|, head), Read(|head + rest|, head + rest)]) ==
            ScanMessages(head) + ScanMessages(rest)
  {
    TwoReads(0, Read(|head|, head), Read(|head + rest|, head + rest));
    DropFront(head, rest);
    DropFront([], head);
    ScanMessagesStep([]);
  }

  /** A size observed inside a line breaks that line in two, with or without a race. */
  lemma CutLineDelivered(head: Text, tail: Text)
    requires PlainLine(head) && PlainLine(tail)
    ensures var whole := head + (tail + [NEWLINE]);
            Delivered(0, [Read(|head|, head), Read(|whole|, whole)]) == [head] + [tail]
  {
    CutReads(head, tail + [NEWLINE]);
    assert head + [] == head;
    ScanPlainLine(head, []);
    ScanPlainLine(tail, [NEWLINE]);
  }
}
