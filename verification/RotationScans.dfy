/** Which bytes are scanned over runs with rotations and truncations, and which are not. */
module RotationScans {
  import opened Common
  import opened LogText
  import opened Logtail
  import opened TailRotation

  predicate ScannedAt(scans: seq<Scan>, file: nat, p: nat) {
    exists k :: 0 <= k < |scans| && scans[k].file == file && scans[k].lo <= p < scans[k].hi
  }

  lemma WithScanAt(scans: seq<Scan>, s: Scan, file: nat, p: nat)
    ensures ScannedAt(WithScan(scans, s), file, p) <==>
            ScannedAt(scans, file, p) || (s.file == file && s.lo <= p < s.hi)
  {
    var all := WithScan(scans, s);
    if ScannedAt(scans, file, p) {
      var k :| 0 <= k < |scans| && scans[k].file == file && scans[k].lo <= p < scans[k].hi;
      assert all[k] == scans[k];
    }
    if ScannedAt(all, file, p) {
      var k :| 0 <= k < |all| && all[k].file == file && all[k].lo <= p < all[k].hi;
      assert k < |scans| ==> scans[k] == all[k];
    }
    assert s.lo < s.hi ==> all[|scans|] == s;
  }

  // ----- nothing is lost -----

  /** Byte `p` is new in its generation, and the tailer has moved its offset past it. */
  predicate MustBeScanned(files: seq<Generation>, file: nat, p: nat) {
    file < |files| && files[file].first <= p < files[file].known
  }

  ghost predicate NothingLost(w: World) {
    forall file, p: nat :: MustBeScanned(w.files, file, p) ==> ScannedAt(w.scans, file, p)
  }

  /** A read that moves its offset beyond what was scanned meets no over-long line below the size it saw. */
  ghost predicate GetsThrough(w: World, s: Step)
    requires Shaped(w)
  {
    s.OnWrite? ==>
      var size := |TargetText(w)|;
      size <= w.files[Target(w)].reach || FitsUpTo(TextRead(w, s.raced), size - LowEnd(w))
  }

  ghost predicate AllGetThrough(w: World, steps: seq<Step>)
    requires AllEnabled(w, steps)
    decreases |steps|
  {
    steps != [] ==> GetsThrough(w, steps[0]) && AllGetThrough(Next(w, steps[0]), steps[1..])
  }

  predicate Below(files: seq<Generation>, file: nat, p: nat) {
    file < |files| && files[file].first <= p < files[file].reach
  }

  /** All new bytes below `reach` are scanned, and no offset was moved beyond it. */
  ghost predicate Gapless(w: World) {
    && (forall i :: 0 <= i < |w.files| ==> w.files[i].known <= w.files[i].reach)
    && forall file, p: nat :: Below(w.files, file, p) ==> ScannedAt(w.scans, file, p)
  }

  /** A byte that no scan can reach any more: a stretch without newline in front of it fills the scanner's buffer. */
  predicate LostByte(w: World, file: nat, stop: nat, p: nat) {
    && MustBeScanned(w.files, file, p)
    && stop <= p && stop + SCAN_BUFFER <= |w.files[file].content| && !NewlineWithin(w.files[file].content, stop)
    && !ScannedAt(w.scans, file, p)
  }

  lemma StretchStays(data: Text, more: Text, i: nat)
    requires i + SCAN_BUFFER <= |data|
    ensures NewlineWithin(data + more, i) <==> NewlineWithin(data, i)
  {
    if NewlineWithin(data, i) {
      var k :| i <= k < i + SCAN_BUFFER && k < |data| && data[k] == NEWLINE;
      assert (data + more)[k] == NEWLINE;
    }
    if NewlineWithin(data + more, i) {
      var k :| i <= k < i + SCAN_BUFFER && k < |data + more| && (data + more)[k] == NEWLINE;
      assert data[k] == NEWLINE;
    }
  }

  lemma ReadScansFurther(w: World, raced: Text, file: nat, p: nat)
    requires Shaped(w)
    ensures ScannedAt(AfterRead(w, raced).scans, file, p) <==>
            ScannedAt(w.scans, file, p) || (file == Target(w) && LowEnd(w) <= p < ScanEnd(w, raced))
  {
    WithScanAt(w.scans, Scan(Target(w), LowEnd(w), ScanEnd(w, raced)), file, p);
  }

  lemma ReachesSize(w: World, raced: Text)
    requires Inv(w) && Enabled(w, OnWrite(raced)) && GetsThrough(w, OnWrite(raced))
    ensures |TargetText(w)| <= Later(w.files[Target(w)].reach, ScanEnd(w, raced))
  {
    ReadScans(w, raced);
    var size := |TargetText(w)|;
    if LowEnd(w) < size {
      TakenAtLeastIff(TextRead(w, raced), size - LowEnd(w));
    }
  }

  lemma ReadIsGapless(w: World, raced: Text)
    requires Inv(w) && Gapless(w) && Enabled(w, OnWrite(raced)) && GetsThrough(w, OnWrite(raced))
    ensures Gapless(AfterRead(w, raced))
  {
    ReadScans(w, raced);
    ReachesSize(w, raced);
    var w', t := AfterRead(w, raced), Target(w);
    assert GenerationOk(w.files[t]) && w.files[t].known <= w.files[t].reach;
    forall file, p: nat | Below(w'.files, file, p)
      ensures ScannedAt(w'.scans, file, p)
    {
      ReadScansFurther(w, raced, file, p);
      assert Below(w.files, file, p) || (file == t && LowEnd(w) <= p < ScanEnd(w, raced));
    }
  }

  lemma QuietIsGapless(w: World, s: Step)
    requires Inv(w) && Gapless(w) && Enabled(w, s) && !s.OnWrite?
    ensures Gapless(Next(w, s))
  {
    var w' := Next(w, s);
    forall file, p: nat | Below(w'.files, file, p)
      ensures ScannedAt(w'.scans, file, p)
    {
      assert Below(w.files, file, p);
    }
  }

  lemma {:induction false} RunIsGapless(w: World, steps: seq<Step>)
    requires Inv(w) && Gapless(w) && AllEnabled(w, steps) && AllGetThrough(w, steps)
    ensures Gapless(Run(w, steps))
    decreases |steps|
  {
    if steps != [] {
      StepKeepsInv(w, steps[0]);
      if steps[0].OnWrite? {
        ReadIsGapless(w, steps[0].raced);
      } else {
        QuietIsGapless(w, steps[0]);
      }
      RunIsGapless(Next(w, steps[0]), steps[1..]);
    }
  }

  lemma LossBegins(w: World, raced: Text)
    requires Inv(w) && Enabled(w, OnWrite(raced)) && !GetsThrough(w, OnWrite(raced))
    ensures var end := ScanEnd(w, raced);
            LostByte(AfterRead(w, raced), Target(w), end, Later(w.files[Target(w)].reach, end))
  {
    ReadScans(w, raced);
    var t, end := Target(w), ScanEnd(w, raced);
    var size, text, w' := |TargetText(w)|, TextRead(w, raced), AfterRead(w, raced);
    assert GenerationOk(w.files[t]);
    assert FitsUpTo(text, 0);
    TakenAtLeastIff(text, size - LowEnd(w));
    StopsAtOverlong(text);
    assert text == w'.files[t].content[LowEnd(w)..];
    NewlineShift(w'.files[t].content, LowEnd(w), TakenBytes(text));
    var p := Later(w.files[t].reach, end);
    ReadScansFurther(w, raced, t, p);
    NotBeyondReach(w, t, p);
  }

  lemma NotBeyondReach(w: World, file: nat, p: nat)
    requires Inv(w) && file < |w.files| && p >= w.files[file].reach
    ensures !ScannedAt(w.scans, file, p)
  {
    forall k | 0 <= k < |w.scans| && w.scans[k].file == file
      ensures w.scans[k].hi <= w.files[file].reach
    {
      assert ScanOk(w.files, w.scans[k]);
    }
  }

  lemma ReadStaysLost(w: World, raced: Text, file: nat, stop: nat, p: nat)
    requires Inv(w) && Enabled(w, OnWrite(raced)) && LostByte(w, file, stop, p)
    ensures LostByte(AfterRead(w, raced), file, stop, p)
  {
    ReadScans(w, raced);
    var low, text := LowEnd(w), TextRead(w, raced);
    assert GenerationOk(w.files[file]);
    StretchStays(w.files[file].content, raced, stop);
    ReadScansFurther(w, raced, file, p);
    if file == Target(w) && low <= p && text != [] {
      assert low == 0;
      assert text == (w.files[file].content + raced)[0..] == w.files[file].content + raced;
      StopsBefore(text, stop);
    }
  }

  lemma QuietStaysLost(w: World, s: Step, file: nat, stop: nat, p: nat)
    requires Inv(w) && Enabled(w, s) && !s.OnWrite? && LostByte(w, file, stop, p)
    ensures LostByte(Next(w, s), file, stop, p)
  {
    if s.Append? {
      StretchStays(w.files[file].content, s.bytes, stop);
    }
  }

  lemma {:induction false} RunStaysLost(w: World, steps: seq<Step>, file: nat, stop: nat, p: nat)
    requires Inv(w) && AllEnabled(w, steps) && LostByte(w, file, stop, p)
    ensures LostByte(Run(w, steps), file, stop, p)
    decreases |steps|
  {
    if steps != [] {
      StepKeepsInv(w, steps[0]);
      if steps[0].OnWrite? {
        ReadStaysLost(w, steps[0].raced, file, stop, p);
      } else {
        QuietStaysLost(w, steps[0], file, stop, p);
      }
      RunStaysLost(Next(w, steps[0]), steps[1..], file, stop, p);
    }
  }

  lemma {:induction false} RunLoses(w: World, steps: seq<Step>)
    requires Inv(w) && AllEnabled(w, steps) && !AllGetThrough(w, steps)
    ensures !NothingLost(Run(w, steps))
    decreases |steps|
  {
    StepKeepsInv(w, steps[0]);
    if GetsThrough(w, steps[0]) {
      RunLoses(Next(w, steps[0]), steps[1..]);
    } else {
      var raced := steps[0].raced;
      var file, stop := Target(w), ScanEnd(w, raced);
      var p := Later(w.files[file].reach, stop);
      LossBegins(w, raced);
      RunStaysLost(Next(w, steps[0]), steps[1..], file, stop, p);
      assert MustBeScanned(Run(w, steps).files, file, p);
    }
  }

  lemma StartupIsGapless(initial: Text)
    ensures Inv(Startup(initial)) && Gapless(Startup(initial))
  {
  }

  /**
   Over every run with any number of rotations and truncations, and whatever races the reads: every
   byte that was appended and that the tailer has moved past was scanned, exactly when no read that
   moves beyond what was scanned meets an over-long line below the size it saw.
   */
  lemma NothingLostIff(initial: Text, steps: seq<Step>)
    requires AllEnabled(Startup(initial), steps)
    ensures NothingLost(Run(Startup(initial), steps)) <==> AllGetThrough(Startup(initial), steps)
  {
    StartupIsGapless(initial);
    if AllGetThrough(Startup(initial), steps) {
      RunIsGapless(Startup(initial), steps);
      var w := Run(Startup(initial), steps);
      forall file, p: nat | MustBeScanned(w.files, file, p)
        ensures ScannedAt(w.scans, file, p)
      {
        assert Below(w.files, file, p);
      }
    } else {
      RunLoses(Startup(initial), steps);
    }
  }

  // ----- what is left behind -----

  predicate NeverRaced(steps: seq<Step>) {
    forall s :: s in steps ==> s.OnWrite? ==> s.raced == []
  }

  ghost predicate ReachIsKnown(w: World) {
    forall i :: 0 <= i < |w.files| ==> w.files[i].reach <= w.files[i].known
  }

  lemma StaysBelowKnown(w: World, s: Step)
    requires Inv(w) && Enabled(w, s) && (s.OnWrite? ==> s.raced == []) && ReachIsKnown(w)
    ensures ReachIsKnown(Next(w, s))
  {
    if s.OnWrite? {
      ReadStaysInside(w, []);
      assert GenerationOk(w.files[Target(w)]);
    }
  }

  lemma {:induction false} RunStaysBelowKnown(w: World, steps: seq<Step>)
    requires Inv(w) && AllEnabled(w, steps) && NeverRaced(steps) && ReachIsKnown(w)
    ensures ReachIsKnown(Run(w, steps))
    decreases |steps|
  {
    if steps != [] {
      StepKeepsInv(w, steps[0]);
      assert steps[0] in steps;
      StaysBelowKnown(w, steps[0]);
      RunStaysBelowKnown(Next(w, steps[0]), steps[1..]);
    }
  }

  /**
   Files may be rotated, truncated or reopened at any time, however much of them is unread. If every read
   gets through, a byte that is new in its generation was scanned exactly when it lies below the end of some
   scan of that generation, which is at least the last size seen there. Without races it is that
   size: what a generation holds beyond it when it is closed is lost, and nothing else.
   */
  lemma LostBehindLastSizeIff(initial: Text, steps: seq<Step>, file: nat, p: nat)
    requires AllEnabled(Startup(initial), steps) && AllGetThrough(Startup(initial), steps)
    requires var w := Run(Startup(initial), steps); file < |w.files| && w.files[file].first <= p
    ensures var w := Run(Startup(initial), steps); var g := w.files[file];
            && g.known <= g.reach
            && (ScannedAt(w.scans, file, p) <==> p < g.reach)
            && (NeverRaced(steps) ==> (ScannedAt(w.scans, file, p) <==> p < g.known))
  {
    var w := Run(Startup(initial), steps);
    StartupIsGapless(initial);
    RunIsGapless(Startup(initial), steps);
    RunKeepsInv(Startup(initial), steps);
    if p < w.files[file].reach {
      assert Below(w.files, file, p);
    } else {
      NotBeyondReach(w, file, p);
    }
    if NeverRaced(steps) {
      RunStaysBelowKnown(Startup(initial), steps);
    }
  }

  // ----- what was there at startup -----

  /** How many bytes of a generation are still those that the first file held at startup. */
  function OldBytes(files: seq<Generation>, file: nat): nat
    requires file < |files|
  {
    if file == 0 then files[0].first
    else
      var kept := OldBytes(files, file - 1);
      if kept < files[file].first then kept else files[file].first
  }

  /** Such bytes are left only if truncations alone led to the generation and each of them kept something. */
  lemma {:induction false} OldBytesLeftIff(files: seq<Generation>, file: nat)
    requires file < |files|
    ensures OldBytes(files, file) > 0 <==> forall j :: 0 <= j <= file ==> files[j].first > 0
  {
    if file > 0 {
      OldBytesLeftIff(files, file - 1);
    }
  }

  lemma {:induction false} OldBytesStay(files: seq<Generation>, files': seq<Generation>, file: nat)
    requires file < |files| <= |files'| && forall i :: 0 <= i < |files| ==> files'[i].first == files[i].first
    ensures OldBytes(files', file) == OldBytes(files, file) <= files[file].first
  {
    if file > 0 {
      OldBytesStay(files, files', file - 1);
    }
  }

  predicate ScansOld(files: seq<Generation>, s: Scan, p: nat) {
    s.file < |files| && s.lo <= p < s.hi && p < OldBytes(files, s.file)
  }

  predicate IsOld(files: seq<Generation>, s: Scan) {
    s.file < |files| && s.lo < s.hi && s.lo < OldBytes(files, s.file)
  }

  /** Some byte that was there at startup was scanned. */
  predicate StartupScanned(files: seq<Generation>, scans: seq<Scan>) {
    exists k :: 0 <= k < |scans| && IsOld(files, scans[k])
  }

  /**
   A read that begins at byte 0 of a file which, through truncations only, still starts with bytes from
   before startup, and whose first line fits the scanner.
   */
  predicate ReadsStartup(w: World, s: Step)
    requires Shaped(w)
  {
    && s.OnWrite? && LowEnd(w) == 0
    && OldBytes(w.files, Target(w)) > 0
    && !OverlongAt(TargetText(w) + s.raced, 0)
  }

  ghost predicate SomeReadsStartup(w: World, steps: seq<Step>)
    requires AllEnabled(w, steps)
    decreases |steps|
  {
    steps != [] && (ReadsStartup(w, steps[0]) || SomeReadsStartup(Next(w, steps[0]), steps[1..]))
  }

  lemma StartupScannedMore(files: seq<Generation>, scans: seq<Scan>, s: Scan)
    ensures StartupScanned(files, WithScan(scans, s)) <==> StartupScanned(files, scans) || IsOld(files, s)
  {
    var all := WithScan(scans, s);
    if StartupScanned(files, scans) {
      var k :| 0 <= k < |scans| && IsOld(files, scans[k]);
      assert all[k] == scans[k];
    }
    assert s.lo < s.hi ==> all[|scans|] == s;
    assert forall k :: 0 <= k < |scans| ==> all[k] == scans[k];
  }

  lemma StartupScannedStays(w: World, files: seq<Generation>)
    requires Inv(w) && |w.files| <= |files|
    requires forall i :: 0 <= i < |w.files| ==> files[i].first == w.files[i].first
    ensures StartupScanned(files, w.scans) <==> StartupScanned(w.files, w.scans)
  {
    forall k | 0 <= k < |w.scans|
      ensures IsOld(files, w.scans[k]) <==> IsOld(w.files, w.scans[k])
    {
      assert ScanOk(w.files, w.scans[k]);
      OldBytesStay(w.files, files, w.scans[k].file);
    }
  }

  lemma TakesOld(w: World, raced: Text)
    requires Inv(w) && Enabled(w, OnWrite(raced))
    ensures IsOld(w.files, Scan(Target(w), LowEnd(w), ScanEnd(w, raced))) <==> ReadsStartup(w, OnWrite(raced))
  {
    ReadScans(w, raced);
    var t, text := Target(w), TextRead(w, raced);
    assert GenerationOk(w.files[t]);
    OldBytesStay(w.files, w.files, t);
    TakenIsIff(text, 0);
    if LowEnd(w) == 0 && OldBytes(w.files, t) > 0 {
      assert text == TargetText(w) + raced;
    }
  }

  lemma ReadOfStartup(w: World, raced: Text)
    requires Inv(w) && Enabled(w, OnWrite(raced))
    ensures var w' := AfterRead(w, raced);
            StartupScanned(w'.files, w'.scans) <==>
            StartupScanned(w.files, w.scans) || ReadsStartup(w, OnWrite(raced))
  {
    var w', s := AfterRead(w, raced), Scan(Target(w), LowEnd(w), ScanEnd(w, raced));
    TakesOld(w, raced);
    StartupScannedMore(w'.files, w.scans, s);
    StartupScannedStays(w, w'.files);
    OldBytesStay(w.files, w'.files, Target(w));
  }

  lemma StepOfStartup(w: World, s: Step)
    requires Inv(w) && Enabled(w, s)
    ensures var w' := Next(w, s);
            StartupScanned(w'.files, w'.scans) <==> StartupScanned(w.files, w.scans) || ReadsStartup(w, s)
  {
    if s.OnWrite? {
      ReadOfStartup(w, s.raced);
    } else {
      StartupScannedStays(w, Next(w, s).files);
    }
  }

  lemma {:induction false} RunOfStartup(w: World, steps: seq<Step>)
    requires Inv(w) && AllEnabled(w, steps)
    ensures var w' := Run(w, steps);
            StartupScanned(w'.files, w'.scans) <==> StartupScanned(w.files, w.scans) || SomeReadsStartup(w, steps)
    decreases |steps|
  {
    if steps != [] {
      StepKeepsInv(w, steps[0]);
      StepOfStartup(w, steps[0]);
      RunOfStartup(Next(w, steps[0]), steps[1..]);
    }
  }

  /**
   Over every run: a byte from before startup is scanned if and only if some read begins at byte 0 of a
   file that truncations made out of the first one, keeping some of those bytes.
   */
  lemma StartupReadIff(initial: Text, steps: seq<Step>)
    requires AllEnabled(Startup(initial), steps)
    ensures var w := Run(Startup(initial), steps);
            (exists k, p :: 0 <= k < |w.scans| && ScansOld(w.files, w.scans[k], p)) <==>
            SomeReadsStartup(Startup(initial), steps)
  {
    StartupOk(initial);
    RunOfStartup(Startup(initial), steps);
    var w := Run(Startup(initial), steps);
    if StartupScanned(w.files, w.scans) {
      var k :| 0 <= k < |w.scans| && IsOld(w.files, w.scans[k]);
      assert ScansOld(w.files, w.scans[k], w.scans[k].lo);
    }
  }
}
