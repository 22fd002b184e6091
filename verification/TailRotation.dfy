/**
 Rotation and truncation of one tailed path. Every rotation or truncation starts a new generation of
 the file at the path; the last generation is the file there now.
 */
module TailRotation {
  import opened Common
  import opened LogText
  import opened Logtail

  /**
   The first `first` bytes of a generation are not new in it: what the first file held at startup, and
   what a truncation kept. `known` bytes are not new or lie below the size that the last read saw,
   and `reach` bytes are not new or lie below the end of some scan.
   */
  datatype Generation = Generation(content: Text, first: nat, known: nat, reach: nat)

  /** A read of generation `file` scanned the bytes [lo, hi). */
  datatype Scan = Scan(file: nat, lo: nat, hi: nat)

  /**
   `shrunk` is set between a truncation and the next read. `scans` records all reads so far, and
   `delivered` the messages they brought.
   */
  datatype World = World(
    files: seq<Generation>, reader: PathState, shrunk: bool, scans: seq<Scan>, delivered: seq<Text>)

  datatype Step =
    | Append(bytes: Text)    // the writer appends to the file at the path
    | Rotate                 // the file is renamed away and an empty one takes the path
    | Truncate(keep: nat)    // the file is cut down to its first bytes
    | OnRename               // the tailer handles a rename or remove event
    | OnCreate               // the tailer handles a create event
    | OnWrite(raced: Text)   // the tailer handles a write event; `raced` is appended between stat and scan

  function Current(w: World): int { |w.files| - 1 }

  /** The generation a read looks at: the open one, or the one at the path if none is open. */
  function Target(w: World): int {
    if w.reader.handle == None then Current(w) else w.reader.handle.value
  }

  predicate Shaped(w: World) {
    w.files != [] && 0 <= Target(w) < |w.files|
  }

  function TargetText(w: World): Text
    requires Shaped(w)
  {
    w.files[Target(w)].content
  }

  /**
   When a step may happen. Rename and create events follow a rotation. A truncation of the open file
   cuts below what was read, and the next read comes before the file has grown back to the old offset.
   */
  predicate Enabled(w: World, s: Step)
    requires Shaped(w)
  {
    match s
    case Append(_) => true
    case Rotate => true
    case Truncate(keep) =>
      w.reader.handle == Some(Current(w)) && !w.shrunk && keep < w.reader.offset <= |TargetText(w)|
    case OnRename => |w.files| > 1
    case OnCreate => |w.files| > 1
    case OnWrite(raced) =>
      && (Target(w) == Current(w) || raced == [])
      && (w.shrunk ==> |TargetText(w)| < w.reader.offset)
  }

  function AnswersFor(w: World, content: Text): Answers
    requires Shaped(w)
  {
    Answers(Some(Current(w)), Some(|TargetText(w)|), true, content, Some(0))
  }

  function Next(w: World, s: Step): World
    requires Shaped(w) && Enabled(w, s)
  {
    var last := Current(w);
    var file := w.files[last];
    match s
    case Append(bytes) => w.(files := w.files[last := file.(content := file.content + bytes)])
    case Rotate => w.(files := w.files + [Generation([], 0, 0, 0)])
    case Truncate(keep) =>
      w.(files := w.files + [Generation(file.content[..keep], keep, keep, keep)],
         reader := w.reader.(handle := Some(last + 1)), shrunk := true)
    case OnRename => w.(reader := EventSpec(w.reader, {RenameOp}, AnswersFor(w, [])).0, shrunk := false)
    case OnCreate => w.(reader := EventSpec(w.reader, {CreateOp}, AnswersFor(w, [])).0, shrunk := false)
    case OnWrite(raced) => AfterRead(w, raced)
  }

  /** Where a read begins. */
  function LowEnd(w: World): nat
    requires Shaped(w)
  {
    ReadStart(w.reader.offset, |TargetText(w)|)
  }

  /** What it hands to the scanner. */
  function TextRead(w: World, raced: Text): Text
    requires Shaped(w)
  {
    Scanned(w.reader.offset, |TargetText(w)|, TargetText(w) + raced)
  }

  /** Where its scan ends. */
  function ScanEnd(w: World, raced: Text): nat
    requires Shaped(w)
  {
    LowEnd(w) + TakenBytes(TextRead(w, raced))
  }

  /** A handled write event. */
  function AfterRead(w: World, raced: Text): World
    requires Shaped(w)
  {
    var t := Target(w);
    var file, content, end := w.files[t], TargetText(w) + raced, ScanEnd(w, raced);
    var read := ReadSpec(w.reader, AnswersFor(w, content));
    World(w.files[t := Generation(content, file.first, |file.content|, Later(file.reach, end))],
          read.0, false, WithScan(w.scans, Scan(t, LowEnd(w), end)), w.delivered + read.1)
  }

  /** A scan that takes nothing is not recorded. */
  function WithScan(scans: seq<Scan>, s: Scan): seq<Scan> {
    if s.lo < s.hi then scans + [s] else scans
  }

  /** The tailer opens an existing file: its content so far is skipped. */
  function Startup(initial: Text): World {
    var n := |initial|;
    World([Generation(initial, n, n, n)], PathState(Some(0), n), false, [], [])
  }

  // ----- what every step keeps -----

  predicate GenerationOk(g: Generation) {
    g.first <= g.known <= |g.content| && g.first <= g.reach <= |g.content|
  }

  /** Where the reader stands: at the last size it saw, or at the beginning of a file that is not the first one. */
  predicate ReaderOk(w: World)
    requires Shaped(w)
  {
    match w.reader.handle
    case None => |w.files| > 1 && w.reader.offset == 0 && !w.shrunk
    case Some(t) =>
      if w.shrunk then t > 0
      else w.reader.offset == w.files[t].known || (t > 0 && w.reader.offset == 0)
  }

  /** Nothing was read yet of what is behind the open file. */
  predicate Untouched(g: Generation) {
    g.known == g.first && g.reach == g.first
  }

  predicate ScanOk(files: seq<Generation>, s: Scan) {
    && s.file < |files|
    && ((s.lo == 0 && s.file > 0) || files[s.file].first <= s.lo)
    && s.lo < s.hi <= files[s.file].reach
  }

  ghost predicate Inv(w: World) {
    && Shaped(w)
    && (forall i :: 0 <= i < |w.files| ==> GenerationOk(w.files[i]))
    && (forall i :: Target(w) < i < |w.files| ==> Untouched(w.files[i]))
    && ReaderOk(w)
    && (forall k :: 0 <= k < |w.scans| ==> ScanOk(w.files, w.scans[k]))
  }

  /** A read goes on at the last size seen, or starts over at byte 0. */
  lemma ReadScans(w: World, raced: Text)
    requires Inv(w) && Enabled(w, OnWrite(raced))
    ensures var size := |TargetText(w)|;
            && LowEnd(w) <= size
            && (LowEnd(w) == w.files[Target(w)].known || (LowEnd(w) == 0 && Target(w) > 0))
            && TextRead(w, raced) == if LowEnd(w) == size then [] else (TargetText(w) + raced)[LowEnd(w)..]
  {
    assert GenerationOk(w.files[Target(w)]);
  }

  lemma ReadAnswers(w: World, raced: Text)
    requires Shaped(w) && Enabled(w, OnWrite(raced))
    ensures ReadSpec(w.reader, AnswersFor(w, TargetText(w) + raced)) ==
            (PathState(Some(Target(w)), |TargetText(w)|), ScanMessages(TextRead(w, raced)))
  {
    ScanNothing();
  }

  /** A late write event for a renamed file that was read to its end finds nothing to read. */
  lemma LateWriteIsIdle(w: World)
    requires Inv(w) && Target(w) != Current(w) && !w.shrunk && w.reader.offset == |TargetText(w)|
    ensures Enabled(w, OnWrite([])) && Next(w, OnWrite([])).delivered == w.delivered
    ensures Next(w, OnWrite([])).scans == w.scans && Next(w, OnWrite([])).reader == w.reader
  {
    ReadAnswers(w, []);
    ScanNothing();
  }

  /** Growing contents and reaches leave recorded scans valid. */
  lemma ScansStayOk(w: World, files: seq<Generation>)
    requires Inv(w) && |files| >= |w.files|
    requires forall i :: 0 <= i < |w.files| ==> files[i].first == w.files[i].first && files[i].reach >= w.files[i].reach
    ensures forall k :: 0 <= k < |w.scans| ==> ScanOk(files, w.scans[k])
  {
    forall k | 0 <= k < |w.scans|
      ensures ScanOk(files, w.scans[k])
    {
      assert ScanOk(w.files, w.scans[k]);
    }
  }

  lemma WithScanOk(files: seq<Generation>, scans: seq<Scan>, s: Scan)
    requires forall k :: 0 <= k < |scans| ==> ScanOk(files, scans[k])
    requires s.lo < s.hi ==> ScanOk(files, s)
    ensures forall k :: 0 <= k < |WithScan(scans, s)| ==> ScanOk(files, WithScan(scans, s)[k])
  {
  }

  lemma ReadStaysInside(w: World, raced: Text)
    requires Inv(w) && Enabled(w, OnWrite(raced))
    ensures LowEnd(w) <= ScanEnd(w, raced) <= |TargetText(w)| + |raced|
    ensures (Target(w) > 0 && LowEnd(w) == 0) || w.files[Target(w)].first <= LowEnd(w)
  {
    ReadScans(w, raced);
    assert GenerationOk(w.files[Target(w)]);
  }

  lemma ReadKeepsInv(w: World, raced: Text)
    requires Inv(w) && Enabled(w, OnWrite(raced))
    ensures Inv(AfterRead(w, raced))
  {
    var w' := AfterRead(w, raced);
    ReadStaysInside(w, raced);
    ReadAnswers(w, raced);
    ScansStayOk(w, w'.files);
    WithScanOk(w'.files, w.scans, Scan(Target(w), LowEnd(w), ScanEnd(w, raced)));
    assert GenerationOk(w.files[Target(w)]);
  }

  lemma FilesKeepInv(w: World, s: Step)
    requires Inv(w) && Enabled(w, s) && (s.Append? || s.Rotate? || s.Truncate?)
    ensures Inv(Next(w, s))
  {
    assert GenerationOk(w.files[Current(w)]);
    ScansStayOk(w, Next(w, s).files);
  }

  lemma EventKeepsInv(w: World, s: Step)
    requires Inv(w) && Enabled(w, s) && (s.OnRename? || s.OnCreate?)
    ensures Inv(Next(w, s))
  {
  }

  lemma StepKeepsInv(w: World, s: Step)
    requires Inv(w) && Enabled(w, s)
    ensures Inv(Next(w, s))
  {
    match s
    case OnWrite(raced) => ReadKeepsInv(w, raced);
    case OnRename => EventKeepsInv(w, s);
    case OnCreate => EventKeepsInv(w, s);
    case _ => FilesKeepInv(w, s);
  }

  ghost predicate AllEnabled(w: World, steps: seq<Step>)
    decreases |steps|
  {
    steps != [] ==>
      && Shaped(w)
      && Enabled(w, steps[0])
      && AllEnabled(Next(w, steps[0]), steps[1..])
  }

  ghost function Run(w: World, steps: seq<Step>): World
    requires AllEnabled(w, steps)
    decreases |steps|
  {
    if steps == [] then w else Run(Next(w, steps[0]), steps[1..])
  }

  lemma {:induction false} RunKeepsInv(w: World, steps: seq<Step>)
    requires Inv(w) && AllEnabled(w, steps)
    ensures Inv(Run(w, steps))
    decreases |steps|
  {
    if steps != [] {
      StepKeepsInv(w, steps[0]);
      RunKeepsInv(Next(w, steps[0]), steps[1..]);
    }
  }

  lemma StartupOk(initial: Text)
    ensures Inv(Startup(initial))
  {
  }

  // ----- when the next read starts at byte 0 -----

  /** The read that follows scans the file's whole content. */
  ghost predicate ReadsFromTheStart(p: PathState, file: FileId, content: Text, now: Option<int>) {
    ReadSpec(p, Answers(Some(file), Some(|content|), true, content, now)).1 == ScanMessages(content)
  }

  /** After a rename, a remove, or a create whose reopening succeeds, the next read starts at byte 0. */
  lemma RotationRestartsReading(
    p: PathState, ops: set<FileOp>, os: Answers, file: FileId, content: Text, now: Option<int>)
    requires WriteOp !in ops
    requires RenameOp in ops || RemoveOp in ops || (CreateOp in ops && os.open != None && os.stat != None)
    ensures ReadsFromTheStart(EventSpec(p, ops, os).0, file, content, now)
  {
  }

  /** What is scanned after the file was replaced in place is all of it only if the shrinking shows. */
  lemma ShrinkSeenIff(offset: nat, content: Text)
    ensures Scanned(offset, |content|, content) == content <==> |content| < offset || offset == 0
  {
  }

  /**
   A create whose reopening fails closes the file but keeps the old offset: a later read of the new
   file scans all of it exactly when that offset is 0 or lies behind the file's end.
   */
  lemma FailedReopenKeepsOffset(p: PathState, os: Answers, content: Text)
    requires os.open == None || os.stat == None
    ensures var p' := EventSpec(p, {CreateOp}, os).0;
            && p' == PathState(None, p.offset)
            && (Scanned(p'.offset, |content|, content) == content <==> |content| < p.offset || p.offset == 0)
  {
  }
}
