/**
 The log tailer: per-path offsets and open handles, updated in place by file-system events.
 What the operating system answers (open, stat, seek, file bytes, clock) is an input of each step.
 */
module Logtail {
  import opened Common
  import opened LogText
  import opened LogModel

  type FileId = nat

  datatype FileOp = WriteOp | CreateOp | RemoveOp | RenameOp | ChmodOp

  /** The tailer's knowledge of one path. A path without an offset entry behaves as offset 0. */
  datatype PathState = PathState(handle: Option<FileId>, offset: nat)

  /**
   The answers of the operating system during one event: the file now at the path (None if it cannot
   be opened), the size stat reports (None on error), whether seek works, the file's bytes at the
   moment the scan meets the end of the file, and the clock.
   */
  datatype Answers = Answers(open: Option<FileId>, stat: Option<nat>, seekOk: bool, content: Text, now: Option<int>)

  datatype SendOutcome = Delivered | Rejected | Cancelled

  // ----- one read -----

  /** Where reading starts: at the recorded offset, or at 0 when the file shrank below it. */
  function ReadStart(offset: nat, size: nat): nat {
    if size < offset then 0 else offset
  }

  /** The bytes one read hands to the line scanner. */
  function Scanned(offset: nat, size: nat, content: Text): Text {
    var start := ReadStart(offset, size);
    if size == start || start > |content| then [] else content[start..]
  }

  function ReadSpec(p: PathState, os: Answers): (PathState, seq<Text>) {
    var handle := if p.handle == None then os.open else p.handle;
    if handle == None then (p, [])
    else if os.stat == None then (PathState(handle, p.offset), [])
    else
      var size := os.stat.value;
      var start := ReadStart(p.offset, size);
      if size == start || !os.seekOk then (PathState(handle, start), [])
      else (PathState(handle, size), ScanMessages(Scanned(p.offset, size, os.content)))
  }

  /** Flags are tested in this order: write, then rename or remove, then create. */
  function EventSpec(p: PathState, ops: set<FileOp>, os: Answers): (PathState, seq<Text>) {
    if WriteOp in ops then ReadSpec(p, os)
    else if RenameOp in ops || RemoveOp in ops then (PathState(None, 0), [])
    else if CreateOp in ops then
      (if os.open == None || os.stat == None then PathState(None, p.offset) else PathState(os.open, 0), [])
    else (p, [])
  }

  /**
   `handed` is what reaches the sender out of `all`: everything, or the part up to and including
   the first send that is cancelled. A rejected send does not stop the rest.
   */
  ghost predicate IsHanded<T(!new)>(handed: seq<T>, all: seq<T>, sends: nat -> SendOutcome) {
    && handed <= all
    && (forall k :: 0 <= k < |handed| - 1 ==> sends(k) != Cancelled)
    && (|handed| < |all| ==> |handed| > 0 && sends(|handed| - 1) == Cancelled)
  }

  class Tailer {
    const host: Text
    const parseLevel: Text -> ParsedLevel
    var offsets: map<string, nat>
    var files: map<string, FileId>

    constructor (host: Text, parseLevel: Text -> ParsedLevel)
      ensures this.host == host && this.parseLevel == parseLevel
      ensures forall q :: View(q) == PathState(None, 0)
    {
      this.host, this.parseLevel := host, parseLevel;
      offsets, files := map[], map[];
    }

    function Offset(path: string): nat
      reads this`offsets
    {
      if path in offsets then offsets[path] else 0
    }

    function View(path: string): PathState
      reads this
    {
      PathState(if path in files then Some(files[path]) else None, Offset(path))
    }

    function EntryFor(path: string, now: Option<int>, message: Text): LogEntry {
      LogEntry(now, host, path, parseLevel(message), message)
    }

    function EntriesFor(path: string, now: Option<int>, messages: seq<Text>): (es: seq<LogEntry>)
      ensures |es| == |messages|
      ensures forall i :: 0 <= i < |es| ==> es[i] == EntryFor(path, now, messages[i])
    {
      seq(|messages|, i requires 0 <= i < |messages| => EntryFor(path, now, messages[i]))
    }

    /** Each entry holds its message, this host, the path, the clock and the message's level. */
    lemma EntriesHold(path: string, now: Option<int>, messages: seq<Text>)
      ensures MessagesOf(EntriesFor(path, now, messages)) == messages
      ensures forall e :: e in EntriesFor(path, now, messages) ==>
                e.host == host && e.path == path && e.time == now && e.level == parseLevel(e.message)
    {
    }

    lemma EntriesSnoc(path: string, now: Option<int>, messages: seq<Text>, m: Text)
      ensures EntriesFor(path, now, messages + [m]) == EntriesFor(path, now, messages) + [EntryFor(path, now, m)]
    {
    }

    /** Opening at startup records the file's size, so that older content is never read. */
    method OpenAndSeekEof(path: string, os: Answers) returns (ok: bool)
      modifies this
      ensures ok <==> os.open != None && os.stat != None
      ensures View(path) == if ok then PathState(os.open, os.stat.value) else old(View(path))
      ensures ok ==> SkipsFirst(View(path), os.stat.value)
      ensures forall q :: q != path ==> View(q) == old(View(q))
    {
      if os.open == None || os.stat == None {
        return false;
      }
      files := files[path := os.open.value];
      offsets := offsets[path := os.stat.value];
      return true;
    }

    method ClosePath(path: string)
      modifies this`files
      ensures View(path) == PathState(None, old(View(path)).offset)
      ensures forall q :: q != path ==> View(q) == old(View(q))
    {
      if path in files {
        files := files - {path};
      }
    }

    method ReadNewLines(path: string, os: Answers) returns (entries: seq<LogEntry>)
      modifies this
      ensures View(path) == ReadSpec(old(View(path)), os).0
      ensures entries == EntriesFor(path, os.now, ReadSpec(old(View(path)), os).1)
      ensures MessagesOf(entries) == ReadSpec(old(View(path)), os).1
      ensures forall e :: e in entries ==>
                e.host == host && e.path == path && e.time == os.now && e.level == parseLevel(e.message)
      ensures forall q :: q != path ==> View(q) == old(View(q))
    {
      hide ScanMessages;
      if path !in files {
        if os.open == None {
          return [];
        }
        files := files[path := os.open.value];
      }
      if os.stat == None {
        return [];
      }
      var currentSize := os.stat.value;
      if currentSize < Offset(path) {
        offsets := offsets[path := 0];
      }
      if currentSize == Offset(path) || !os.seekOk {
        return [];
      }
      var data := if Offset(path) <= |os.content| then os.content[Offset(path)..] else [];
      entries := ScanAll(path, os.now, data);
      offsets := offsets[path := currentSize];
    }

    /** The scan loop: skip blank lines, clip long ones, stop at the end or at a line that does not fit. */
    method ScanAll(path: string, now: Option<int>, data: Text) returns (entries: seq<LogEntry>)
      ensures entries == EntriesFor(path, now, ScanMessages(data))
      ensures MessagesOf(entries) == ScanMessages(data)
      ensures forall e :: e in entries ==>
                e.host == host && e.path == path && e.time == now && e.level == parseLevel(e.message)
    {
      entries := [];
      var rest := data;
      ghost var seen: seq<Text> := [];
      while ScanNext(rest).Token?
        invariant entries == EntriesFor(path, now, seen)
        invariant ScanMessages(data) == seen + ScanMessages(rest)
        decreases |rest|
      {
        var line := ScanNext(rest).line;
        SeenStep(rest, seen);
        rest := ScanNext(rest).rest;
        if !Blank(line) {
          if |line| > MAX_LINE_BYTES {
            line := line[..MAX_LINE_BYTES];
          }
          entries := entries + [EntryFor(path, now, line)];
          EntriesSnoc(path, now, seen, line);
          seen := seen + [line];
        }
      }
      ScanMessagesStep(rest);
      EntriesHold(path, now, seen);
    }

    /** Sends the entries in chunks; a failed send is skipped over, a cancelled one ends the loop. */
    method SendChunked(entries: seq<LogEntry>, sends: nat -> SendOutcome) returns (handed: seq<LogBatch>)
      ensures IsHanded(handed, Batches(host, entries), sends)
    {
      handed := [];
      if |entries| == 0 {
        return;
      }
      var i := 0;
      while i < |entries|
        invariant 0 <= i <= |entries|
        invariant |handed| == ChunkCount(i)
        invariant i == MAX_BATCH_SIZE * |handed| || i == |entries|
        invariant handed <= Batches(host, entries)
        invariant forall k :: 0 <= k < |handed| ==> sends(k) != Cancelled
      {
        ChunkAt(entries, |handed|);
        var end := i + MAX_BATCH_SIZE;
        if end > |entries| {
          end := |entries|;
        }
        var outcome := sends(|handed|);
        handed := handed + [LogBatch(host, entries[i..end])];
        if outcome == Cancelled {
          return;
        }
        i := end;
      }
      ChunkFromTotal(entries, 0);
    }

    method HandleEvent(path: string, ops: set<FileOp>, os: Answers, sends: nat -> SendOutcome)
      returns (handed: seq<LogBatch>)
      modifies this
      ensures View(path) == EventSpec(old(View(path)), ops, os).0
      ensures IsHanded(handed,
                       Batches(host, EntriesFor(path, os.now, EventSpec(old(View(path)), ops, os).1)), sends)
      ensures MessagesOf(EntriesOf(handed)) <= EventSpec(old(View(path)), ops, os).1
      ensures (forall k: nat :: sends(k) != Cancelled) ==>
                MessagesOf(EntriesOf(handed)) == EventSpec(old(View(path)), ops, os).1
      ensures forall b :: b in handed ==> b.host == host && 0 < |b.entries| <= 1000
      ensures forall b, e :: b in handed && e in b.entries ==>
                e.host == host && e.path == path && e.time == os.now && e.level == parseLevel(e.message)
      ensures forall q :: q != path ==> View(q) == old(View(q))
    {
      handed := [];
      if WriteOp in ops {
        var entries := ReadNewLines(path, os);
        handed := SendChunked(entries, sends);
        HandedMessages(host, entries, handed, sends);
      } else if RenameOp in ops || RemoveOp in ops {
        ClosePath(path);
        offsets := offsets[path := 0];
      } else if CreateOp in ops {
        ClosePath(path);
        var ok := OpenAndSeekEof(path, os);
        if !ok {
          return;
        }
        offsets := offsets[path := 0];
      }
    }
  }

  /** The next successful read of the open file delivers nothing of its first `n` bytes, and all behind them. */
  ghost predicate SkipsFirst(p: PathState, n: nat) {
    && p.handle != None
    && forall os: Answers :: os.stat != None && os.seekOk && n <= os.stat.value <= |os.content| ==>
         EventSpec(p, {WriteOp}, os).1 == if os.stat.value == n then [] else ScanMessages(os.content[n..])
  }

  // ----- events that read nothing -----

  /** Without a write, rename, remove or create flag an event changes nothing and delivers nothing. */
  lemma OtherEventsAreIdle(p: PathState, ops: set<FileOp>, os: Answers)
    requires ops <= {ChmodOp}
    ensures EventSpec(p, ops, os) == (p, [])
  {
  }

  /** A read whose stat fails delivers nothing, and the next one delivers what it would have delivered without it. */
  lemma FailedStatIsHarmless(p: PathState, os: Answers, next: Answers)
    requires os.stat == None && next.open == os.open
    ensures EventSpec(p, {WriteOp}, os).1 == []
    ensures EventSpec(EventSpec(p, {WriteOp}, os).0, {WriteOp}, next) == EventSpec(p, {WriteOp}, next)
  {
  }

  /**
   So does a read whose seek fails, as long as the file was not seen to be shorter than the offset. If it
   was, the next read starts at byte 0.
   */
  lemma FailedSeekIsHarmless(p: PathState, os: Answers, next: Answers)
    requires !os.seekOk && os.stat != None && next.open == os.open && os.open != None
    ensures EventSpec(p, {WriteOp}, os).1 == []
    ensures EventSpec(EventSpec(p, {WriteOp}, os).0, {WriteOp}, next) ==
            EventSpec(if os.stat.value < p.offset then p.(offset := 0) else p, {WriteOp}, next)
  {
  }

  function BatchUp(host: Text, chunks: seq<seq<LogEntry>>): (bs: seq<LogBatch>)
    ensures |bs| == |chunks|
    ensures forall k :: 0 <= k < |bs| ==> bs[k] == LogBatch(host, chunks[k])
  {
    seq(|chunks|, k requires 0 <= k < |chunks| => LogBatch(host, chunks[k]))
  }

  /** The batches the entries are shipped in. */
  function Batches(host: Text, entries: seq<LogEntry>): seq<LogBatch> {
    BatchUp(host, Chunks(entries))
  }

  /** One scan step moves the line's message, if it has one, from the unread to the seen part. */
  lemma SeenStep(rest: Text, seen: seq<Text>)
    requires ScanNext(rest).Token?
    ensures var line := ScanNext(rest).line;
            seen + ScanMessages(rest) ==
            (if Blank(line) then seen else seen + [Clip(line)]) + ScanMessages(ScanNext(rest).rest)
  {
    ScanMessagesStep(rest);
    var line := ScanNext(rest).line;
    ConcatAssociative(seen, if Blank(line) then [] else [Clip(line)], ScanMessages(ScanNext(rest).rest));
  }

  lemma {:induction false} EntriesOfBatches(host: Text, chunks: seq<seq<LogEntry>>)
    ensures EntriesOf(BatchUp(host, chunks)) == FlatMap((c: seq<LogEntry>) => c, chunks)
  {
    if chunks != [] {
      EntriesOfBatches(host, chunks[1..]);
      assert BatchUp(host, chunks)[1..] == BatchUp(host, chunks[1..]);
    }
  }

  /**
   The batches that reach the sender hold a prefix of the read's entries, in order; they hold all of
   them exactly when no send before the last one is cancelled. Rejected sends make no difference.
   */
  lemma HandedEntries(host: Text, entries: seq<LogEntry>, handed: seq<LogBatch>, sends: nat -> SendOutcome)
    requires IsHanded(handed, Batches(host, entries), sends)
    ensures EntriesOf(handed) <= entries
    ensures EntriesOf(handed) == entries <==>
            forall k :: 0 <= k < |Batches(host, entries)| - 1 ==> sends(k) != Cancelled
  {
    var all := Batches(host, entries);
    EntriesOfBatches(host, Chunks(entries));
    ChunksPartition(entries);
    var rest := all[|handed|..];
    assert all == handed + rest;
    FlatMapConcat((b: LogBatch) => b.entries, handed, rest);
    if rest != [] {
      assert rest[0] == all[|handed|] == LogBatch(host, Chunks(entries)[|handed|]);
      assert EntriesOf(rest) == rest[0].entries + EntriesOf(rest[1..]);
    }
  }

  /** So the messages handed over are a prefix of the messages read. */
  lemma HandedMessages(host: Text, entries: seq<LogEntry>, handed: seq<LogBatch>, sends: nat -> SendOutcome)
    requires IsHanded(handed, Batches(host, entries), sends)
    ensures MessagesOf(EntriesOf(handed)) <= MessagesOf(entries)
    ensures (forall k: nat :: sends(k) != Cancelled) ==> MessagesOf(EntriesOf(handed)) == MessagesOf(entries)
    ensures forall b :: b in handed ==> b.host == host && 0 < |b.entries| <= 1000
    ensures forall b, e :: b in handed && e in b.entries ==> e in entries
  {
    HandedEntries(host, entries, handed, sends);
    ChunksPartition(entries);
    forall b | b in handed
      ensures b.host == host && 0 < |b.entries| <= 1000
    {
      var k :| 0 <= k < |handed| && handed[k] == b;
      assert b == Batches(host, entries)[k];
    }
    forall b, e | b in handed && e in b.entries
      ensures e in entries
    {
      EntryOfSomeBatch(handed, b, e);
    }
  }
}
