/** Log entries, log batches, and the server's acceptance check. */
module LogModel {
  import opened Common
  import opened LogText

  const MAX_BATCH_SIZE: nat := 1000

  datatype Level = Info | Warn | Error | Debug | Unrecognized(name: string)

  /** The levels a line parser can produce. */
  type ParsedLevel = l: Level | !l.Unrecognized? witness Info

  /** `time` is None for the zero time. */
  datatype LogEntry = LogEntry(time: Option<int>, host: Text, path: string, level: Level, message: Text)

  datatype LogBatch = LogBatch(host: Text, entries: seq<LogEntry>)

  datatype EntryFault = HostEmpty | MessageEmpty | TimeZero | LevelInvalid

  datatype BatchFault =
    | BatchHostEmpty
    | NoEntries
    | TooManyEntries
    | BadEntry(index: nat, fault: EntryFault)

  /** The first complaint about an entry, or None if it is acceptable. */
  function ValidateEntry(e: LogEntry): (r: Option<EntryFault>)
    ensures r == None <==> !Blank(e.host) && !Blank(e.message) && e.time != None && !e.level.Unrecognized?
  {
    if Blank(e.host) then Some(HostEmpty)
    else if Blank(e.message) then Some(MessageEmpty)
    else if e.time == None then Some(TimeZero)
    else if e.level.Unrecognized? then Some(LevelInvalid)
    else None
  }

  function FirstBadEntry(entries: seq<LogEntry>, from: nat): (r: Option<BatchFault>)
    requires from <= |entries|
    ensures r == None <==> forall i :: from <= i < |entries| ==> ValidateEntry(entries[i]) == None
    ensures r != None ==>
              && r.value.BadEntry? && from <= r.value.index < |entries|
              && ValidateEntry(entries[r.value.index]) == Some(r.value.fault)
              && forall i :: from <= i < r.value.index ==> ValidateEntry(entries[i]) == None
    decreases |entries| - from
  {
    if from == |entries| then None
    else match ValidateEntry(entries[from])
      case Some(f) => Some(BadEntry(from, f))
      case None => FirstBadEntry(entries, from + 1)
  }

  /** The first complaint about a batch, or None if the server accepts it. */
  function ValidateBatch(b: LogBatch): (r: Option<BatchFault>)
    ensures r == None <==>
            && !Blank(b.host)
            && 0 < |b.entries| <= 1000
            && forall e :: e in b.entries ==> ValidateEntry(e) == None
    ensures r != None && r.value.BadEntry? ==>
              && r.value.index < |b.entries| <= MAX_BATCH_SIZE
              && ValidateEntry(b.entries[r.value.index]) == Some(r.value.fault)
              && forall i :: 0 <= i < r.value.index ==> ValidateEntry(b.entries[i]) == None
  {
    if Blank(b.host) then Some(BatchHostEmpty)
    else if |b.entries| == 0 then Some(NoEntries)
    else if |b.entries| > MAX_BATCH_SIZE then Some(TooManyEntries)
    else FirstBadEntry(b.entries, 0)
  }

  // ----- chunking -----

  function ChunkEnd(n: nat, from: nat): nat {
    if from + MAX_BATCH_SIZE > n then n else from + MAX_BATCH_SIZE
  }

  /** How many chunks `n` entries need: n / MAX_BATCH_SIZE, rounded up. */
  function ChunkCount(n: nat): nat {
    (n + MAX_BATCH_SIZE - 1) / MAX_BATCH_SIZE
  }

  /** The chunks of `entries` from position `from` on. */
  function ChunksFrom<T>(entries: seq<T>, from: nat): seq<seq<T>>
    decreases |entries| - from
  {
    if from >= |entries| then []
    else [entries[from..ChunkEnd(|entries|, from)]] + ChunksFrom(entries, ChunkEnd(|entries|, from))
  }

  function Chunks<T>(entries: seq<T>): seq<seq<T>> {
    ChunksFrom(entries, 0)
  }

  lemma {:induction false} ChunkFromTotal<T>(entries: seq<T>, from: nat)
    requires from <= |entries|
    ensures |ChunksFrom(entries, from)| == ChunkCount(|entries| - from)
    decreases |entries| - from
  {
    if from < |entries| {
      ChunkFromTotal(entries, ChunkEnd(|entries|, from));
    }
  }

  lemma {:induction false} ChunkFromAt<T>(entries: seq<T>, from: nat, k: nat)
    requires from + MAX_BATCH_SIZE * k < |entries|
    ensures k < |ChunksFrom(entries, from)|
    ensures var start := from + MAX_BATCH_SIZE * k;
            ChunksFrom(entries, from)[k] == entries[start..ChunkEnd(|entries|, start)]
    decreases k
  {
    if k > 0 {
      ChunkFromAt(entries, from + MAX_BATCH_SIZE, k - 1);
      assert ChunksFrom(entries, from)[1..] == ChunksFrom(entries, from + MAX_BATCH_SIZE);
    }
  }

  /** Chunk k holds the entries from position MAX_BATCH_SIZE * k on. */
  lemma ChunkAt<T>(entries: seq<T>, k: nat)
    requires MAX_BATCH_SIZE * k < |entries|
    ensures k < |Chunks(entries)|
    ensures Chunks(entries)[k] == entries[MAX_BATCH_SIZE * k..ChunkEnd(|entries|, MAX_BATCH_SIZE * k)]
  {
    ChunkFromAt(entries, 0, k);
  }

  /**
   Chunking partitions the entries in order: nothing is lost, repeated or moved, no chunk is empty
   or too large, and every chunk but the last is full.
   */
  lemma ChunksPartition<T>(entries: seq<T>)
    ensures FlatMap((c: seq<T>) => c, Chunks(entries)) == entries
    ensures |Chunks(entries)| == ChunkCount(|entries|)
    ensures forall k :: 0 <= k < |Chunks(entries)| ==>
              0 < |Chunks(entries)[k]| <= 1000
              && (k + 1 < |Chunks(entries)| ==> |Chunks(entries)[k]| == 1000)
  {
    ChunksJoin(entries, 0);
    ChunkFromTotal(entries, 0);
    forall k | 0 <= k < |Chunks(entries)|
      ensures 0 < |Chunks(entries)[k]| <= MAX_BATCH_SIZE
      ensures k + 1 < |Chunks(entries)| ==> |Chunks(entries)[k]| == MAX_BATCH_SIZE
    {
      ChunkAt(entries, k);
    }
  }

  lemma {:induction false} ChunksJoin<T>(entries: seq<T>, from: nat)
    requires from <= |entries|
    ensures FlatMap((c: seq<T>) => c, ChunksFrom(entries, from)) == entries[from..]
    decreases |entries| - from
  {
    if from < |entries| {
      var end := ChunkEnd(|entries|, from);
      ChunksJoin(entries, end);
      assert ChunksFrom(entries, from)[1..] == ChunksFrom(entries, end);
      assert entries[from..] == entries[from..end] + entries[end..];
    }
  }

  // ----- what batches hold -----

  /** The entries of several batches, in order. */
  function EntriesOf(batches: seq<LogBatch>): seq<LogEntry> {
    FlatMap((b: LogBatch) => b.entries, batches)
  }

  function MessagesOf(entries: seq<LogEntry>): (ms: seq<Text>)
    ensures |ms| == |entries|
  {
    seq(|entries|, i requires 0 <= i < |entries| => entries[i].message)
  }

  lemma {:induction false} EntryOfSomeBatch(batches: seq<LogBatch>, b: LogBatch, e: LogEntry)
    requires b in batches && e in b.entries
    ensures e in EntriesOf(batches)
  {
    if b != batches[0] {
      EntryOfSomeBatch(batches[1..], b, e);
    }
  }
}
