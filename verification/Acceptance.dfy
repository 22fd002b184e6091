/** The tailer's batches against the server's acceptance check. */
module Acceptance {
  import opened Common
  import opened LogText
  import opened LogModel
  import opened Logtail

  /** A raw line whose text is not blank but whose clipped text is. */
  predicate ClipsToBlank(line: Text) {
    !Blank(DropReturn(line)) && Blank(Clip(DropReturn(line)))
  }

  lemma {:induction false} BlankMessageIff(lines: seq<Text>)
    ensures (exists m :: m in FlatMap(MessageOf, lines) && Blank(m)) <==>
            (exists l :: l in lines && ClipsToBlank(l))
  {
    if lines != [] {
      var rest := lines[1..];
      BlankMessageIff(rest);
      assert FlatMap(MessageOf, lines) == MessageOf(lines[0]) + FlatMap(MessageOf, rest);
      assert forall l :: l in lines <==> l == lines[0] || l in rest;
      var l0 := DropReturn(lines[0]);
      if Blank(Clip(l0)) && !Blank(l0) {
        assert ClipsToBlank(lines[0]) && Clip(l0) in FlatMap(MessageOf, lines);
      }
    }
  }

  /** A batch's entries all come from the entries shipped, and every entry is in some batch. */
  lemma BatchesCover(host: Text, entries: seq<LogEntry>, P: LogEntry -> bool)
    ensures (forall b :: b in Batches(host, entries) ==> forall e :: e in b.entries ==> P(e)) <==>
            (forall e :: e in entries ==> P(e))
  {
    var bs := Batches(host, entries);
    ChunkFromTotal(entries, 0);
    if forall e :: e in entries ==> P(e) {
      forall b, e | b in bs && e in b.entries
        ensures P(e)
      {
        var k :| 0 <= k < |bs| && bs[k] == b;
        ChunkAt(entries, k);
        assert e in entries;
      }
    }
    if forall b :: b in bs ==> forall e :: e in b.entries ==> P(e) {
      forall e | e in entries
        ensures P(e)
      {
        var i :| 0 <= i < |entries| && entries[i] == e;
        var k := i / MAX_BATCH_SIZE;
        ChunkAt(entries, k);
        assert bs[k].entries[i - MAX_BATCH_SIZE * k] == e;
        assert bs[k] in bs;
      }
    }
  }

  /**
   The server accepts every batch of a read exactly when there is nothing to send, or the host is
   not blank, the clock is not zero, and no line that fits the scanner is clipped down to white space.
   */
  lemma AcceptedIff(t: Tailer, path: string, now: Option<int>, data: Text)
    ensures var bs := Batches(t.host, t.EntriesFor(path, now, ScanMessages(data)));
            (forall b :: b in bs ==> ValidateBatch(b) == None) <==>
            || ScanMessages(data) == []
            || (!Blank(t.host) && now != None
                && forall l :: l in FittingPrefix(Lines(data)) ==> !ClipsToBlank(l))
  {
    var ms := ScanMessages(data);
    var es := t.EntriesFor(path, now, ms);
    var bs := Batches(t.host, es);
    ChunksPartition(es);
    ChunkFromTotal(es, 0);
    forall b | b in bs
      ensures b.host == t.host && 0 < |b.entries| <= MAX_BATCH_SIZE
    {
      var k :| 0 <= k < |bs| && bs[k] == b;
      ChunkAt(es, k);
    }
    BatchesCover(t.host, es, e => ValidateEntry(e) == None);
    BlankMessageIff(FittingPrefix(Lines(data)));
    if ms == [] {
      assert bs == [];
    } else {
      assert bs[0] in bs;
      EntriesValidIff(t, path, now, ms);
    }
  }

  lemma EntriesValidIff(t: Tailer, path: string, now: Option<int>, ms: seq<Text>)
    requires ms != []
    ensures (forall e :: e in t.EntriesFor(path, now, ms) ==> ValidateEntry(e) == None) <==>
            !Blank(t.host) && now != None && forall m :: m in ms ==> !Blank(m)
  {
    var es := t.EntriesFor(path, now, ms);
    if forall e :: e in es ==> ValidateEntry(e) == None {
      assert es[0] in es;
      forall m | m in ms
        ensures !Blank(m)
      {
        var i :| 0 <= i < |ms| && ms[i] == m;
        assert es[i] in es;
      }
    }
    if !Blank(t.host) && now != None && forall m :: m in ms ==> !Blank(m) {
      forall e | e in es
        ensures ValidateEntry(e) == None
      {
        var i :| 0 <= i < |es| && es[i] == e;
        assert ms[i] in ms;
      }
    }
  }

  lemma {:induction false} SpacesAreBlank(n: nat)
    ensures Blank(seq(n, i => 32 as Byte))
  {
    if n > 0 {
      var s := seq(n, i => 32 as Byte);
      SpacesAreBlank(n - 1);
      assert s[1..] == seq(n - 1, i => 32 as Byte);
      assert SpaceLength(s) == 1;
    }
  }

  /** Skipping leading white space does not change whether a text is blank. */
  lemma {:induction false} SpacesThenText(n: nat, x: Byte)
    requires x == 65
    ensures !Blank(seq(n, i => 32 as Byte) + [x])
  {
    var s := seq(n, i => 32 as Byte) + [x];
    if n == 0 {
      assert s == [x];
    } else {
      SpacesThenText(n - 1, x);
      assert s[1..] == seq(n - 1, i => 32 as Byte) + [x];
      assert SpaceLength(s) == 1;
    }
  }

  /** The blank test runs before clipping: a line of 4096 spaces and a letter becomes a message the server rejects. */
  lemma ClippedBlankLineExists()
    ensures ClipsToBlank(seq(MAX_LINE_BYTES, i => 32 as Byte) + [65])
  {
    var spaces := seq(MAX_LINE_BYTES, i => 32 as Byte);
    SpacesAreBlank(MAX_LINE_BYTES);
    SpacesThenText(MAX_LINE_BYTES, 65);
    assert Clip(spaces + [65]) == spaces;
  }
}
