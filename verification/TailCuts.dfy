/**
 Reads that see a file's size in the middle of a line. Such a line arrives in pieces; this module says
 exactly when delivering the pieces amounts to delivering the line.
 */
module TailCuts {
  import opened Common
  import opened LogText
  import opened TailRace

  // ----- blank texts -----

  lemma SpaceOfConcat(a: Text, b: Text)
    requires SpaceLength(a) > 0
    ensures SpaceLength(a + b) == SpaceLength(a)
    ensures (a + b)[SpaceLength(a)..] == a[SpaceLength(a)..] + b
  {
  }

  /** Blank text in front changes nothing. */
  lemma {:induction false} BlankBefore(a: Text, b: Text)
    requires Blank(a)
    ensures Blank(a + b) <==> Blank(b)
    decreases |a|
  {
    if a == [] {
      assert a + b == b;
    } else {
      SpaceOfConcat(a, b);
      BlankBefore(a[SpaceLength(a)..], b);
    }
  }

  /** Blank text behind changes nothing either, as no white space begins with a later byte of another. */
  lemma {:induction false} BlankBehind(a: Text, b: Text)
    requires Blank(b)
    ensures Blank(a + b) <==> Blank(a)
    decreases |a|
  {
    if Blank(a) {
      BlankBefore(a, b);
    } else if SpaceLength(a) > 0 {
      SpaceOfConcat(a, b);
      BlankBehind(a[SpaceLength(a)..], b);
    } else {
      assert b != [] ==> SpaceLength(b) > 0;
      assert SpaceLength(a + b) == 0;
    }
  }

  lemma BlankWithReturn(line: Text)
    ensures Blank(DropReturn(line)) <==> Blank(line)
  {
    if DropReturn(line) != line {
      var r: Text := [RETURN];
      assert r[1..] == [];
      assert Blank(r);
      assert line == DropReturn(line) + r;
      BlankBehind(DropReturn(line), r);
    }
  }

  /** The message of a line with text. */
  function Kept(line: Text): Text {
    Clip(DropReturn(line))
  }

  lemma MessageCount(line: Text)
    ensures MessageOf(line) == if Blank(line) then [] else [Kept(line)]
  {
    BlankWithReturn(line);
  }

  // ----- one line in pieces -----

  function Concat(texts: seq<Text>): Text {
    if texts == [] then [] else texts[0] + Concat(texts[1..])
  }

  /** What the pieces of a line deliver, each for itself. */
  function PieceMessages(pieces: seq<Text>): seq<Text> {
    FlatMap(MessageOf, pieces)
  }

  /** Delivering the pieces amounts to delivering the line. */
  ghost predicate Harmless(pieces: seq<Text>) {
    PieceMessages(pieces) == MessageOf(Concat(pieces))
  }

  /** Pieces deliver at least as many messages as their line. */
  lemma {:induction false} PiecesDeliverNoLess(pieces: seq<Text>)
    ensures |PieceMessages(pieces)| >= |MessageOf(Concat(pieces))|
    ensures PieceMessages(pieces) == [] ==> Blank(Concat(pieces))
  {
    if pieces != [] {
      var rest := Concat(pieces[1..]);
      PiecesDeliverNoLess(pieces[1..]);
      MessageCount(pieces[0]);
      MessageCount(rest);
      MessageCount(pieces[0] + rest);
      if Blank(pieces[0]) {
        BlankBefore(pieces[0], rest);
      }
    } else {
      MessageCount([]);
    }
  }

  ghost predicate AllBlank(pieces: seq<Text>) {
    forall j :: 0 <= j < |pieces| ==> Blank(pieces[j])
  }

  /** Piece `i` alone holds text. */
  ghost predicate OnlyTextAt(pieces: seq<Text>, i: nat) {
    i < |pieces| && !Blank(pieces[i]) && forall j :: 0 <= j < |pieces| && j != i ==> Blank(pieces[j])
  }

  /**
   No piece holds text, or just one does and its message, clipped and without a carriage return, is that
   of all the pieces put together.
   */
  ghost predicate ReadsLikeWhole(pieces: seq<Text>) {
    AllBlank(pieces) || exists i: nat :: OnlyTextAt(pieces, i) && Kept(pieces[i]) == Kept(Concat(pieces))
  }

  lemma {:induction false} BlankPieces(pieces: seq<Text>)
    ensures PieceMessages(pieces) == [] <==> AllBlank(pieces)
    ensures AllBlank(pieces) ==> Blank(Concat(pieces))
  {
    if pieces != [] {
      BlankPieces(pieces[1..]);
      MessageCount(pieces[0]);
      assert AllBlank(pieces) <==> Blank(pieces[0]) && AllBlank(pieces[1..]);
      if Blank(pieces[0]) {
        BlankBefore(pieces[0], Concat(pieces[1..]));
      }
    }
  }

  lemma {:induction false} OneTextPiece(pieces: seq<Text>, i: nat)
    requires OnlyTextAt(pieces, i)
    ensures PieceMessages(pieces) == [Kept(pieces[i])] && !Blank(Concat(pieces))
  {
    var rest := Concat(pieces[1..]);
    MessageCount(pieces[0]);
    BlankPieces(pieces[1..]);
    if i == 0 {
      assert AllBlank(pieces[1..]);
      BlankBehind(pieces[0], rest);
    } else {
      assert OnlyTextAt(pieces[1..], i - 1);
      OneTextPiece(pieces[1..], i - 1);
      BlankBefore(pieces[0], rest);
    }
  }

  lemma {:induction false} OneMessageOneText(pieces: seq<Text>) returns (i: nat)
    requires |PieceMessages(pieces)| == 1
    ensures OnlyTextAt(pieces, i)
  {
    MessageCount(pieces[0]);
    if Blank(pieces[0]) {
      var k := OneMessageOneText(pieces[1..]);
      i := k + 1;
    } else {
      BlankPieces(pieces[1..]);
      i := 0;
    }
  }

  /** However many pieces a line comes in: when delivering them amounts to delivering the line. */
  lemma HarmlessIff(pieces: seq<Text>)
    ensures Harmless(pieces) <==> ReadsLikeWhole(pieces)
  {
    BlankPieces(pieces);
    MessageCount(Concat(pieces));
    forall i: nat | OnlyTextAt(pieces, i)
      ensures PieceMessages(pieces) == [Kept(pieces[i])] && !Blank(Concat(pieces))
    {
      OneTextPiece(pieces, i);
    }
    if Harmless(pieces) && !AllBlank(pieces) {
      var i := OneMessageOneText(pieces);
      assert [Kept(pieces[i])][0] == [Kept(Concat(pieces))][0];
    }
  }

  /**
   A line cut in two is delivered like the whole exactly when both parts are blank, or one is and the other,
   clipped and without its carriage return, reads like the whole.
   */
  lemma CutHarmlessIff(a: Text, b: Text)
    ensures Harmless([a, b]) <==>
            || (Blank(a) && Blank(b))
            || (Blank(a) && !Blank(b) && Kept(b) == Kept(a + b))
            || (!Blank(a) && Blank(b) && Kept(a) == Kept(a + b))
  {
    TwoPieces(a, b);
    MessageCount(a);
    MessageCount(b);
    MessageCount(a + b);
    if Blank(a) {
      BlankBefore(a, b);
    } else if Blank(b) {
      BlankBehind(a, b);
    }
    TwoOrOne(Blank(a), Blank(b), Blank(a + b), Kept(a), Kept(b), Kept(a + b));
  }

  lemma TwoOrOne(noX: bool, noY: bool, noZ: bool, x: Text, y: Text, z: Text)
    requires noX ==> noZ == noY
    requires noY ==> noZ == noX
    ensures (if noX then [] else [x]) + (if noY then [] else [y]) == (if noZ then [] else [z]) <==>
            (noX && noY) || (noX && !noY && y == z) || (!noX && noY && x == z)
  {
    assert |[x] + [y]| == 2;
    assert [x][0] == x && [y][0] == y && [z][0] == z;
    assert [x] + [] == [x] && [] + [y] == [y];
  }

  /** A long text of tabs and blanks in turn, ended by a letter. */
  ghost predicate Striped(d: Text) {
    && |d| > MAX_LINE_BYTES && d[|d| - 1] == 65
    && d[0] == 9 && d[1] == 32
    && forall i :: 2 <= i < |d| - 1 ==> d[i] == d[i - 2]
  }

  function Stripes(): Text {
    seq(MAX_LINE_BYTES, i requires 0 <= i < MAX_LINE_BYTES => if i % 2 == 0 then 9 as Byte else 32) + [65]
  }

  /**
   Why the condition is about whole lines: of two cuts in one line, each can be harmful by itself
   while together they are not, when clipping hides what they took away.
   */
  lemma TwoCutsMakeUp()
    ensures exists a: Text, b: Text, c: Text :: Harmless([a, b, c]) && !Harmless([a, b + c]) && !Harmless([b, c])
  {
    var tab: Text, blank: Text, d := [9], [32], Stripes();
    assert Striped(d);
    StripedCuts(d);
    assert Harmless([tab, blank, d]) && !Harmless([tab, blank + d]) && !Harmless([blank, d]);
  }

  lemma StripedCuts(d: Text)
    requires Striped(d)
    ensures var tab: Text, blank: Text := [9], [32];
            Harmless([tab, blank, d]) && !Harmless([tab, blank + d]) && !Harmless([blank, d])
  {
    var a: Text, c: Text := [9], [32];
    OneSpace(9);
    OneSpace(32);
    TextIsNotBlank(d, |d| - 1);
    BlankBefore(c, d);
    BlankBefore(a, c + d);
    CutHarmlessIff(a, c + d);
    CutHarmlessIff(c, d);
    StripesKept(a, c, d);
    ThreePieces(a, c, d);
    OnlyOneMessage(a, c, d);
  }

  lemma OnlyOneMessage(a: Text, c: Text, d: Text)
    requires Blank(a) && Blank(c) && !Blank(d) && !Blank(a + (c + d)) && Kept(d) == Kept(a + (c + d))
    ensures MessageOf(a) + (MessageOf(c) + MessageOf(d)) == MessageOf(a + (c + d))
  {
    MessageCount(a);
    MessageCount(c);
    MessageCount(d);
    MessageCount(a + (c + d));
  }

  lemma OneSpace(x: Byte)
    requires x == 9 || x == 32
    ensures Blank([x])
  {
    var s: Text := [x];
    assert s[1..] == [];
  }

  lemma StripesKept(a: Text, c: Text, d: Text)
    requires Striped(d) && a == [9] && c == [32]
    ensures Kept(d) == Kept(a + (c + d)) && Kept(c + d) != Kept(d)
    ensures Kept(c + d) != Kept(a + (c + d))
  {
    SameStart(a, c, d, a + (c + d));
    KeptLong(d);
    KeptLong(c + d);
    KeptLong(a + (c + d));
    assert (c + d)[0] == 32;
    FirstDiffers(d, c + d, MAX_LINE_BYTES);
    FirstDiffers(a + (c + d), c + d, MAX_LINE_BYTES);
  }

  lemma FirstDiffers(x: Text, y: Text, n: nat)
    requires 0 < n <= |x| && n <= |y| && x[0] != y[0]
    ensures x[..n] != y[..n]
  {
    assert x[..n][0] == x[0];
  }

  lemma SameStart(a: Text, c: Text, d: Text, whole: Text)
    requires Striped(d) && a == [9] && c == [32] && whole == a + (c + d)
    ensures |whole| > MAX_LINE_BYTES && whole[|whole| - 1] == 65 && whole[0] == 9
    ensures d[..MAX_LINE_BYTES] == whole[..MAX_LINE_BYTES]
  {
    forall i | 0 <= i < MAX_LINE_BYTES
      ensures whole[i] == d[i]
    {
      assert i >= 2 ==> whole[i] == d[i - 2];
    }
  }

  lemma KeptLong(x: Text)
    requires |x| > MAX_LINE_BYTES && x[|x| - 1] != RETURN
    ensures Kept(x) == x[..MAX_LINE_BYTES]
  {
  }

  lemma ThreePieces(a: Text, c: Text, d: Text)
    ensures Concat([a, c, d]) == a + (c + d)
    ensures PieceMessages([a, c, d]) == MessageOf(a) + (MessageOf(c) + MessageOf(d))
  {
    TwoPieces(c, d);
    var pieces := [a, c, d];
    assert pieces[1..] == [c, d];
    assert PieceMessages(pieces) == MessageOf(a) + PieceMessages([c, d]);
  }

  lemma {:induction false} TextIsNotBlank(s: Text, i: nat)
    requires i < |s| && s[i] == 65
    ensures !Blank(s)
    decreases |s|
  {
    var n := SpaceLength(s);
    if n > 0 {
      assert i >= n;
      TextIsNotBlank(s[n..], i - n);
    }
  }

  lemma TwoPieces(a: Text, b: Text)
    ensures Concat([a, b]) == a + b
    ensures PieceMessages([a, b]) == MessageOf(a) + MessageOf(b)
  {
    assert [a, b][1..] == [b] && [b][1..] == [];
    assert Concat([b]) == b + [];
    assert PieceMessages([b]) == MessageOf(b) + PieceMessages([]);
  }

  // ----- all lines of a text that arrives in chunks -----

  function Alone(line: Text): seq<Text> {
    [line]
  }

  /** Each line as a list of one piece. */
  function Whole(lines: seq<Text>): (r: seq<seq<Text>>)
    ensures |r| == |lines|
  {
    seq(|lines|, i requires 0 <= i < |lines| => Alone(lines[i]))
  }

  /** An open last line is continued by the first line of what follows. */
  function Continue(lines: seq<Text>, following: seq<seq<Text>>): seq<seq<Text>>
    requires lines != [] && following != []
  {
    var n := |lines| - 1;
    Whole(lines[..n]) + [[lines[n]] + following[0]] + following[1..]
  }

  /** The lines of the chunks put together, each as the pieces in which the chunks bring it. */
  function BrokenLines(chunks: seq<Text>): seq<seq<Text>> {
    if chunks == [] then []
    else
      var following := BrokenLines(chunks[1..]);
      if AtLineEnd(chunks[0]) || following == [] then Whole(Lines(chunks[0])) + following
      else Continue(Lines(chunks[0]), following)
  }

  function Joined(broken: seq<seq<Text>>): (r: seq<Text>)
    ensures |r| == |broken|
  {
    seq(|broken|, i requires 0 <= i < |broken| => Concat(broken[i]))
  }

  // ----- putting the chunks together -----

  lemma WholeJoined(lines: seq<Text>)
    ensures Joined(Whole(lines)) == lines
  {
    forall i | 0 <= i < |lines|
      ensures Concat(Whole(lines)[i]) == lines[i]
    {
      assert Alone(lines[i])[1..] == [];
      assert lines[i] + [] == lines[i];
    }
  }

  lemma JoinedConcat(a: seq<seq<Text>>, b: seq<seq<Text>>)
    ensures Joined(a + b) == Joined(a) + Joined(b)
  {
  }

  lemma ContinueJoined(lines: seq<Text>, following: seq<seq<Text>>)
    requires lines != [] && following != []
    ensures var n := |lines| - 1;
            Joined(Continue(lines, following)) ==
            lines[..n] + [lines[n] + Joined(following)[0]] + Joined(following)[1..]
  {
    var n := |lines| - 1;
    var mid := [lines[n]] + following[0];
    assert mid[1..] == following[0];
    WholeJoined(lines[..n]);
    JoinedConcat(Whole(lines[..n]) + [mid], following[1..]);
    JoinedConcat(Whole(lines[..n]), [mid]);
    assert Joined([mid]) == [lines[n] + Concat(following[0])];
    assert Joined(following[1..]) == Joined(following)[1..];
  }

  /** The pieces are those of exactly the lines of the whole. */
  lemma {:induction false} BrokenAreLines(chunks: seq<Text>)
    ensures Joined(BrokenLines(chunks)) == Lines(Concat(chunks))
  {
    if chunks != [] {
      var chunk, rest, following := chunks[0], Concat(chunks[1..]), BrokenLines(chunks[1..]);
      BrokenAreLines(chunks[1..]);
      if AtLineEnd(chunk) {
        LinesConcat(chunk, rest);
        WholeJoined(Lines(chunk));
        JoinedConcat(Whole(Lines(chunk)), following);
      } else if following == [] {
        NoLinesIff(rest);
        assert chunk + rest == chunk;
        WholeJoined(Lines(chunk));
        assert Whole(Lines(chunk)) + [] == Whole(Lines(chunk));
      } else {
        NoLinesIff(rest);
        LinesJoin(chunk, rest);
        ContinueJoined(Lines(chunk), following);
      }
    }
  }

  lemma NoLinesIff(data: Text)
    ensures Lines(data) == [] <==> data == []
  {
  }

  function AllPieces(broken: seq<seq<Text>>): seq<Text> {
    FlatMap((pieces: seq<Text>) => pieces, broken)
  }

  lemma {:induction false} WholePieces(lines: seq<Text>)
    ensures AllPieces(Whole(lines)) == lines
  {
    if lines != [] {
      WholePieces(lines[1..]);
      assert Whole(lines)[1..] == Whole(lines[1..]);
    }
  }

  lemma PiecesConcat(a: seq<seq<Text>>, b: seq<seq<Text>>)
    ensures AllPieces(a + b) == AllPieces(a) + AllPieces(b)
  {
    FlatMapConcat((pieces: seq<Text>) => pieces, a, b);
  }

  lemma ContinuePieces(lines: seq<Text>, following: seq<seq<Text>>)
    requires lines != [] && following != []
    ensures AllPieces(Continue(lines, following)) == lines + AllPieces(following)
  {
    var n := |lines| - 1;
    var mid := [lines[n]] + following[0];
    WholePieces(lines[..n]);
    PiecesConcat(Whole(lines[..n]) + [mid], following[1..]);
    PiecesConcat(Whole(lines[..n]), [mid]);
    var alone := [mid];
    assert alone[1..] == [] && alone[0] == mid;
    assert AllPieces(alone) == mid + AllPieces([]);
    assert AllPieces(following) == following[0] + AllPieces(following[1..]);
  }

  /** And all pieces in order are the lines that the chunks hold one by one. */
  lemma {:induction false} BrokenPieces(chunks: seq<Text>)
    ensures AllPieces(BrokenLines(chunks)) == FlatMap(Lines, chunks)
  {
    if chunks != [] {
      var following := BrokenLines(chunks[1..]);
      BrokenPieces(chunks[1..]);
      if AtLineEnd(chunks[0]) || following == [] {
        WholePieces(Lines(chunks[0]));
        PiecesConcat(Whole(Lines(chunks[0])), following);
      } else {
        NoLinesIff(chunks[0]);
        ContinuePieces(Lines(chunks[0]), following);
      }
    }
  }

  // ----- the messages of broken lines -----

  function MessagesInPieces(broken: seq<seq<Text>>): seq<Text> {
    FlatMap(PieceMessages, broken)
  }

  lemma {:induction false} PiecesInOrder(broken: seq<seq<Text>>)
    ensures MessagesInPieces(broken) == Messages(AllPieces(broken))
  {
    if broken != [] {
      PiecesInOrder(broken[1..]);
      FlatMapConcat(MessageOf, broken[0], AllPieces(broken[1..]));
    }
  }

  lemma {:induction false} ChunksInOrder(chunks: seq<Text>)
    ensures FlatMap(MessagesIn, chunks) == Messages(FlatMap(Lines, chunks))
  {
    if chunks != [] {
      ChunksInOrder(chunks[1..]);
      FlatMapConcat(MessageOf, Lines(chunks[0]), FlatMap(Lines, chunks[1..]));
    }
  }

  /** Since no line loses messages by being broken, all agree exactly if each one does. */
  lemma {:induction false} AllHarmlessIff(broken: seq<seq<Text>>)
    ensures |MessagesInPieces(broken)| >= |Messages(Joined(broken))|
    ensures MessagesInPieces(broken) == Messages(Joined(broken)) <==> AllHarmless(broken)
  {
    if broken != [] {
      var tail := broken[1..];
      AllHarmlessIff(tail);
      PiecesDeliverNoLess(broken[0]);
      assert Joined(broken)[1..] == Joined(tail);
      EqualHeads(PieceMessages(broken[0]), MessagesInPieces(tail),
                 MessageOf(Concat(broken[0])), Messages(Joined(tail)));
      assert AllHarmless(broken) <==> Harmless(broken[0]) && AllHarmless(tail) by {
        assert forall pieces :: pieces in broken <==> pieces == broken[0] || pieces in tail;
      }
    }
  }

  ghost predicate AllHarmless(broken: seq<seq<Text>>) {
    forall pieces :: pieces in broken ==> Harmless(pieces)
  }

  ghost predicate AllReadLikeWhole(broken: seq<seq<Text>>) {
    forall pieces :: pieces in broken ==> ReadsLikeWhole(pieces)
  }

  lemma AllReadLikeWholeIff(broken: seq<seq<Text>>)
    ensures AllHarmless(broken) <==> AllReadLikeWhole(broken)
  {
    forall pieces | pieces in broken
      ensures Harmless(pieces) <==> ReadsLikeWhole(pieces)
    {
      HarmlessIff(pieces);
    }
  }

  /** Chunk by chunk, the messages are those of the whole exactly when no line is broken harmfully. */
  lemma ChunkedMessagesIff(chunks: seq<Text>)
    ensures FlatMap(MessagesIn, chunks) == MessagesIn(Concat(chunks)) <==>
            AllHarmless(BrokenLines(chunks))
  {
    ChunksInOrder(chunks);
    BrokenPieces(chunks);
    PiecesInOrder(BrokenLines(chunks));
    BrokenAreLines(chunks);
    AllHarmlessIff(BrokenLines(chunks));
  }

  lemma {:induction false} ConcatIsFlat(texts: seq<Text>)
    ensures Concat(texts) == FlatMap((t: Text) => t, texts)
  {
    if texts != [] {
      ConcatIsFlat(texts[1..]);
    }
  }

  /**
   Over every run in which nothing races a read that another one follows, wherever the observed sizes
   fall: the messages of the appended lines are delivered exactly once and in order if and only if, of the
   pieces in which the reads bring each line, none holds text or just one does and reads like the line.
   */
  lemma DeliveredDespiteCutsIff(offset: nat, before: Text, run: seq<Read>)
    requires offset <= |before| && AppendOnly(before, run) && NoReread(offset, run) && FittingFile(offset, before, run)
    ensures Delivered(offset, run) == MessagesIn(AppendedBytes(offset, before, run)) <==>
            AllReadLikeWhole(BrokenLines(Texts(offset, run)))
  {
    DeliveredFromTexts(offset, before, run);
    NoRereadBytes(offset, before, run);
    ConcatIsFlat(Texts(offset, run));
    ChunkedMessagesIff(Texts(offset, run));
    AllReadLikeWholeIff(BrokenLines(Texts(offset, run)));
  }
}
