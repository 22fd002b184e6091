/**
 Log text as bytes: splitting into lines the way a line scanner does, white space,
 and the clipping of long lines.
 */
module LogText {
  import opened Common

  type Byte = b: int | 0 <= b < 256
  type Text = seq<Byte>

  const NEWLINE: Byte := 10
  const RETURN: Byte := 13
  const MAX_LINE_BYTES: nat := 4096
  const SCAN_BUFFER: nat := 65536

  // ----- white space -----

  /** The length of the UTF-8 encoded white-space character `s` starts with; 0 if it starts with none. */
  function SpaceLength(s: Text): (n: nat)
    ensures n <= |s|
  {
    if |s| >= 1 && (9 <= s[0] <= 13 || s[0] == 32) then 1
    else if |s| >= 2 && s[0] == 0xC2 && (s[1] == 0x85 || s[1] == 0xA0) then 2
    else if |s| >= 3 && IsWideSpace(s[0], s[1], s[2]) then 3
    else 0
  }

  predicate IsWideSpace(a: Byte, b: Byte, c: Byte) {
    || (a == 0xE1 && b == 0x9A && c == 0x80)
    || (a == 0xE2 && b == 0x80 && (0x80 <= c <= 0x8A || c == 0xA8 || c == 0xA9 || c == 0xAF))
    || (a == 0xE2 && b == 0x81 && c == 0x9F)
    || (a == 0xE3 && b == 0x80 && c == 0x80)
  }

  /** True when trimming white space from `s` leaves nothing. */
  predicate Blank(s: Text)
    decreases |s|
  {
    s == [] || (SpaceLength(s) > 0 && Blank(s[SpaceLength(s)..]))
  }

  // ----- lines -----

  function NewlineFrom(data: Text, from: nat): (i: nat)
    requires from <= |data|
    ensures from <= i <= |data|
    ensures forall j :: from <= j < i ==> data[j] != NEWLINE
    ensures i < |data| ==> data[i] == NEWLINE
    decreases |data| - from
  {
    if from == |data| || data[from] == NEWLINE then from else NewlineFrom(data, from + 1)
  }

  /** The position of the first newline, or |data| if there is none. */
  function LineLength(data: Text): (i: nat)
    ensures i <= |data|
    ensures forall j :: 0 <= j < i ==> data[j] != NEWLINE
    ensures i < |data| ==> data[i] == NEWLINE
  {
    NewlineFrom(data, 0)
  }

  /** The raw lines of `data`; an unterminated last line counts if it is not empty. */
  function Lines(data: Text): seq<Text> {
    if data == [] then []
    else
      var i := LineLength(data);
      if i < |data| then [data[..i]] + Lines(data[i + 1..]) else [data]
  }

  /** True when `data` is empty or its last byte ends a line. */
  predicate AtLineEnd(data: Text) {
    data == [] || data[|data| - 1] == NEWLINE
  }

  /** Every line put back with its terminator. */
  function Unlines(lines: seq<Text>): Text {
    if lines == [] then [] else lines[0] + [NEWLINE] + Unlines(lines[1..])
  }

  lemma UnlinesCons(line: Text, lines: seq<Text>)
    ensures Unlines([line] + lines) == line + [NEWLINE] + Unlines(lines)
  {
  }

  lemma SplitFirstLine(data: Text)
    requires LineLength(data) < |data|
    ensures Lines(data) == [data[..LineLength(data)]] + Lines(data[LineLength(data) + 1..])
    ensures data == data[..LineLength(data)] + [NEWLINE] + data[LineLength(data) + 1..]
    ensures AtLineEnd(data) <==> AtLineEnd(data[LineLength(data) + 1..])
  {
    SplitAt(data, LineLength(data));
  }

  lemma SplitAt(data: Text, i: nat)
    requires i < |data|
    ensures data == data[..i] + [data[i]] + data[i + 1..]
  {
  }

  /** Splitting loses nothing: the lines, re-terminated, are the data, with the last line closed if it was open. */
  lemma {:induction false} LinesRoundTrip(data: Text)
    ensures Unlines(Lines(data)) == if AtLineEnd(data) then data else data + [NEWLINE]
    decreases |data|
  {
    if data != [] {
      var line, rest := data[..LineLength(data)], Behind(data);
      FirstLine(data);
      LinesRoundTrip(rest);
      UnlinesCons(line, Lines(rest));
      if LineLength(data) < |data| {
        SplitFirstLine(data);
        ConcatAssociative(line + [NEWLINE], rest, [NEWLINE]);
      }
    }
  }

  /** No line contains its terminator, so the round trip determines the lines. */
  lemma {:induction false} LinesAreWithoutNewlines(data: Text)
    ensures forall l :: l in Lines(data) ==> NEWLINE !in l
    decreases |data|
  {
    var i := LineLength(data);
    if i < |data| {
      SplitFirstLine(data);
      LinesAreWithoutNewlines(data[i + 1..]);
    }
  }

  /** Only one list of texts without terminators re-terminates to the same data. */
  lemma {:induction false} UnlinesInjective(a: seq<Text>, b: seq<Text>)
    requires forall l :: l in a || l in b ==> NEWLINE !in l
    requires Unlines(a) == Unlines(b)
    ensures a == b
  {
    if a != [] && b != [] {
      UnlinesHead(a);
      UnlinesHead(b);
      var n, u := |a[0]|, Unlines(a);
      assert a[0] == u[..n] && b[0] == u[..n];
      assert Unlines(a[1..]) == u[n + 1..] && Unlines(b[1..]) == u[n + 1..];
      UnlinesInjective(a[1..], b[1..]);
    }
  }

  lemma UnlinesHead(lines: seq<Text>)
    requires lines != [] && NEWLINE !in lines[0]
    ensures LineLength(Unlines(lines)) == |lines[0]| < |Unlines(lines)|
    ensures Unlines(lines)[..|lines[0]|] == lines[0] && Unlines(lines)[|lines[0]| + 1..] == Unlines(lines[1..])
  {
    var u, n := Unlines(lines), |lines[0]|;
    assert u == lines[0] + ([NEWLINE] + Unlines(lines[1..]));
    assert forall j :: 0 <= j < n ==> u[j] == lines[0][j];
    assert u[n] == NEWLINE;
    LineLengthUnique(u, n);
  }

  lemma LineLengthUnique(data: Text, i: nat)
    requires i <= |data|
    requires forall j :: 0 <= j < i ==> data[j] != NEWLINE
    requires i < |data| ==> data[i] == NEWLINE
    ensures LineLength(data) == i
  {
  }

  /** The first line of `a + b` when `a` holds a newline. */
  lemma FirstLineOfConcat(a: Text, b: Text)
    requires LineLength(a) < |a|
    ensures LineLength(a + b) == LineLength(a)
    ensures Lines(a) == [a[..LineLength(a)]] + Lines(a[LineLength(a) + 1..])
    ensures Lines(a + b) == [a[..LineLength(a)]] + Lines(a[LineLength(a) + 1..] + b)
  {
    var i := LineLength(a);
    LineLengthUnique(a + b, i);
    assert (a + b)[..i] == a[..i];
    assert (a + b)[i + 1..] == a[i + 1..] + b;
  }

  lemma {:induction false} LinesConcat(a: Text, b: Text)
    requires AtLineEnd(a)
    ensures Lines(a + b) == Lines(a) + Lines(b)
    decreases |a|
  {
    if a == [] {
      assert a + b == b;
    } else {
      var first, rest := a[..LineLength(a)], a[LineLength(a) + 1..];
      calc {
        Lines(a + b);
        { FirstLineOfConcat(a, b); }
        [first] + Lines(rest + b);
        { LinesConcat(rest, b); }
        [first] + (Lines(rest) + Lines(b));
        { ConcatAssociative([first], Lines(rest), Lines(b)); }
        ([first] + Lines(rest)) + Lines(b);
        { FirstLineOfConcat(a, b); }
        Lines(a) + Lines(b);
      }
    }
  }

  /** The text behind the first line. */
  function Behind(data: Text): Text {
    if LineLength(data) < |data| then data[LineLength(data) + 1..] else []
  }

  lemma FirstLine(data: Text)
    requires data != []
    ensures Lines(data) == [data[..LineLength(data)]] + Lines(Behind(data))
  {
    assert data[..|data|] == data;
  }

  lemma FirstOfLonger(a: Text, b: Text)
    requires LineLength(a) < |a|
    ensures (a + b)[..LineLength(a + b)] == a[..LineLength(a)]
    ensures Behind(a + b) == Behind(a) + b
    ensures |Behind(a)| < |a|
    ensures AtLineEnd(Behind(a)) <==> AtLineEnd(a)
  {
    LineLengthUnique(a + b, LineLength(a));
  }

  lemma FirstOfJoined(a: Text, b: Text)
    requires LineLength(a) == |a|
    ensures (a + b)[..LineLength(a + b)] == a + b[..LineLength(b)]
    ensures Behind(a + b) == Behind(b)
  {
    LineLengthUnique(a + b, |a| + LineLength(b));
  }

  /** `all` is the lines `a` continued by the lines `b`. */
  predicate Joins(all: seq<Text>, a: seq<Text>, b: seq<Text>) {
    a != [] && b != [] && all == a[..|a| - 1] + [a[|a| - 1] + b[0]] + b[1..]
  }

  lemma JoinsBehind(first: Text, all: seq<Text>, a: seq<Text>, b: seq<Text>)
    requires Joins(all, a, b)
    ensures Joins([first] + all, [first] + a, b)
  {
  }

  lemma JoinsFirst(x: Text, y: Text, more: seq<Text>)
    ensures Joins([x + y] + more, [x] + [], [y] + more)
  {
  }

  /** A line that is continued is joined with the first line of what continues it. */
  lemma {:induction false} LinesJoin(a: Text, b: Text)
    requires !AtLineEnd(a) && b != []
    ensures Joins(Lines(a + b), Lines(a), Lines(b))
    decreases |a|
  {
    FirstLine(a);
    FirstLine(a + b);
    if LineLength(a) < |a| {
      FirstOfLonger(a, b);
      LinesJoin(Behind(a), b);
      JoinsBehind(a[..LineLength(a)], Lines(Behind(a) + b), Lines(Behind(a)), Lines(b));
    } else {
      FirstLine(b);
      FirstOfJoined(a, b);
      JoinsFirst(a[..LineLength(a)], b[..LineLength(b)], Lines(Behind(b)));
    }
  }

  /** Cutting inside a line makes one line too many. */
  lemma LinesCutInside(a: Text, b: Text)
    requires !AtLineEnd(a) && b != []
    ensures |Lines(a + b)| + 1 == |Lines(a)| + |Lines(b)|
  {
    LinesJoin(a, b);
  }

  /** Line splitting commutes with concatenation exactly at line ends. */
  lemma LinesConcatIff(a: Text, b: Text)
    ensures Lines(a + b) == Lines(a) + Lines(b) <==> AtLineEnd(a) || b == []
  {
    if AtLineEnd(a) {
      LinesConcat(a, b);
    } else if b == [] {
      assert a + b == a;
    } else {
      LinesCutInside(a, b);
    }
  }

  // ----- messages -----

  /** A line scanner drops one carriage return before the line end. */
  function DropReturn(line: Text): Text {
    if line != [] && line[|line| - 1] == RETURN then line[..|line| - 1] else line
  }

  function Clip(line: Text): (c: Text)
    ensures c <= line
    ensures |line| <= 4096 ==> c == line
    ensures |line| > 4096 ==> |c| == 4096
  {
    if |line| > MAX_LINE_BYTES then line[..MAX_LINE_BYTES] else line
  }

  /** What one raw line contributes: nothing if blank, else its clipped text. */
  function MessageOf(line: Text): seq<Text> {
    var l := DropReturn(line);
    if Blank(l) then [] else [Clip(l)]
  }

  function Messages(lines: seq<Text>): seq<Text> {
    FlatMap(MessageOf, lines)
  }

  // ----- the bounded scanner -----

  /** One step of the scanner: a token and what follows it, or the end of the scan. */
  datatype ScanStep = Token(line: Text, rest: Text) | Stop

  /** The scanner stops at the end of data, and also when a line does not fit its buffer. */
  function ScanNext(data: Text): (s: ScanStep)
    ensures s.Token? ==> |s.rest| < |data|
  {
    var i := LineLength(data);
    if data == [] || i >= SCAN_BUFFER then Stop
    else if i < |data| then Token(DropReturn(data[..i]), data[i + 1..])
    else Token(DropReturn(data), [])
  }

  /** What may stand between a token and the rest: a line end, or at the end of data nothing but a carriage return. */
  predicate IsLineEnd(gap: Text, last: bool) {
    gap == [NEWLINE] || gap == [RETURN, NEWLINE] || (last && (gap == [] || gap == [RETURN]))
  }

  /**
   A token is the text before the first line end, the rest is what follows that line end; scanning
   stops only on no data or a full buffer without a newline.
   */
  lemma ScanNextMeans(data: Text)
    ensures match ScanNext(data)
            case Stop => data == [] || (|data| >= 65536 && NEWLINE !in data[..65536])
            case Token(line, rest) =>
              var j := |data| - |rest|;
              && |line| <= j <= |data|
              && line == data[..|line|] && NEWLINE !in line && rest == data[j..]
              && IsLineEnd(data[|line|..j], rest == [])
              && (j <= SCAN_BUFFER && (data[j - 1] == NEWLINE || (rest == [] && j < SCAN_BUFFER)))
  {
    var i := LineLength(data);
    assert data[..i] == [] || data[..i] == data[..i - 1] + [data[i - 1]];
  }

  /** A token loses its line end with one carriage return before it, and nothing else. */
  lemma TokenOfLine(line: Text, rest: Text)
    requires 10 !in line && |line| + 1 < 65536
    ensures ScanNext((line + [13]) + [10] + rest) == Token(line, rest)
    ensures line == [] || line[|line| - 1] != 13 ==> ScanNext(line + [10] + rest) == Token(line, rest)
  {
    RawToken(line + [13], rest);
    RawToken(line, rest);
    assert (line + [13])[..|line|] == line;
  }

  lemma RawToken(raw: Text, rest: Text)
    requires NEWLINE !in raw && |raw| < SCAN_BUFFER
    ensures ScanNext(raw + [NEWLINE] + rest) == Token(DropReturn(raw), rest)
  {
    var data := raw + [NEWLINE] + rest;
    assert forall j :: 0 <= j < |raw| ==> data[j] == raw[j];
    LineLengthUnique(data, |raw|);
    assert data[..|raw|] == raw && data[|raw| + 1..] == rest;
  }

  /** Of the ASCII characters, tab, line feed, vertical tab, form feed, carriage return and blank are white space. */
  lemma AsciiSpaces(s: Text)
    requires s != [] && s[0] < 128
    ensures SpaceLength(s) == if s[0] in {9, 10, 11, 12, 13, 32} then 1 else 0
    ensures Blank(s) <==> s[0] in {9, 10, 11, 12, 13, 32} && Blank(s[1..])
  {
  }

  /** The lines before the first one that does not fit the scanner's buffer. */
  function FittingPrefix(lines: seq<Text>): (p: seq<Text>)
    ensures p <= lines
    ensures forall l :: l in p ==> |l| < SCAN_BUFFER
    ensures |p| < |lines| ==> |lines[|p|]| >= SCAN_BUFFER
  {
    if lines == [] || |lines[0]| >= SCAN_BUFFER then [] else [lines[0]] + FittingPrefix(lines[1..])
  }

  /** Everything one scan of `data` delivers. */
  function ScanMessages(data: Text): seq<Text> {
    Messages(FittingPrefix(Lines(data)))
  }

  lemma ScanNothing()
    ensures ScanMessages([]) == []
  {
  }

  lemma ScanMessagesStep(data: Text)
    ensures match ScanNext(data)
            case Stop => ScanMessages(data) == []
            case Token(line, rest) =>
              ScanMessages(data) == (if Blank(line) then [] else [Clip(line)]) + ScanMessages(rest)
  {
  }

  predicate NewlineWithin(data: Text, i: nat) {
    exists j :: i <= j < i + SCAN_BUFFER && j < |data| && data[j] == NEWLINE
  }

  /** No stretch of SCAN_BUFFER bytes is free of newlines. */
  ghost predicate ShortLines(data: Text) {
    forall i: nat :: i + SCAN_BUFFER <= |data| ==> NewlineWithin(data, i)
  }

  lemma ShortLinesSlice(data: Text, lo: nat, hi: nat)
    requires ShortLines(data) && lo <= hi <= |data|
    ensures ShortLines(data[lo..hi])
  {
    var s := data[lo..hi];
    forall i: nat | i + SCAN_BUFFER <= |s|
      ensures NewlineWithin(s, i)
    {
      assert NewlineWithin(data, lo + i);
      var j :| lo + i <= j < lo + i + SCAN_BUFFER && j < |data| && data[j] == NEWLINE;
      assert s[j - lo] == NEWLINE;
    }
  }

  /** A short first line in front does not change whether all lines are short. */
  lemma ShortLinesTail(data: Text)
    requires LineLength(data) < |data| && LineLength(data) < SCAN_BUFFER
    ensures ShortLines(data) <==> ShortLines(data[LineLength(data) + 1..])
  {
    var n := LineLength(data);
    var rest := data[n + 1..];
    if ShortLines(data) {
      ShortLinesSlice(data, n + 1, |data|);
      assert data[n + 1..|data|] == rest;
    }
    if ShortLines(rest) {
      forall k: nat | k + SCAN_BUFFER <= |data|
        ensures NewlineWithin(data, k)
      {
        if k <= n {
          assert data[n] == NEWLINE;
        } else {
          assert NewlineWithin(rest, k - n - 1);
          var j :| k - n - 1 <= j < k - n - 1 + SCAN_BUFFER && j < |rest| && rest[j] == NEWLINE;
          assert data[j + n + 1] == NEWLINE;
        }
      }
    }
  }

  lemma FittingPrefixCons(line: Text, lines: seq<Text>)
    requires |line| < SCAN_BUFFER
    ensures FittingPrefix([line] + lines) == [line] + FittingPrefix(lines)
    ensures FittingPrefix([line] + lines) == [line] + lines <==> FittingPrefix(lines) == lines
  {
  }

  /** Every line fits the scanner exactly when no long stretch lacks a newline. */
  lemma {:induction false} ShortLinesFitIff(data: Text)
    ensures FittingPrefix(Lines(data)) == Lines(data) <==> ShortLines(data)
    decreases |data|
  {
    var i := LineLength(data);
    if data == [] {
    } else if i >= SCAN_BUFFER {
      assert !NewlineWithin(data, 0);
      assert Lines(data)[0] == data[..i];
    } else if i == |data| {
      FittingPrefixCons(data, []);
    } else {
      var rest := data[i + 1..];
      ShortLinesFitIff(rest);
      SplitFirstLine(data);
      FittingPrefixCons(data[..i], Lines(rest));
      ShortLinesTail(data);
    }
  }

  lemma ShortScan(data: Text)
    requires ShortLines(data)
    ensures ScanMessages(data) == Messages(Lines(data))
  {
    ShortLinesFitIff(data);
  }

  lemma ScanMessagesConcat(a: Text, b: Text)
    requires AtLineEnd(a) && ShortLines(a + b)
    ensures ScanMessages(a + b) == ScanMessages(a) + ScanMessages(b)
  {
    assert (a + b)[0..|a|] == a && (a + b)[|a|..|a + b|] == b;
    ShortLinesSlice(a + b, 0, |a|);
    ShortLinesSlice(a + b, |a|, |a + b|);
    ShortScan(a + b);
    ShortScan(a);
    ShortScan(b);
    LinesConcat(a, b);
    FlatMapConcat(MessageOf, Lines(a), Lines(b));
  }

  /** A scan loses a message exactly when a non-blank line stands at or behind one that does not fit. */
  lemma ScanLosesNothingIff(data: Text)
    ensures var fit := FittingPrefix(Lines(data));
            ScanMessages(data) == Messages(Lines(data)) <==>
            forall l :: l in Lines(data)[|fit|..] ==> Blank(DropReturn(l))
  {
    var all, fit := Lines(data), FittingPrefix(Lines(data));
    assert all == fit + all[|fit|..];
    FlatMapConcat(MessageOf, fit, all[|fit|..]);
    NoMessagesIff(all[|fit|..]);
    if ScanMessages(data) == Messages(all) {
      assert |Messages(all[|fit|..])| == 0;
    } else {
      assert Messages(all[|fit|..]) != [];
    }
  }

  lemma {:induction false} NoMessagesIff(lines: seq<Text>)
    ensures Messages(lines) == [] <==> forall l :: l in lines ==> Blank(DropReturn(l))
  {
    if lines != [] {
      NoMessagesIff(lines[1..]);
      assert forall l :: l in lines <==> l == lines[0] || l in lines[1..];
    }
  }

  // ----- how far a scan comes -----

  /** How many bytes of `data` the scanner turns into tokens before it stops. */
  function TakenBytes(data: Text): (n: nat)
    ensures n <= |data|
    decreases |data|
  {
    match ScanNext(data)
    case Stop => 0
    case Token(_, rest) => |data| - |rest| + TakenBytes(rest)
  }

  predicate LineStart(data: Text, i: nat) {
    i <= |data| && (i == 0 || data[i - 1] == NEWLINE)
  }

  /** A line that does not fit the scanner's buffer starts at `i`. */
  predicate OverlongAt(data: Text, i: nat) {
    LineStart(data, i) && i + SCAN_BUFFER <= |data| && !NewlineWithin(data, i)
  }

  /** No line that starts in the first `n` bytes is too long for the scanner. */
  ghost predicate FitsUpTo(data: Text, n: int) {
    forall i: nat :: i < n ==> !OverlongAt(data, i)
  }

  lemma NewlineShift(data: Text, j: nat, i: nat)
    requires j <= |data|
    ensures NewlineWithin(data[j..], i) <==> NewlineWithin(data, j + i)
  {
    if NewlineWithin(data[j..], i) {
      var k :| i <= k < i + SCAN_BUFFER && k < |data| - j && data[j..][k] == NEWLINE;
      assert data[j + k] == NEWLINE;
    }
    if NewlineWithin(data, j + i) {
      var k :| j + i <= k < j + i + SCAN_BUFFER && k < |data| && data[k] == NEWLINE;
      assert data[j..][k - j] == NEWLINE;
    }
  }

  lemma OverlongShift(data: Text, j: nat, i: nat)
    requires LineStart(data, j) && OverlongAt(data[j..], i)
    ensures OverlongAt(data, j + i)
  {
    NewlineShift(data, j, i);
  }

  /** The scanner stops nowhere but at an over-long line. */
  lemma {:induction false} StopsAtOverlong(data: Text)
    requires TakenBytes(data) < |data|
    ensures OverlongAt(data, TakenBytes(data))
    decreases |data|
  {
    ScanNextMeans(data);
    match ScanNext(data)
    case Stop =>
    case Token(_, rest) =>
      StopsAtOverlong(rest);
      OverlongShift(data, |data| - |rest|, TakenBytes(rest));
  }

  lemma TokenHasNewline(data: Text, i: nat)
    requires ScanNext(data).Token? && i < |data| - |ScanNext(data).rest| && i + SCAN_BUFFER <= |data|
    ensures NewlineWithin(data, i)
  {
    ScanNextMeans(data);
    assert data[|data| - |ScanNext(data).rest| - 1] == NEWLINE;
  }

  /** It does not pass a stretch without a newline that fills its buffer. */
  lemma {:induction false} StopsBefore(data: Text, i: nat)
    requires i + SCAN_BUFFER <= |data| && !NewlineWithin(data, i)
    ensures TakenBytes(data) <= i
    decreases |data|
  {
    ScanNextMeans(data);
    match ScanNext(data)
    case Stop =>
    case Token(_, rest) =>
      var j := |data| - |rest|;
      if i < j {
        TokenHasNewline(data, i);
      }
      NewlineShift(data, j, i - j);
      StopsBefore(rest, i - j);
  }

  /** The scanner gets through the first `n` bytes exactly when no over-long line starts in them. */
  lemma TakenAtLeastIff(data: Text, n: nat)
    requires n <= |data|
    ensures TakenBytes(data) >= n <==> FitsUpTo(data, n)
  {
    if TakenBytes(data) < n {
      StopsAtOverlong(data);
    } else {
      forall i: nat | i < n
        ensures !OverlongAt(data, i)
      {
        if OverlongAt(data, i) {
          StopsBefore(data, i);
        }
      }
    }
  }

  /** It stops at `n` exactly when `n` is the first place where data ends or an over-long line starts. */
  lemma TakenIsIff(data: Text, n: nat)
    requires n <= |data|
    ensures TakenBytes(data) == n <==> FitsUpTo(data, n) && (n == |data| || OverlongAt(data, n))
  {
    TakenAtLeastIff(data, n);
    if TakenBytes(data) == n && n < |data| {
      StopsAtOverlong(data);
    }
    if OverlongAt(data, n) {
      StopsBefore(data, n);
    }
  }

  /** It takes everything exactly when every line fits. */
  lemma TakenAllIff(data: Text)
    ensures TakenBytes(data) == |data| <==> ShortLines(data)
  {
    if TakenBytes(data) < |data| {
      StopsAtOverlong(data);
    } else {
      forall i: nat | i + SCAN_BUFFER <= |data|
        ensures NewlineWithin(data, i)
      {
        if !NewlineWithin(data, i) {
          StopsBefore(data, i);
        }
      }
    }
  }

  /** The bytes that the scanner turns into tokens. */
  function TakenText(data: Text): Text {
    data[..TakenBytes(data)]
  }

  /** What a scan delivers are the messages of the lines in the bytes it took. */
  lemma TakenMessages(data: Text)
    ensures ScanMessages(data) == MessagesIn(TakenText(data))
  {
    TakenLines(data);
  }

  /** The bytes it takes hold the lines before the first one that does not fit. */
  lemma {:induction false} TakenLines(data: Text)
    ensures Lines(TakenText(data)) == FittingPrefix(Lines(data))
    decreases |data|
  {
    var i := LineLength(data);
    if data != [] {
      FirstLine(data);
    }
    if i < SCAN_BUFFER && i < |data| {
      TakenLines(Behind(data));
      TakenBehind(data);
      FirstLine(TakenText(data));
      FittingPrefixCons(data[..i], Lines(Behind(data)));
    } else if i < SCAN_BUFFER {
      TakenLast(data);
    }
  }

  /** Taking goes on behind the first line. */
  lemma TakenBehind(data: Text)
    requires LineLength(data) < |data| && LineLength(data) < SCAN_BUFFER
    ensures var taken, i := TakenText(data), LineLength(data);
            taken != [] && LineLength(taken) == i && taken[..i] == data[..i] && Behind(taken) == TakenText(Behind(data))
  {
    LineLengthUnique(TakenText(data), LineLength(data));
  }

  lemma TakenLast(data: Text)
    requires LineLength(data) == |data| < SCAN_BUFFER
    ensures TakenText(data) == data && FittingPrefix(Lines(data)) == Lines(data)
  {
    assert data[..|data|] == data;
  }

  /** The messages of a text's lines. */
  function MessagesIn(data: Text): seq<Text> {
    Messages(Lines(data))
  }

  lemma MessagesInConcat(a: Text, b: Text)
    requires AtLineEnd(a)
    ensures MessagesIn(a + b) == MessagesIn(a) + MessagesIn(b)
  {
    LinesConcat(a, b);
    FlatMapConcat(MessageOf, Lines(a), Lines(b));
  }
}
