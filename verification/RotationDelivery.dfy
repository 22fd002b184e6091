/**
 Which messages are delivered over runs with rotations and truncations. Reads that start over at byte 0
 of a file deliver what they find there, also what is not new; everything else is delivered once.
 */
module RotationDelivery {
  import opened Common
  import opened LogText
  import opened Logtail
  import opened TailRotation

  // ----- what starts a file over -----

  /** Where the next read will begin. */
  function ReadFrom(w: World): nat {
    if w.reader.handle == None || w.shrunk then 0 else w.reader.offset
  }

  /** The next read will see bytes that were read before, or that were there before startup. */
  predicate StartsOver(w: World)
    requires Shaped(w)
  {
    ReadFrom(w) < w.files[Target(w)].known
  }

  lemma ReadFromIsLowEnd(w: World, raced: Text)
    requires Inv(w) && Enabled(w, OnWrite(raced))
    ensures LowEnd(w) == ReadFrom(w)
  {
    assert GenerationOk(w.files[Target(w)]);
  }

  /**
   Reading starts over exactly after a truncation that kept something, and after a rename or create event
   that is handled when some of the file at the path was already read. The next read ends it, and so
   does a rotation if no file is open.
   */
  lemma StartsOverIff(w: World, s: Step)
    requires Inv(w) && Enabled(w, s)
    ensures Shaped(Next(w, s))
    ensures StartsOver(Next(w, s)) <==>
            match s
            case Append(_) => StartsOver(w)
            case Rotate => w.reader.handle != None && StartsOver(w)
            case Truncate(keep) => keep > 0
            case OnRename => w.files[Current(w)].known > 0
            case OnCreate => w.files[Current(w)].known > 0
            case OnWrite(_) => false
  {
    if s.OnWrite? {
      ReadAnswers(w, s.raced);
    }
  }

  // ----- what was appended and seen -----

  function SeenOf(g: Generation): Text {
    if g.first <= g.known <= |g.content| then g.content[g.first..g.known] else []
  }

  function NewOf(g: Generation): Text {
    if g.first <= |g.content| then g.content[g.first..] else []
  }

  /** All that was appended and that a read has seen, generation by generation. */
  function SeenText(files: seq<Generation>): Text {
    FlatMap(SeenOf, files)
  }

  /** All that was appended. */
  function AppendedText(files: seq<Generation>): Text {
    FlatMap(NewOf, files)
  }

  ghost predicate AllRead(files: seq<Generation>) {
    forall g :: g in files ==> g.known == |g.content|
  }

  /** Everything appended was seen exactly when every generation was read to its end. */
  lemma {:induction false} AllSeenIff(files: seq<Generation>)
    requires forall i :: 0 <= i < |files| ==> GenerationOk(files[i])
    ensures |SeenText(files)| <= |AppendedText(files)|
    ensures SeenText(files) == AppendedText(files) <==> AllRead(files)
  {
    if files != [] {
      var g, rest := files[0], files[1..];
      AllSeenIff(rest);
      SeenOfIff(g);
      EqualHeads(NewOf(g), AppendedText(rest), SeenOf(g), SeenText(rest));
      AllReadStep(files);
    }
  }

  lemma SeenOfIff(g: Generation)
    requires GenerationOk(g)
    ensures |SeenOf(g)| <= |NewOf(g)|
    ensures SeenOf(g) == NewOf(g) <==> g.known == |g.content|
  {
  }

  lemma AllReadStep(files: seq<Generation>)
    requires files != []
    ensures AllRead(files) <==> files[0].known == |files[0].content| && AllRead(files[1..])
  {
    assert forall g :: g in files <==> g == files[0] || g in files[1..];
  }

  // ----- steps -----

  /**
   A step that cannot split a line: nothing races a read that finds something, the file ends at a line
   end when its size is taken, what is read fits the scanner, and truncations keep whole lines.
   */
  ghost predicate Careful(w: World, s: Step)
    requires Shaped(w)
  {
    match s
    case OnWrite(raced) =>
      TextRead(w, raced) != [] ==> raced == [] && AtLineEnd(TargetText(w)) && ShortLines(TextRead(w, raced))
    case Truncate(keep) =>
      keep <= |w.files[Current(w)].content| && AtLineEnd(w.files[Current(w)].content[..keep])
    case _ => true
  }

  ghost predicate AllCareful(w: World, steps: seq<Step>)
    requires AllEnabled(w, steps)
    decreases |steps|
  {
    steps != [] ==> Careful(w, steps[0]) && AllCareful(Next(w, steps[0]), steps[1..])
  }

  /** The bytes that a read finds and that are not new: read before, or there before startup. */
  function NotNew(w: World, s: Step): Text
    requires Shaped(w)
  {
    var known := w.files[Target(w)].known;
    if s.OnWrite? && LowEnd(w) <= known <= |TargetText(w)| then TargetText(w)[LowEnd(w)..known] else []
  }

  /** The bytes that it finds and that are. */
  function News(w: World): Text
    requires Shaped(w)
  {
    var known := w.files[Target(w)].known;
    if known <= |TargetText(w)| then TargetText(w)[known..] else []
  }

  /** The messages that the reads of a run find in what is not new. */
  ghost function Repeated(w: World, steps: seq<Step>): seq<Text>
    requires AllEnabled(w, steps)
    decreases |steps|
  {
    if steps == [] then []
    else MessagesIn(NotNew(w, steps[0])) + Repeated(Next(w, steps[0]), steps[1..])
  }

  /** Every line that a read finds in what is not new is blank. */
  ghost predicate NoneRepeated(w: World, steps: seq<Step>)
    requires AllEnabled(w, steps)
    decreases |steps|
  {
    steps != [] ==>
      && (forall line :: line in Lines(NotNew(w, steps[0])) ==> Blank(DropReturn(line)))
      && NoneRepeated(Next(w, steps[0]), steps[1..])
  }

  /** `seen` was delivered once and `again` besides. */
  ghost predicate Delivers(messages: Text -> seq<Text>, delivered: seq<Text>, seen: Text, again: seq<Text>) {
    && multiset(delivered) == multiset(messages(seen)) + multiset(again)
    && (again == [] ==> delivered == messages(seen))
  }

  predicate CutAtLineEnd(g: Generation) {
    g.known <= |g.content| && AtLineEnd(g.content[..g.known])
  }

  /** What was seen ends at line ends. (What the first file held at startup may end inside a line.) */
  ghost predicate Split(w: World) {
    && Inv(w)
    && AtLineEnd(SeenText(w.files))
    && forall i :: 0 < i < |w.files| ==> CutAtLineEnd(w.files[i])
  }

  lemma DeliversMore(messages: Text -> seq<Text>, delivered: seq<Text>, seen: Text, again: seq<Text>,
                     repeated: seq<Text>, news: Text)
    requires Delivers(messages, delivered, seen, again)
    requires messages(seen + news) == messages(seen) + messages(news)
    ensures Delivers(messages, delivered + (repeated + messages(news)), seen + news, again + repeated)
  {
    if again + repeated == [] {
      assert again == [] && repeated == [];
    }
  }

  lemma Halves(file: Text, lo: nat, mid: nat)
    requires lo <= mid <= |file|
    ensures file[lo..] == file[lo..mid] + file[mid..]
    ensures AtLineEnd(file[..mid]) || lo == mid ==> AtLineEnd(file[lo..mid])
    ensures AtLineEnd(file) ==> AtLineEnd(file[mid..])
  {
    assert lo < mid ==> file[lo..mid][mid - lo - 1] == file[..mid][mid - 1];
    assert mid < |file| ==> file[mid..][|file| - mid - 1] == file[|file| - 1];
  }

  lemma AtLineEndConcat(a: Text, b: Text)
    requires AtLineEnd(a) && AtLineEnd(b)
    ensures AtLineEnd(a + b)
  {
    assert b == [] ==> a + b == a;
  }

  lemma ReadNothing(w: World, raced: Text)
    requires Inv(w) && Enabled(w, OnWrite(raced)) && TextRead(w, raced) == []
    ensures NotNew(w, OnWrite(raced)) == [] && News(w) == []
    ensures w.files[Target(w)].known == |TargetText(w)|
  {
    ReadScans(w, raced);
    assert GenerationOk(w.files[Target(w)]);
  }

  /** A read finds what is not new and then what is. */
  lemma ReadTexts(w: World)
    requires Split(w) && Enabled(w, OnWrite([])) && AtLineEnd(TargetText(w))
    ensures TextRead(w, []) == NotNew(w, OnWrite([])) + News(w)
    ensures AtLineEnd(NotNew(w, OnWrite([]))) && AtLineEnd(News(w))
  {
    var g := w.files[Target(w)];
    SlicesOfRead(w);
    assert LowEnd(w) == g.known || CutAtLineEnd(g);
    Halves(TargetText(w), LowEnd(w), g.known);
  }

  lemma SlicesOfRead(w: World)
    requires Inv(w) && Enabled(w, OnWrite([]))
    ensures var file, known := TargetText(w), w.files[Target(w)].known;
            && LowEnd(w) <= known <= |file|
            && (LowEnd(w) == known || Target(w) > 0)
            && TextRead(w, []) == file[LowEnd(w)..]
            && NotNew(w, OnWrite([])) == file[LowEnd(w)..known]
            && News(w) == file[known..]
  {
    ReadScans(w, []);
    assert GenerationOk(w.files[Target(w)]);
    assert TargetText(w) + [] == TargetText(w);
  }

  lemma ReadBrings(w: World, raced: Text)
    requires Split(w) && Enabled(w, OnWrite(raced)) && Careful(w, OnWrite(raced))
    ensures ScanMessages(TextRead(w, raced)) == MessagesIn(NotNew(w, OnWrite(raced))) + MessagesIn(News(w))
    ensures AtLineEnd(News(w))
  {
    if TextRead(w, raced) == [] {
      ReadNothing(w, raced);
      ShortScan([]);
      NoMessages();
    } else {
      ReadTexts(w);
      ShortScan(TextRead(w, []));
      MessagesInConcat(NotNew(w, OnWrite([])), News(w));
    }
  }

  lemma NoMessages()
    ensures MessagesIn([]) == []
  {
  }

  lemma ReadAdds(w: World, raced: Text)
    requires Split(w) && Enabled(w, OnWrite(raced)) && Careful(w, OnWrite(raced))
    ensures AfterRead(w, raced).delivered ==
            w.delivered + (MessagesIn(NotNew(w, OnWrite(raced))) + MessagesIn(News(w)))
  {
    ReadAnswers(w, raced);
    ReadBrings(w, raced);
  }

  lemma SeenBehind(w: World, files: seq<Generation>)
    requires Inv(w) && |files| == |w.files| && forall i :: Target(w) < i < |files| ==> files[i] == w.files[i]
    ensures SeenText(files[Target(w) + 1..]) == []
  {
    forall i | Target(w) < i < |files|
      ensures SeenOf(files[i]) == []
    {
      assert Untouched(w.files[i]);
    }
    FlatMapNothing(SeenOf, files[Target(w) + 1..]);
  }

  lemma SeenByRead(w: World, raced: Text)
    requires Inv(w)
    ensures SeenText(AfterRead(w, raced).files) == SeenText(w.files) + News(w)
  {
    var t, files' := Target(w), AfterRead(w, raced).files;
    SeenOfGrows(w, raced);
    SeenBehind(w, w.files);
    SeenBehind(w, files');
    FlatMapAt(SeenOf, w.files, t);
    FlatMapAt(SeenOf, files', t);
    assert files'[..t] == w.files[..t];
    Regroup(SeenText(w.files[..t]), SeenOf(w.files[t]), News(w));
  }

  lemma Regroup(a: Text, b: Text, c: Text)
    ensures a + ((b + c) + []) == (a + (b + [])) + c
  {
  }

  lemma SeenOfGrows(w: World, raced: Text)
    requires Inv(w)
    ensures SeenOf(AfterRead(w, raced).files[Target(w)]) == SeenOf(w.files[Target(w)]) + News(w)
  {
    var g := w.files[Target(w)];
    assert GenerationOk(g);
    assert (g.content + raced)[g.first..|g.content|] == g.content[g.first..];
    assert g.content[g.first..] == g.content[g.first..g.known] + g.content[g.known..];
  }

  lemma ReadKeepsCut(w: World, raced: Text)
    requires Split(w) && Enabled(w, OnWrite(raced)) && Careful(w, OnWrite(raced)) && Target(w) > 0
    ensures CutAtLineEnd(AfterRead(w, raced).files[Target(w)])
  {
    var file := TargetText(w);
    assert CutAtLineEnd(w.files[Target(w)]);
    assert (file + raced)[..|file|] == file == file[..|file|];
    if TextRead(w, raced) == [] {
      ReadNothing(w, raced);
    }
  }

  lemma ReadKeepsSplit(w: World, raced: Text)
    requires Split(w) && Enabled(w, OnWrite(raced)) && Careful(w, OnWrite(raced))
    ensures Split(AfterRead(w, raced))
  {
    ReadKeepsInv(w, raced);
    ReadBrings(w, raced);
    SeenByRead(w, raced);
    AtLineEndConcat(SeenText(w.files), News(w));
    ReadKeepsCuts(w, raced);
  }

  lemma ReadKeepsCuts(w: World, raced: Text)
    requires Split(w) && Enabled(w, OnWrite(raced)) && Careful(w, OnWrite(raced))
    ensures var files' := AfterRead(w, raced).files; forall i :: 0 < i < |files'| ==> CutAtLineEnd(files'[i])
  {
    if Target(w) > 0 {
      ReadKeepsCut(w, raced);
    }
  }

  lemma AppendKeepsCut(g: Generation, bytes: Text)
    requires GenerationOk(g)
    ensures var g' := g.(content := g.content + bytes);
            SeenOf(g') == SeenOf(g) && (CutAtLineEnd(g) ==> CutAtLineEnd(g'))
  {
    assert (g.content + bytes)[..g.known] == g.content[..g.known];
    assert (g.content + bytes)[g.first..g.known] == g.content[g.first..g.known];
  }

  /** Any other step leaves what was seen as it is. */
  lemma QuietKeepsSeen(w: World, s: Step)
    requires Inv(w) && Enabled(w, s) && !s.OnWrite?
    ensures SeenText(Next(w, s).files) == SeenText(w.files)
  {
    var files, files', last := w.files, Next(w, s).files, Current(w);
    if s.Append? {
      assert GenerationOk(files[last]);
      AppendKeepsCut(files[last], s.bytes);
      FlatMapSame(SeenOf, files, files');
    } else if s.Rotate? || s.Truncate? {
      FlatMapSnoc(SeenOf, files, files'[last + 1]);
    }
  }

  lemma QuietKeepsSplit(w: World, s: Step)
    requires Split(w) && Enabled(w, s) && !s.OnWrite? && Careful(w, s)
    ensures Split(Next(w, s))
  {
    StepKeepsInv(w, s);
    QuietKeepsSeen(w, s);
    QuietKeepsCuts(w, s);
  }

  lemma QuietKeepsCuts(w: World, s: Step)
    requires Split(w) && Enabled(w, s) && !s.OnWrite? && Careful(w, s)
    ensures var files' := Next(w, s).files; forall i :: 0 < i < |files'| ==> CutAtLineEnd(files'[i])
  {
    var files', last := Next(w, s).files, Current(w);
    if s.Append? {
      assert GenerationOk(w.files[last]);
      AppendKeepsCut(w.files[last], s.bytes);
    } else if s.Truncate? {
      assert files'[last + 1].content[..s.keep] == w.files[last].content[..s.keep];
    }
  }

  // ----- runs -----

  /** A careful step delivers what it finds that is not new, and its new messages once. */
  lemma StepDelivers(w: World, s: Step, again: seq<Text>)
    requires Split(w) && Enabled(w, s) && Careful(w, s)
    requires Delivers(MessagesIn, w.delivered, SeenText(w.files), again)
    ensures Split(Next(w, s))
    ensures Delivers(MessagesIn, Next(w, s).delivered, SeenText(Next(w, s).files), again + MessagesIn(NotNew(w, s)))
  {
    if s.OnWrite? {
      ReadKeepsSplit(w, s.raced);
      ReadDelivers(w, s.raced, again);
    } else {
      QuietKeepsSplit(w, s);
      QuietKeepsSeen(w, s);
      NoneAgain(again);
    }
  }

  lemma ReadDelivers(w: World, raced: Text, again: seq<Text>)
    requires Split(w) && Enabled(w, OnWrite(raced)) && Careful(w, OnWrite(raced))
    requires Delivers(MessagesIn, w.delivered, SeenText(w.files), again)
    ensures Delivers(MessagesIn, AfterRead(w, raced).delivered, SeenText(AfterRead(w, raced).files),
                     again + MessagesIn(NotNew(w, OnWrite(raced))))
  {
    SeenByRead(w, raced);
    ReadAdds(w, raced);
    MessagesInConcat(SeenText(w.files), News(w));
    DeliversMore(MessagesIn, w.delivered, SeenText(w.files), again, MessagesIn(NotNew(w, OnWrite(raced))), News(w));
  }

  lemma NoneAgain(again: seq<Text>)
    ensures again + MessagesIn([]) == again
  {
    NoMessages();
  }

  lemma {:induction false} RunDelivers(w: World, steps: seq<Step>, again: seq<Text>)
    requires Split(w) && AllEnabled(w, steps) && AllCareful(w, steps)
    requires Delivers(MessagesIn, w.delivered, SeenText(w.files), again)
    ensures Delivers(MessagesIn, Run(w, steps).delivered, SeenText(Run(w, steps).files), again + Repeated(w, steps))
    decreases |steps|
  {
    if steps == [] {
      assert again + [] == again;
    } else {
      var mine, rest := MessagesIn(NotNew(w, steps[0])), Repeated(Next(w, steps[0]), steps[1..]);
      StepDelivers(w, steps[0], again);
      RunDelivers(Next(w, steps[0]), steps[1..], again + mine);
      ConcatAssociative(again, mine, rest);
    }
  }

  lemma {:induction false} NoneRepeatedIff(w: World, steps: seq<Step>)
    requires AllEnabled(w, steps)
    ensures NoneRepeated(w, steps) <==> Repeated(w, steps) == []
    decreases |steps|
  {
    if steps != [] {
      NoMessagesIff(Lines(NotNew(w, steps[0])));
      NoneRepeatedIff(Next(w, steps[0]), steps[1..]);
      assert Repeated(w, steps) == [] <==>
             MessagesIn(NotNew(w, steps[0])) == [] && Repeated(Next(w, steps[0]), steps[1..]) == [];
    }
  }

  lemma StartupSplit(initial: Text)
    ensures Split(Startup(initial)) && SeenText(Startup(initial).files) == []
  {
    var files := Startup(initial).files;
    assert files[0].first == files[0].known && SeenOf(files[0]) == [];
    FlatMapNothing(SeenOf, files);
  }

  lemma DeliveredOnceIff(delivered: seq<Text>, seen: Text, again: seq<Text>)
    requires Delivers(MessagesIn, delivered, seen, again)
    ensures delivered == MessagesIn(seen) <==> again == []
  {
    NothingExtra(delivered, MessagesIn(seen), again);
  }

  /**
   Over every careful run, through any number of rotations and truncations, with files read to their
   ends or not: what is delivered are the messages of all appended lines that a read has seen, each
   once, plus the messages of lines that reads find besides: lines that were read before, and lines from
   before startup. So each is delivered once and in order if and only if all those other lines are
   blank; and what was appended is what reads have seen if and only if every generation was read to its end.
   */
  lemma DeliveryAcrossRotations(initial: Text, steps: seq<Step>)
    requires AllEnabled(Startup(initial), steps) && AllCareful(Startup(initial), steps)
    ensures var w := Run(Startup(initial), steps); var seen := SeenText(w.files);
            && multiset(w.delivered) == multiset(MessagesIn(seen)) + multiset(Repeated(Startup(initial), steps))
            && (w.delivered == MessagesIn(seen) <==> NoneRepeated(Startup(initial), steps))
            && (seen == AppendedText(w.files) <==> AllRead(w.files))
  {
    var w := Run(Startup(initial), steps);
    StartupSplit(initial);
    NoMessages();
    RunDelivers(Startup(initial), steps, []);
    assert [] + Repeated(Startup(initial), steps) == Repeated(Startup(initial), steps);
    NoneRepeatedIff(Startup(initial), steps);
    DeliveredOnceIff(w.delivered, SeenText(w.files), Repeated(Startup(initial), steps));
    RunKeepsInv(Startup(initial), steps);
    AllSeenIff(w.files);
  }

  // ----- runs that never start over -----

  /** Truncations keep nothing, and rename and create events are handled before the new file is read. */
  ghost predicate NeverStartsOver(w: World, steps: seq<Step>)
    requires AllEnabled(w, steps)
    decreases |steps|
  {
    steps != [] ==>
      && (steps[0].Truncate? ==> steps[0].keep == 0)
      && (steps[0].OnRename? || steps[0].OnCreate? ==> w.files[Current(w)].known == 0)
      && NeverStartsOver(Next(w, steps[0]), steps[1..])
  }

  lemma FindsOnlyNews(w: World, s: Step)
    requires Inv(w) && Enabled(w, s) && !StartsOver(w)
    ensures NotNew(w, s) == []
  {
    if s.OnWrite? {
      ReadFromIsLowEnd(w, s.raced);
    }
  }

  lemma {:induction false} NothingSeenAgain(w: World, steps: seq<Step>)
    requires Inv(w) && !StartsOver(w) && AllEnabled(w, steps) && NeverStartsOver(w, steps)
    ensures NoneRepeated(w, steps)
    decreases |steps|
  {
    if steps != [] {
      StepKeepsInv(w, steps[0]);
      StartsOverIff(w, steps[0]);
      FindsOnlyNews(w, steps[0]);
      NothingSeenAgain(Next(w, steps[0]), steps[1..]);
    }
  }

  /** Such careful runs deliver every appended line that is seen once and in order, and nothing from before startup. */
  lemma EveryLineOnceAcrossRotations(initial: Text, steps: seq<Step>)
    requires AllEnabled(Startup(initial), steps) && AllCareful(Startup(initial), steps)
    requires NeverStartsOver(Startup(initial), steps)
    ensures var w := Run(Startup(initial), steps);
            w.delivered == MessagesIn(SeenText(w.files))
  {
    StartupOk(initial);
    NothingSeenAgain(Startup(initial), steps);
    DeliveryAcrossRotations(initial, steps);
  }

  // ----- runs that do -----

  /** These careful steps lead from `w` to `w'`. */
  ghost predicate Leads(w: World, steps: seq<Step>, w': World) {
    AllEnabled(w, steps) && AllCareful(w, steps) && Run(w, steps) == w'
  }

  ghost predicate Moves(w: World, s: Step, w': World) {
    Shaped(w) && Enabled(w, s) && Careful(w, s) && Next(w, s) == w'
  }

  lemma LeadsOn(w: World, s: Step, next: World, rest: seq<Step>, w': World)
    requires Moves(w, s, next) && Leads(next, rest, w')
    ensures Leads(w, [s] + rest, w')
  {
    assert ([s] + rest)[0] == s && ([s] + rest)[1..] == rest;
  }

  lemma LeadsBy(w: World, s: Step, next: World, t: Step, w': World)
    requires Moves(w, s, next) && Moves(next, t, w')
    ensures Leads(w, [s, t], w')
  {
    assert Leads(w', [], w');
    LeadsOn(next, t, w', [], w');
    LeadsOn(w, s, next, [t], w');
    assert [t] + [] == [t] && [s] + [t] == [s, t];
  }

  /** A careful read that begins at byte 0 delivers the whole file. */
  lemma ReadsWhole(w: World)
    requires Inv(w) && Enabled(w, OnWrite([])) && LowEnd(w) == 0
    requires AtLineEnd(TargetText(w)) && ShortLines(TargetText(w))
    ensures Careful(w, OnWrite([]))
    ensures Next(w, OnWrite([])).delivered == w.delivered + MessagesIn(TargetText(w))
  {
    var file := TargetText(w);
    ReadScans(w, []);
    assert file + [] == file && file[0..] == file;
    assert file == [] ==> TextRead(w, []) == file;
    ReadAnswers(w, []);
    ShortScan(file);
  }

  /** A truncation that keeps whole lines is followed by their delivery, from whenever they are. */
  lemma TruncatedAndRead(w: World, keep: nat)
    requires Inv(w) && Enabled(w, Truncate(keep))
    requires var kept := w.files[Current(w)].content[..keep]; AtLineEnd(kept) && ShortLines(kept)
    ensures exists w' :: Leads(w, [Truncate(keep), OnWrite([])], w')
                         && w'.delivered == w.delivered + MessagesIn(w.files[Current(w)].content[..keep])
  {
    var w1 := Next(w, Truncate(keep));
    StepKeepsInv(w, Truncate(keep));
    ReadsWhole(w1);
    var w2 := Next(w1, OnWrite([]));
    LeadsBy(w, Truncate(keep), w1, OnWrite([]), w2);
  }

  /** A create or rename event that is handled after the new file was read has all of it delivered again. */
  lemma ReopenedAndRead(w: World, event: Step)
    requires Inv(w) && |w.files| > 1 && (event.OnCreate? || event.OnRename?)
    requires AtLineEnd(w.files[Current(w)].content) && ShortLines(w.files[Current(w)].content)
    ensures exists w' :: Leads(w, [event, OnWrite([])], w')
                         && w'.delivered == w.delivered + MessagesIn(w.files[Current(w)].content)
  {
    var w1 := Next(w, event);
    StepKeepsInv(w, event);
    ReadsWhole(w1);
    var w2 := Next(w1, OnWrite([]));
    LeadsBy(w, event, w1, OnWrite([]), w2);
  }

  /** A truncation right after startup that keeps whole lines has lines from before startup delivered. */
  lemma StartupLinesDelivered(kept: Text, rest: Text)
    requires AtLineEnd(kept) && ShortLines(kept) && rest != []
    ensures exists w' :: Leads(Startup(kept + rest), [Truncate(|kept|), OnWrite([])], w')
                         && w'.delivered == MessagesIn(kept)
  {
    var w := Startup(kept + rest);
    StartupOk(kept + rest);
    assert (kept + rest)[..|kept|] == kept;
    TruncatedAndRead(w, |kept|);
    assert [] + MessagesIn(kept) == MessagesIn(kept);
  }

  /** For instance, of the lines "A" and "B" that were there before. */
  lemma StartupLineA()
    ensures exists w' :: Leads(Startup([65, 10, 66, 10]), [Truncate(2), OnWrite([])], w') && w'.delivered == [[65]]
  {
    var kept: Text, rest: Text := [65, 10], [66, 10];
    assert kept + rest == [65, 10, 66, 10];
    StartupLinesDelivered(kept, rest);
    LineA();
  }

  lemma LineA()
    ensures MessagesIn([65, 10]) == [[65]]
  {
    var data: Text := [65, 10];
    ShortScan(data);
    LineLengthUnique(data, 1);
    assert data[..1] == [65] && data[2..] == [];
    assert ScanNext(data) == Token([65], []);
    ScanMessagesStep(data);
    ScanNothing();
  }

  /** A truncation that keeps lines which were read before has them delivered twice. */
  lemma LinesDeliveredTwice(kept: Text, rest: Text)
    requires AtLineEnd(kept) && rest != [] && AtLineEnd(rest) && ShortLines(kept + rest)
    ensures exists w' :: Leads(Startup([]), [Append(kept + rest), OnWrite([]), Truncate(|kept|), OnWrite([])], w')
                         && w'.delivered == MessagesIn(kept + rest) + MessagesIn(kept)
  {
    AtLineEndConcat(kept, rest);
    var w1, w := AppendedAndRead(kept + rest);
    WholeTruncated(w, kept, rest);
    var cut := [Truncate(|kept|), OnWrite([])];
    var w' :| Leads(w, cut, w') && w'.delivered == w.delivered + MessagesIn(kept);
    LeadsAlong(Startup([]), Append(kept + rest), w1, OnWrite([]), w, cut, w');
    assert [Append(kept + rest), OnWrite([])] + cut ==
           [Append(kept + rest), OnWrite([]), Truncate(|kept|), OnWrite([])];
  }

  lemma WholeTruncated(w: World, kept: Text, rest: Text)
    requires AtLineEnd(kept) && rest != [] && ShortLines(kept + rest) && ReadWhole(w, kept + rest)
    ensures exists w' :: Leads(w, [Truncate(|kept|), OnWrite([])], w') && w'.delivered == w.delivered + MessagesIn(kept)
  {
    var all := kept + rest;
    assert all[..|kept|] == kept == all[0..|kept|];
    ShortLinesSlice(all, 0, |kept|);
    TruncatedAndRead(w, |kept|);
  }

  lemma LeadsAlong(w: World, s: Step, w1: World, t: Step, w2: World, rest: seq<Step>, w': World)
    requires Moves(w, s, w1) && Moves(w1, t, w2) && Leads(w2, rest, w')
    ensures Leads(w, [s, t] + rest, w')
  {
    LeadsOn(w1, t, w2, rest, w');
    LeadsOn(w, s, w1, [t] + rest, w');
    assert [s] + ([t] + rest) == [s, t] + rest;
  }

  /** The file at the path holds `all` and was read to its end, its messages once. */
  ghost predicate ReadWhole(w: World, all: Text) {
    && Inv(w) && w.files[Current(w)].content == all && !w.shrunk
    && w.reader == PathState(Some(Current(w)), |all|)
    && w.delivered == MessagesIn(all)
  }

  lemma AppendedAndRead(all: Text) returns (w1: World, w2: World)
    requires AtLineEnd(all) && ShortLines(all)
    ensures Moves(Startup([]), Append(all), w1) && Moves(w1, OnWrite([]), w2) && ReadWhole(w2, all)
  {
    w1 := FirstAppend(all);
    w2 := FirstRead(w1, all);
  }

  /** The file at the path holds `all`, and none of it was read. */
  ghost predicate Unread(w: World, all: Text) {
    && Inv(w) && w.files == [Generation(all, 0, 0, 0)]
    && w.reader == PathState(Some(0), 0) && !w.shrunk && w.delivered == []
  }

  lemma FirstAppend(all: Text) returns (w: World)
    ensures Moves(Startup([]), Append(all), w) && Unread(w, all)
  {
    StartupOk([]);
    StepKeepsInv(Startup([]), Append(all));
    w := Next(Startup([]), Append(all));
    assert [] + all == all;
  }

  lemma FirstRead(w: World, all: Text) returns (w': World)
    requires Unread(w, all) && AtLineEnd(all) && ShortLines(all)
    ensures Moves(w, OnWrite([]), w') && ReadWhole(w', all)
  {
    ReadsWhole(w);
    StepKeepsInv(w, OnWrite([]));
    ReadAnswers(w, []);
    w' := Next(w, OnWrite([]));
    assert all + [] == all && [] + MessagesIn(all) == MessagesIn(all);
  }
}
