/** The block parser of the article view (parseBlocks in
    frontend/src/components/MarkdownContent.tsx). */
module MarkdownBlocks {
  import opened Common
  import opened Text
  import opened MarkdownLines
  import opened MarkdownText

  datatype Kind = Code | Heading | Divider | Bullets | Numbers | Quote | Paragraph

  // ---------- where blocks end ----------

  /** The branch a non-blank line is dispatched to. */
  function KindOf(c: Class): Kind {
    if c.fence then Code
    else if c.heading then Heading
    else if c.divider then Divider
    else if c.bullet then Bullets
    else if c.numbered then Numbers
    else if c.quote then Quote
    else Paragraph
  }

  /** Whether a branch's inner loop takes a line. */
  predicate Continues(kind: Kind, c: Class) {
    match kind
    case Code => !c.fence
    case Bullets => c.bullet
    case Numbers => c.numbered
    case Quote => c.quote
    case Paragraph => !c.blank && !c.BlockStart()
    case _ => false
  }

  /** Where a run of lines that the inner loop takes ends. */
  function RunEnd(kind: Kind, cs: seq<Class>, i: nat): (j: nat)
    requires i <= |cs|
    ensures i <= j <= |cs|
    decreases |cs| - i
  {
    if i < |cs| && Continues(kind, cs[i]) then RunEnd(kind, cs, i + 1) else i
  }

  lemma {:induction false} RunTakes(kind: Kind, cs: seq<Class>, i: nat)
    requires i <= |cs|
    ensures forall k :: i <= k < RunEnd(kind, cs, i) ==> Continues(kind, cs[k])
    ensures RunEnd(kind, cs, i) < |cs| ==> !Continues(kind, cs[RunEnd(kind, cs, i)])
    decreases |cs| - i
  {
    if i < |cs| && Continues(kind, cs[i]) { RunTakes(kind, cs, i + 1); }
  }

  /** Where the block that starts at line i ends. */
  function BlockEnd(cs: seq<Class>, i: nat): (end: nat)
    requires i < |cs|
    ensures i <= end <= |cs|
  {
    match KindOf(cs[i])
    case Code => Min(RunEnd(Code, cs, i + 1) + 1, |cs|)
    case Heading => i + 1
    case Divider => i + 1
    case kind => RunEnd(kind, cs, i)
  }

  /** A stretch of lines [from, to): one skipped blank line or the lines of one block. */
  datatype Segment = Segment(from: nat, to: nat, blank: bool)

  /** The segments from line i on, or nothing when the parser stops advancing. */
  function Segments(cs: seq<Class>, i: nat): Option<seq<Segment>>
    requires i <= |cs|
    decreases |cs| - i
  {
    if i == |cs| then Some([])
    else
      var next := if cs[i].blank then i + 1 else BlockEnd(cs, i);
      if next == i then None
      else
        match Segments(cs, next)
        case None => None
        case Some(rest) => Some([Segment(i, next, cs[i].blank)] + rest)
  }

  // ---------- when the parser stops advancing ----------

  /** Whether line k lies inside a fenced code block: an odd number of fences before it. */
  predicate Fenced(cs: seq<Class>, k: nat)
    requires k <= |cs|
  {
    k > 0 && Fenced(cs, k - 1) != cs[k - 1].fence
  }

  predicate StuckAt(cs: seq<Class>, k: nat) {
    k < |cs| && cs[k].Stuck() && !Fenced(cs, k)
  }

  predicate AllConsistent(cs: seq<Class>) { forall k :: 0 <= k < |cs| ==> cs[k].Consistent() }

  lemma FenceStretch(cs: seq<Class>, i: nat, j: nat)
    requires i <= j <= |cs| && forall k :: i <= k < j ==> !cs[k].fence
    ensures forall k :: i <= k <= j ==> Fenced(cs, k) == Fenced(cs, i)
  {
    for m := i to j
      invariant forall k :: i <= k <= m ==> Fenced(cs, k) == Fenced(cs, i)
    {
      assert Fenced(cs, m + 1) == Fenced(cs, m);
    }
  }

  /** Code takes a fence, everything up to the next fence, and that fence. */
  lemma CodeAdvances(cs: seq<Class>, i: nat)
    requires i < |cs| && AllConsistent(cs) && cs[i].fence && !Fenced(cs, i)
    ensures var end := BlockEnd(cs, i);
            i < end && (end < |cs| ==> !Fenced(cs, end)) && forall k :: i <= k < end ==> !StuckAt(cs, k)
  {
    var j := RunEnd(Code, cs, i + 1);
    RunTakes(Code, cs, i + 1);
    assert Fenced(cs, i + 1);
    FenceStretch(cs, i + 1, j);
    if j < |cs| { assert !Fenced(cs, j + 1); }
  }

  lemma RunAdvances(cs: seq<Class>, i: nat, kind: Kind)
    requires i < |cs| && AllConsistent(cs) && kind == KindOf(cs[i]) && !cs[i].blank && !Fenced(cs, i)
    requires kind in {Bullets, Numbers, Quote, Paragraph}
    ensures var end := BlockEnd(cs, i);
            && (end > i <==> !cs[i].Stuck())
            && (end < |cs| ==> !Fenced(cs, end)) && forall k :: i <= k < end ==> !StuckAt(cs, k)
  {
    var end := RunEnd(kind, cs, i);
    RunTakes(kind, cs, i);
    forall k | i <= k < end
      ensures !cs[k].fence && !cs[k].Stuck()
    {
      assert Continues(kind, cs[k]) && cs[k].Consistent();
    }
    FenceStretch(cs, i, end);
    assert cs[i].Consistent();
  }

  /** A line that is not stuck always moves the parser on, and the parser stands outside fences
      after the block; every line it passes over is fenced or not stuck. */
  lemma BlockAdvances(cs: seq<Class>, i: nat)
    requires i < |cs| && AllConsistent(cs) && !cs[i].blank && !Fenced(cs, i)
    ensures var end := BlockEnd(cs, i);
            && (end > i <==> !cs[i].Stuck())
            && (end < |cs| ==> !Fenced(cs, end)) && forall k :: i <= k < end ==> !StuckAt(cs, k)
  {
    assert cs[i].Consistent();
    var kind := KindOf(cs[i]);
    if kind.Code? {
      CodeAdvances(cs, i);
    } else if kind.Heading? || kind.Divider? {
      FenceStretch(cs, i, i + 1);
    } else {
      RunAdvances(cs, i, kind);
    }
  }

  lemma {:induction false} SegmentsStuckIff(cs: seq<Class>, i: nat)
    requires i <= |cs| && AllConsistent(cs) && (i < |cs| ==> !Fenced(cs, i))
    ensures Segments(cs, i).None? <==> exists k :: i <= k && StuckAt(cs, k)
    decreases |cs| - i
  {
    if i < |cs| {
      if cs[i].blank {
        assert cs[i].Consistent() && !StuckAt(cs, i);
        FenceStretch(cs, i, i + 1);
        SegmentsStuckIff(cs, i + 1);
      } else {
        BlockAdvances(cs, i);
        var end := BlockEnd(cs, i);
        if end > i { SegmentsStuckIff(cs, end); } else { assert StuckAt(cs, i); }
      }
    }
  }

  function LinesOf(markdown: string): seq<string> { SplitLines(ReplaceCrLf(markdown)) }

  /** The lines are the pieces between line feeds, less one carriage return at the end of each but the last. */
  lemma LinesOfIs(markdown: string)
    ensures var lines, pieces := LinesOf(markdown), SplitLines(markdown);
            LessReturns(lines, pieces)
  {
    CrLfLines(markdown);
  }

  function ClassesOf(lines: seq<string>): (cs: seq<Class>)
    ensures |cs| == |lines|
  {
    seq(|lines|, k requires 0 <= k < |lines| => Classify(lines[k]))
  }

  /** The parser comes to an end exactly when no line outside code fences starts a heading
      whose text holds a carriage return or a Unicode line or paragraph separator. */
  lemma TerminatesIff(lines: seq<string>)
    ensures Segments(ClassesOf(lines), 0).Some? <==>
            forall k :: 0 <= k < |lines| ==> !StuckAt(ClassesOf(lines), k)
  {
    SegmentsStuckIff(ClassesOf(lines), 0);
  }

  /** One heading line "# a", carriage return, "b" is enough. */
  lemma CarriageReturnLoops()
    ensures Segments(ClassesOf(["# a\rb"]), 0).None?
  {
    var cs := ClassesOf(["# a\rb"]);
    CarriageReturnSticks();
    assert StuckAt(cs, 0);
    SegmentsStuckIff(cs, 0);
  }

  // ---------- the blocks tile the input ----------

  /** Consecutive non-empty stretches that cover [i, n). */
  predicate Tiles(segments: seq<Segment>, i: nat, n: nat) {
    if segments == [] then i == n
    else segments[0].from == i && i < segments[0].to <= n && Tiles(segments[1..], segments[0].to, n)
  }

  /** A segment is one blank line, or a maximal run of lines of its kind. */
  ghost predicate Describes(cs: seq<Class>, s: Segment) {
    && s.from < s.to <= |cs|
    && cs[s.from].blank == s.blank
    && (s.blank ==> s.to == s.from + 1)
    && (!s.blank ==> s.to == BlockEnd(cs, s.from) && Maximal(cs, KindOf(cs[s.from]), s.from, s.to))
  }

  /** Lists, quotes and paragraphs hold only lines of their kind and end where those end;
      code runs to the next fence and takes it; headings and dividers are one line. */
  ghost predicate Maximal(cs: seq<Class>, kind: Kind, from: nat, to: nat)
    requires from < to <= |cs|
  {
    match kind
    case Code =>
      && cs[from].fence && (forall k :: from < k < to - 1 ==> !cs[k].fence)
      && (to < |cs| ==> from + 1 < to && cs[to - 1].fence)
    case Heading => to == from + 1 && cs[from].heading
    case Divider => to == from + 1 && cs[from].divider
    case _ =>
      (forall k :: from <= k < to ==> Continues(kind, cs[k])) && (to < |cs| ==> !Continues(kind, cs[to]))
  }

  lemma BlockIsMaximal(cs: seq<Class>, i: nat)
    requires i < |cs| && BlockEnd(cs, i) > i
    ensures Maximal(cs, KindOf(cs[i]), i, BlockEnd(cs, i))
  {
    var kind := KindOf(cs[i]);
    if kind.Code? {
      RunTakes(Code, cs, i + 1);
    } else if !kind.Heading? && !kind.Divider? {
      RunTakes(kind, cs, i);
    }
  }

  /** The segments partition the input lines in order. */
  lemma {:induction false} SegmentsTile(cs: seq<Class>, i: nat)
    requires i <= |cs| && Segments(cs, i).Some?
    ensures Tiles(Segments(cs, i).value, i, |cs|)
    ensures forall s :: s in Segments(cs, i).value ==> Describes(cs, s)
    decreases |cs| - i
  {
    if i < |cs| {
      var next := if cs[i].blank then i + 1 else BlockEnd(cs, i);
      SegmentsTile(cs, next);
      if !cs[i].blank { BlockIsMaximal(cs, i); }
      assert Describes(cs, Segment(i, next, cs[i].blank));
    }
  }

  // ---------- the text of blocks ----------

  datatype Block =
    | HeadingBlock(level: nat, text: string)
    | ParagraphBlock(text: string)
    | BulletBlock(items: seq<string>)
    | NumberBlock(items: seq<string>)
    | QuoteBlock(text: string)
    | CodeBlock(text: string)
    | DividerBlock

  /** What a branch keeps of one trimmed line. */
  function TextOf(kind: Kind, t: string): string {
    match kind
    case Bullets => AfterMark(t, 1)
    case Numbers => AfterMark(t, DigitsEnd(t, 0) + 1)
    case Quote => QuoteText(t)
    case _ => t
  }

  /** What a branch keeps of one line: code is kept as it is. */
  function ItemText(kind: Kind, line: string): string {
    if kind.Code? then line else TextOf(kind, Strip(line))
  }

  function ItemTexts(kind: Kind, lines: seq<string>, i: nat, j: nat): seq<string>
    requires i <= j <= |lines|
  {
    seq(j - i, k requires 0 <= k < j - i => ItemText(kind, lines[i + k]))
  }

  function RunTexts(kind: Kind, lines: seq<string>, cs: seq<Class>, i: nat): seq<string>
    requires i <= |lines| == |cs|
  {
    ItemTexts(kind, lines, i, RunEnd(kind, cs, i))
  }

  function BlockAt(lines: seq<string>, cs: seq<Class>, i: nat): Block
    requires i < |lines| == |cs|
  {
    var t := Strip(lines[i]);
    match KindOf(cs[i])
    case Code => CodeBlock(Join(RunTexts(Code, lines, cs, i + 1), "\n"))
    case Heading => HeadingBlock(Marks(t), Strip(t[TextStart(t)..]))
    case Divider => DividerBlock
    case Bullets => BulletBlock(RunTexts(Bullets, lines, cs, i))
    case Numbers => NumberBlock(RunTexts(Numbers, lines, cs, i))
    case Quote => QuoteBlock(Join(RunTexts(Quote, lines, cs, i), " "))
    case Paragraph => ParagraphBlock(Join(RunTexts(Paragraph, lines, cs, i), " "))
  }

  /** The block of every segment that is not a blank line. */
  function BlocksOf(lines: seq<string>, cs: seq<Class>, segments: seq<Segment>): seq<Block>
    requires |lines| == |cs|
  {
    if segments == [] then []
    else
      var s := segments[0];
      (if !s.blank && s.from < |lines| then [BlockAt(lines, cs, s.from)] else []) + BlocksOf(lines, cs, segments[1..])
  }

  /** The blocks from line i on, or nothing when the parser stops advancing. */
  function Parse(lines: seq<string>, cs: seq<Class>, i: nat): Option<seq<Block>>
    requires i <= |lines| == |cs|
  {
    match Segments(cs, i)
    case None => None
    case Some(segments) => Some(BlocksOf(lines, cs, segments))
  }

  function Prepend(front: seq<Block>, rest: Option<seq<Block>>): Option<seq<Block>> {
    match rest
    case None => None
    case Some(blocks) => Some(front + blocks)
  }

  lemma PrependTwice(a: seq<Block>, b: seq<Block>, rest: Option<seq<Block>>)
    ensures Prepend(a, Prepend(b, rest)) == Prepend(a + b, rest)
  {
    if rest.Some? { Regroup(a, b, rest.value); }
  }

  // ---------- what the blocks show ----------

  /** What a line of a list, a quote or a paragraph shows: its trimmed text without the mark. */
  ghost predicate LineItem(kind: Kind, line: string, item: string) {
    exists t :: TrimOf(line, t) && ItemOf(kind, t, item)
  }

  ghost predicate ItemOf(kind: Kind, t: string, item: string) {
    match kind
    case Bullets => BulletLine(t, item)
    case Numbers => NumberLine(t, item)
    case Quote => QuoteLine(t, item)
    case _ => item == t
  }

  ghost predicate LineItems(kind: Kind, lines: seq<string>, from: nat, to: nat, items: seq<string>)
    requires from <= to <= |lines|
  {
    |items| == to - from && forall k :: 0 <= k < to - from ==> LineItem(kind, lines[from + k], items[k])
  }

  /** The block shows all of its lines: code the lines between its fences as they are, a heading, list,
      quote or paragraph the text of each line in order. Which block it is depends on its first
      line, by the first of the tests that holds. */
  ghost predicate ShowsBlock(block: Block, lines: seq<string>, cs: seq<Class>, from: nat, to: nat)
    requires from < to <= |lines| == |cs|
  {
    var c := cs[from];
    match block
    case CodeBlock(text) =>
      && c.fence && (forall k :: from < k < to - 1 ==> !cs[k].fence)
      && (to < |cs| ==> from + 1 < to && cs[to - 1].fence)
      && text == Join(lines[from + 1..if from + 1 < to && cs[to - 1].fence then to - 1 else to], "\n")
    case HeadingBlock(level, text) =>
      !c.fence && c.heading && to == from + 1 && exists t :: TrimOf(lines[from], t) && HeadingLine(t, level, text)
    case DividerBlock => !c.fence && !c.heading && c.divider && to == from + 1
    case BulletBlock(items) =>
      && !c.fence && !c.heading && !c.divider && (forall k :: from <= k < to ==> cs[k].bullet)
      && (to < |cs| ==> !cs[to].bullet) && LineItems(Bullets, lines, from, to, items)
    case NumberBlock(items) =>
      && !c.fence && !c.heading && !c.divider && !c.bullet && (forall k :: from <= k < to ==> cs[k].numbered)
      && (to < |cs| ==> !cs[to].numbered) && LineItems(Numbers, lines, from, to, items)
    case QuoteBlock(text) =>
      && !c.fence && !c.heading && !c.divider && !c.bullet && !c.numbered
      && (forall k :: from <= k < to ==> cs[k].quote) && (to < |cs| ==> !cs[to].quote)
      && exists items :: LineItems(Quote, lines, from, to, items) && text == Join(items, " ")
    case ParagraphBlock(text) =>
      && (forall k :: from <= k < to ==> Plain(cs[k])) && (to < |cs| ==> !Plain(cs[to]))
      && exists items :: LineItems(Paragraph, lines, from, to, items) && text == Join(items, " ")
  }

  /** Text that starts no block. */
  predicate Plain(c: Class) {
    !c.blank && !c.fence && !c.startsHeading && !c.divider && !c.bullet && !c.numbered && !c.quote
  }

  /** One block for each segment that is not a blank line, in order, and each shows its lines. */
  ghost predicate Shows(blocks: seq<Block>, lines: seq<string>, cs: seq<Class>, segments: seq<Segment>)
    requires |lines| == |cs|
  {
    if segments == [] then blocks == []
    else
      var s := segments[0];
      && s.from < s.to <= |lines|
      && if s.blank then Shows(blocks, lines, cs, segments[1..])
         else blocks != [] && ShowsBlock(blocks[0], lines, cs, s.from, s.to) &&
              Shows(blocks[1..], lines, cs, segments[1..])
  }

  /** The test of a branch that takes runs of lines. */
  predicate Tested(kind: Kind, t: string) {
    match kind
    case Bullets => IsBullet(t)
    case Numbers => IsNumbered(t)
    case Quote => IsQuote(t)
    case _ => true
  }

  lemma BulletShown(t: string)
    requires Tight(t) && IsBullet(t)
    ensures ItemOf(Bullets, t, TextOf(Bullets, t))
  {
    BulletText(t);
  }

  lemma NumberShown(t: string)
    requires Tight(t) && IsNumbered(t)
    ensures ItemOf(Numbers, t, TextOf(Numbers, t))
  {
    NumberText(t);
  }

  lemma QuoteShown(t: string)
    requires Tight(t) && IsQuote(t)
    ensures ItemOf(Quote, t, TextOf(Quote, t))
  {
    QuoteTextIs(t);
  }

  lemma TextShown(kind: Kind, t: string)
    requires Tight(t) && Tested(kind, t)
    ensures ItemOf(kind, t, TextOf(kind, t))
  {
    match kind
    case Bullets => BulletShown(t);
    case Numbers => NumberShown(t);
    case Quote => QuoteShown(t);
    case _ =>
  }

  lemma LineShown(kind: Kind, line: string)
    requires kind in {Bullets, Numbers, Quote, Paragraph} && Continues(kind, Classify(line))
    ensures LineItem(kind, line, ItemText(kind, line))
  {
    StripIsTrim(line);
    TextShown(kind, Strip(line));
  }

  /** Every line that a branch takes shows the text that the branch keeps of it. */
  ghost predicate AllShown(kind: Kind, lines: seq<string>, cs: seq<Class>)
    requires |lines| == |cs|
  {
    forall k :: 0 <= k < |lines| && Continues(kind, cs[k]) ==> LineItem(kind, lines[k], ItemText(kind, lines[k]))
  }

  lemma LinesShown(kind: Kind, lines: seq<string>)
    requires kind in {Bullets, Numbers, Quote, Paragraph}
    ensures AllShown(kind, lines, ClassesOf(lines))
  {
    forall k | 0 <= k < |lines| && Continues(kind, ClassesOf(lines)[k])
      ensures LineItem(kind, lines[k], ItemText(kind, lines[k]))
    {
      LineShown(kind, lines[k]);
    }
  }

  lemma ItemTextAt(kind: Kind, lines: seq<string>, i: nat, j: nat, k: nat)
    requires i <= j <= |lines| && k < j - i
    ensures ItemTexts(kind, lines, i, j)[k] == ItemText(kind, lines[i + k])
  {
  }

  lemma ItemsShown(kind: Kind, lines: seq<string>, cs: seq<Class>, i: nat)
    requires i <= |lines| == |cs| && AllShown(kind, lines, cs)
    ensures LineItems(kind, lines, i, RunEnd(kind, cs, i), RunTexts(kind, lines, cs, i))
  {
    RunTakes(kind, cs, i);
    var j := RunEnd(kind, cs, i);
    forall k | 0 <= k < j - i
      ensures LineItem(kind, lines[i + k], ItemTexts(kind, lines, i, j)[k])
    {
      assert Continues(kind, cs[i + k]);
      ItemTextAt(kind, lines, i, j, k);
    }
  }

  lemma CodeTexts(lines: seq<string>, i: nat, j: nat)
    requires i <= j <= |lines|
    ensures ItemTexts(Code, lines, i, j) == lines[i..j]
  {
    forall k | 0 <= k < j - i
      ensures ItemTexts(Code, lines, i, j)[k] == lines[i..j][k]
    {
      ItemTextAt(Code, lines, i, j, k);
    }
  }

  lemma CodeShown(lines: seq<string>, cs: seq<Class>, i: nat)
    requires i < |lines| == |cs| && cs[i].fence
    ensures ShowsBlock(BlockAt(lines, cs, i), lines, cs, i, BlockEnd(cs, i))
  {
    RunTakes(Code, cs, i + 1);
    CodeTexts(lines, i + 1, RunEnd(Code, cs, i + 1));
  }

  lemma HeadingShown(lines: seq<string>, i: nat)
    requires i < |lines| && KindOf(ClassesOf(lines)[i]) == Heading
    ensures ShowsBlock(BlockAt(lines, ClassesOf(lines), i), lines, ClassesOf(lines), i, i + 1)
  {
    StripIsTrim(lines[i]);
    HeadingText(Strip(lines[i]));
  }

  lemma ListShown(lines: seq<string>, cs: seq<Class>, i: nat, kind: Kind)
    requires i < |lines| == |cs| && kind == KindOf(cs[i]) && kind in {Bullets, Numbers}
    requires BlockEnd(cs, i) > i && AllShown(kind, lines, cs)
    ensures ShowsBlock(BlockAt(lines, cs, i), lines, cs, i, BlockEnd(cs, i))
  {
    ItemsShown(kind, lines, cs, i);
    RunTakes(kind, cs, i);
  }

  lemma QuotedShown(lines: seq<string>, cs: seq<Class>, i: nat)
    requires i < |lines| == |cs| && KindOf(cs[i]) == Quote && BlockEnd(cs, i) > i && AllShown(Quote, lines, cs)
    ensures ShowsBlock(BlockAt(lines, cs, i), lines, cs, i, BlockEnd(cs, i))
  {
    ItemsShown(Quote, lines, cs, i);
    RunTakes(Quote, cs, i);
    assert LineItems(Quote, lines, i, BlockEnd(cs, i), RunTexts(Quote, lines, cs, i));
  }

  lemma ParagraphRun(cs: seq<Class>, i: nat)
    requires i <= |cs|
    ensures var to := RunEnd(Paragraph, cs, i);
            (forall k :: i <= k < to ==> Plain(cs[k])) && (to < |cs| ==> !Plain(cs[to]))
  {
    RunTakes(Paragraph, cs, i);
  }

  lemma ParagraphShown(lines: seq<string>, cs: seq<Class>, i: nat)
    requires i < |lines| == |cs| && KindOf(cs[i]) == Paragraph && BlockEnd(cs, i) > i && AllShown(Paragraph, lines, cs)
    ensures ShowsBlock(BlockAt(lines, cs, i), lines, cs, i, BlockEnd(cs, i))
  {
    ParagraphRun(cs, i);
    ItemsShown(Paragraph, lines, cs, i);
    var items := RunTexts(Paragraph, lines, cs, i);
    assert LineItems(Paragraph, lines, i, BlockEnd(cs, i), items) && BlockAt(lines, cs, i).text == Join(items, " ");
  }

  lemma BlockShown(lines: seq<string>, i: nat)
    requires i < |lines| && BlockEnd(ClassesOf(lines), i) > i
    ensures ShowsBlock(BlockAt(lines, ClassesOf(lines), i), lines, ClassesOf(lines), i, BlockEnd(ClassesOf(lines), i))
  {
    var cs := ClassesOf(lines);
    var kind := KindOf(cs[i]);
    if kind.Code? {
      CodeShown(lines, cs, i);
    } else if kind.Heading? {
      HeadingShown(lines, i);
    } else if !kind.Divider? {
      LinesShown(kind, lines);
      match kind
      case Quote => QuotedShown(lines, cs, i);
      case Paragraph => ParagraphShown(lines, cs, i);
      case _ => ListShown(lines, cs, i, kind);
    }
  }

  lemma {:induction false} BlocksShown(lines: seq<string>, i: nat)
    requires i <= |lines| && Segments(ClassesOf(lines), i).Some?
    ensures var cs := ClassesOf(lines);
            Shows(BlocksOf(lines, cs, Segments(cs, i).value), lines, cs, Segments(cs, i).value)
    decreases |lines| - i
  {
    if i < |lines| {
      var cs := ClassesOf(lines);
      var next := if cs[i].blank then i + 1 else BlockEnd(cs, i);
      BlocksShown(lines, next);
      var rest := Segments(cs, next).value;
      assert Segments(cs, i).value[1..] == rest;
      if cs[i].blank {
        assert [] + BlocksOf(lines, cs, rest) == BlocksOf(lines, cs, rest);
      } else {
        BlockShown(lines, i);
        assert ([BlockAt(lines, cs, i)] + BlocksOf(lines, cs, rest))[1..] == BlocksOf(lines, cs, rest);
      }
    }
  }

  lemma {:induction false} SplitHasNoFeed(s: string)
    ensures forall i :: 0 <= i < |SplitLines(s)| ==> '\n' !in SplitLines(s)[i]
  {
    if s != "" { SplitHasNoFeed(s[1..]); }
  }

  /** The text of a code block splits into exactly the lines it was made of. */
  lemma CodeIsVerbatim(markdown: string, i: nat, j: nat)
    requires i <= j <= |LinesOf(markdown)|
    ensures var lines := LinesOf(markdown);
            SplitLines(Join(lines[i..j], "\n")) == if i < j then lines[i..j] else [""]
  {
    var lines := LinesOf(markdown);
    SplitHasNoFeed(ReplaceCrLf(markdown));
    if i < j { SplitJoin(lines[i..j]); } else { SplitOne(""); }
  }

  // ---------- the loops ----------

  datatype Outcome = Finished(blocks: seq<Block>) | Endless(at: nat)

  /** An inner loop: takes lines while the branch continues. */
  method TakeRun(kind: Kind, lines: seq<string>, cs: seq<Class>, i: nat) returns (items: seq<string>, j: nat)
    requires i <= |lines| == |cs|
    ensures j == RunEnd(kind, cs, i) && items == ItemTexts(kind, lines, i, j)
  {
    items, j := [], i;
    while j < |lines| && Continues(kind, cs[j])
      invariant i <= j <= |lines| && RunEnd(kind, cs, i) == RunEnd(kind, cs, j)
      invariant items == ItemTexts(kind, lines, i, j)
    {
      items := items + [ItemText(kind, lines[j])];
      j := j + 1;
    }
  }

  /** One turn of the main loop on a non-blank line. */
  method ParseBlock(lines: seq<string>, cs: seq<Class>, i: nat) returns (block: Block, next: nat)
    requires i < |lines| == |cs|
    ensures block == BlockAt(lines, cs, i) && next == BlockEnd(cs, i)
  {
    var c, trimmed := cs[i], Strip(lines[i]);
    var items;
    if c.fence {
      items, next := TakeRun(Code, lines, cs, i + 1);
      return CodeBlock(Join(items, "\n")), Min(next + 1, |lines|);
    }
    if c.heading {
      return HeadingBlock(Marks(trimmed), Strip(trimmed[TextStart(trimmed)..])), i + 1;
    }
    if c.divider { return DividerBlock, i + 1; }
    if c.bullet {
      items, next := TakeRun(Bullets, lines, cs, i);
      return BulletBlock(items), next;
    }
    if c.numbered {
      items, next := TakeRun(Numbers, lines, cs, i);
      return NumberBlock(items), next;
    }
    if c.quote {
      items, next := TakeRun(Quote, lines, cs, i);
      return QuoteBlock(Join(items, " ")), next;
    }
    items, next := TakeRun(Paragraph, lines, cs, i);
    return ParagraphBlock(Join(items, " ")), next;
  }

  /** The main loop over the lines and the outcomes of their tests. When a turn leaves the
      position where it was, every later turn does the same; the source then runs for
      ever, and this method reports where. */
  method ParseLines(lines: seq<string>, cs: seq<Class>) returns (r: Outcome)
    requires |cs| == |lines| && AllConsistent(cs)
    ensures match r
            case Finished(blocks) => Parse(lines, cs, 0) == Some(blocks)
            case Endless(at) => StuckAt(cs, at) && Parse(lines, cs, 0).None?
  {
    var blocks := [];
    var i := 0;
    assert forall bs: seq<Block> :: [] + bs == bs;
    while i < |lines|
      invariant i <= |lines| && (i < |lines| ==> !Fenced(cs, i))
      invariant Parse(lines, cs, 0) == Prepend(blocks, Parse(lines, cs, i))
      decreases |lines| - i
    {
      if cs[i].blank {
        FenceStretch(cs, i, i + 1);
        assert cs[i].Consistent();
        BlankStep(lines, cs, i);
        i := i + 1;
        continue;
      }
      BlockAdvances(cs, i);
      var block, next := ParseBlock(lines, cs, i);
      if next == i { return Endless(i); }
      PrependTwice(blocks, [block], Parse(lines, cs, next));
      blocks := blocks + [block];
      i := next;
    }
    assert Parse(lines, cs, i) == Some([]) && blocks + [] == blocks;
    r := Finished(blocks);
  }

  lemma BlankStep(lines: seq<string>, cs: seq<Class>, i: nat)
    requires i < |cs| == |lines| && cs[i].blank
    ensures Parse(lines, cs, i) == Parse(lines, cs, i + 1)
  {
    if Segments(cs, i + 1).Some? {
      var rest := Segments(cs, i + 1).value;
      assert Segments(cs, i).value == [Segment(i, i + 1, true)] + rest;
      assert Segments(cs, i).value[1..] == rest && [] + BlocksOf(lines, cs, rest) == BlocksOf(lines, cs, rest);
    }
  }

  method ParseBlocks(markdown: string) returns (r: Outcome)
    ensures var lines, cs := LinesOf(markdown), ClassesOf(LinesOf(markdown));
            match r
            case Finished(blocks) =>
              Parse(lines, cs, 0) == Some(blocks) && Shows(blocks, lines, cs, Segments(cs, 0).value)
            case Endless(at) => StuckAt(cs, at) && Parse(lines, cs, 0).None?
  {
    var lines := LinesOf(markdown);
    r := ParseLines(lines, ClassesOf(lines));
    if r.Finished? { BlocksShown(lines, 0); }
  }
}
