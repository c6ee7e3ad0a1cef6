/** The text that the block parser keeps of a line, described without the functions that cut it out
    (frontend/src/components/MarkdownContent.tsx). */
module MarkdownText {
  import opened Common
  import opened MarkdownLines

  predicate AllBlank(s: string) { forall i :: 0 <= i < |s| ==> IsBlank(s[i]) }

  /** No blank at either end. */
  predicate Tight(s: string) { s != "" ==> !IsBlank(s[0]) && !IsBlank(s[|s| - 1]) }

  /** The line is blanks, t and blanks. */
  ghost predicate TrimOf(line: string, t: string) {
    Tight(t) && exists before, after :: AllBlank(before) && AllBlank(after) && line == before + t + after
  }

  /** The text is a mark, at least one blank, and the item. */
  ghost predicate Marked(t: string, mark: string, item: string) {
    Tight(item) && item != "" && exists gap :: gap != "" && AllBlank(gap) && t == mark + gap + item
  }

  function Hashes(level: nat): string { if level == 0 then "" else ['#'] + Hashes(level - 1) }

  ghost predicate HeadingLine(t: string, level: nat, text: string) { 1 <= level <= 6 && Marked(t, Hashes(level), text) }

  ghost predicate BulletLine(t: string, item: string) { exists c: char :: c in "-*+" && Marked(t, [c], item) }

  predicate Number(mark: string) {
    |mark| >= 2 && mark[|mark| - 1] in ".)" && forall i :: 0 <= i < |mark| - 1 ==> '0' <= mark[i] <= '9'
  }

  ghost predicate NumberLine(t: string, item: string) { exists mark :: Number(mark) && Marked(t, mark, item) }

  ghost predicate QuoteLine(t: string, item: string) {
    Tight(item) && exists gap :: AllBlank(gap) && t == ">" + gap + item
  }

  // ---------- trimming ----------

  lemma {:induction false} TextEndIs(s: string, j: nat)
    requires j <= |s|
    ensures forall k :: TextEnd(s, j) <= k < j ==> IsBlank(s[k])
    ensures TextEnd(s, j) > 0 ==> !IsBlank(s[TextEnd(s, j) - 1])
  {
    if j > 0 && IsBlank(s[j - 1]) { TextEndIs(s, j - 1); }
  }

  lemma {:induction false} TextEndFrom(s: string, j: nat, k: nat)
    requires k <= j <= |s| && (k > 0 ==> !IsBlank(s[k - 1])) && forall i :: k <= i < j ==> IsBlank(s[i])
    ensures TextEnd(s, j) == k
  {
    if k < j { TextEndFrom(s, j - 1, k); }
  }

  lemma {:induction false} BlanksEndFrom(s: string, i: nat, k: nat)
    requires i <= k <= |s| && (k < |s| ==> !IsBlank(s[k])) && forall j :: i <= j < k ==> IsBlank(s[j])
    ensures BlanksEnd(s, i) == k
    decreases k - i
  {
    if i < k { BlanksEndFrom(s, i + 1, k); }
  }

  /** Trimming leaves what lies between the blanks. */
  lemma StripIsTrim(line: string)
    ensures TrimOf(line, Strip(line))
  {
    var n := BlanksEnd(line, 0);
    var rest := line[n..];
    var k := TextEnd(rest, |rest|);
    BlanksRun(line, 0);
    TextEndIs(rest, |rest|);
    StripIsTight(line);
    assert AllBlank(line[..n]);
    assert AllBlank(rest[k..]);
    assert Strip(line) == rest[..k];
  }

  lemma StripIsTight(line: string)
    ensures Tight(Strip(line))
  {
    var n := BlanksEnd(line, 0);
    var rest := line[n..];
    BlanksRun(line, 0);
    TextEndIs(rest, |rest|);
    if Strip(line) != "" { assert Strip(line)[0] == rest[0] == line[n]; }
  }

  /** And nothing else does. */
  lemma TrimIsUnique(line: string, t: string)
    requires TrimOf(line, t)
    ensures t == Strip(line)
  {
    var before, after :| AllBlank(before) && AllBlank(after) && line == before + t + after;
    if t == "" {
      assert forall i :: 0 <= i < |line| ==> IsBlank(line[i]);
      BlanksEndFrom(line, 0, |line|);
    } else {
      assert line[|before|] == t[0] && forall i :: 0 <= i < |before| ==> line[i] == before[i];
      BlanksEndFrom(line, 0, |before|);
      var rest := line[|before|..];
      assert rest == t + after;
      assert forall i :: |t| <= i < |rest| ==> rest[i] == after[i - |t|];
      TextEndFrom(rest, |rest|, |t|);
    }
  }

  // ---------- marks ----------

  /** The text after n characters and the blanks that follow them. */
  function AfterMark(t: string, n: nat): string {
    if n <= |t| then Strip(SkipBlanks(t[n..])) else ""
  }

  function QuoteText(t: string): string {
    if |t| >= 2 && IsBlank(t[1]) then Strip(t[2..]) else if t == "" then "" else Strip(t[1..])
  }

  lemma AfterMarkIs(t: string, n: nat)
    requires n < |t| && Tight(t) && IsBlank(t[n])
    ensures Marked(t, t[..n], AfterMark(t, n))
  {
    var rest := t[n..];
    var k := BlanksEnd(rest, 0);
    BlanksRun(rest, 0);
    assert rest[0] == t[n];
    assert !IsBlank(rest[|rest| - 1]) by { assert rest[|rest| - 1] == t[|t| - 1]; }
    assert 0 < k < |rest|;
    var item := rest[k..];
    assert Tight(item) by { assert item[0] == rest[k] && item[|item| - 1] == rest[|rest| - 1]; }
    assert AllBlank(rest[..k]) && rest[..k] != "";
    assert t == t[..n] + rest[..k] + item;
  }

  lemma {:induction false} HashesAre(t: string, n: nat)
    requires n <= |t| && forall k :: 0 <= k < n ==> t[k] == '#'
    ensures t[..n] == Hashes(n)
  {
    if n > 0 {
      HashesAre(t[1..], n - 1);
      assert t[..n] == [t[0]] + t[1..][..n - 1];
    }
  }

  lemma HeadingTail(t: string)
    requires Tight(t) && IsHeading(t)
    ensures var text := t[TextStart(t)..];
            text != "" && Tight(text) && Strip(text) == text
    ensures var gap := t[Marks(t)..TextStart(t)];
            gap != "" && AllBlank(gap)
  {
    var text := t[TextStart(t)..];
    BlanksRun(t, Marks(t));
    assert text[0] == t[TextStart(t)] && text[|text| - 1] == t[|t| - 1];
  }

  lemma HeadingText(t: string)
    requires Tight(t) && IsHeading(t)
    ensures HeadingLine(t, Marks(t), t[TextStart(t)..]) && Strip(t[TextStart(t)..]) == t[TextStart(t)..]
  {
    HeadingTail(t);
    MarksRun(t, 0);
    HashesAre(t, Marks(t));
  }

  lemma BulletText(t: string)
    requires Tight(t) && IsBullet(t)
    ensures BulletLine(t, AfterMark(t, 1))
  {
    AfterMarkIs(t, 1);
    assert t[..1] == [t[0]];
  }

  lemma {:induction false} DigitsRun(t: string, i: nat)
    requires i <= |t|
    ensures forall k :: i <= k < DigitsEnd(t, i) ==> '0' <= t[k] <= '9'
    decreases |t| - i
  {
    if i < |t| && '0' <= t[i] <= '9' { DigitsRun(t, i + 1); }
  }

  lemma NumberMark(t: string)
    requires IsNumbered(t)
    ensures Number(t[..DigitsEnd(t, 0) + 1])
  {
    DigitsRun(t, 0);
  }

  lemma NumberText(t: string)
    requires Tight(t) && IsNumbered(t)
    ensures NumberLine(t, AfterMark(t, DigitsEnd(t, 0) + 1))
  {
    var mark := t[..DigitsEnd(t, 0) + 1];
    NumberMark(t);
    AfterMarkIs(t, DigitsEnd(t, 0) + 1);
    assert Number(mark) && Marked(t, mark, AfterMark(t, DigitsEnd(t, 0) + 1));
  }

  /** What follows some blanks in a text that does not end in one. */
  lemma TailOfTight(rest: string) returns (before: string)
    requires rest != "" && !IsBlank(rest[|rest| - 1])
    ensures AllBlank(before) && rest == before + Strip(rest) && Tight(Strip(rest))
  {
    StripIsTrim(rest);
    var after;
    before, after :| AllBlank(before) && AllBlank(after) && rest == before + Strip(rest) + after;
    assert before + Strip(rest) + "" == before + Strip(rest);
  }

  lemma QuoteTextIs(t: string)
    requires Tight(t) && IsQuote(t)
    ensures QuoteLine(t, QuoteText(t))
  {
    if |t| == 1 {
      assert t[1..] == "" && t == ">" + "" + "" && AllBlank("");
    } else {
      var from := if IsBlank(t[1]) then 2 else 1;
      assert from < |t|;
      var rest := t[from..];
      assert rest[|rest| - 1] == t[|t| - 1];
      var before := TailOfTight(rest);
      QuoteGap(t, from, before, Strip(rest));
    }
  }

  lemma QuoteGap(t: string, from: nat, before: string, item: string)
    requires 1 <= from < |t| && t[0] == '>' && AllBlank(t[1..from]) && AllBlank(before) && t[from..] == before + item
    requires Tight(item)
    ensures QuoteLine(t, item)
  {
    var gap := t[1..from] + before;
    assert AllBlank(gap);
    assert t == t[..1] + t[1..from] + t[from..] && t[..1] == ">";
    assert t == ">" + gap + item;
  }

  // ---------- the tests by the shape of the line ----------

  /** A trimmed line is a list item, a numbered one or a quote exactly when it has that shape. */
  lemma BulletIff(t: string)
    requires Tight(t)
    ensures IsBullet(t) <==> exists item :: BulletLine(t, item)
  {
    if IsBullet(t) { BulletText(t); }
    if item :| BulletLine(t, item) {
      var c: char :| c in "-*+" && Marked(t, [c], item);
      var gap :| gap != "" && AllBlank(gap) && t == [c] + gap + item;
      assert t[1] == gap[0];
    }
  }

  lemma {:induction false} DigitsEndFrom(t: string, i: nat, k: nat)
    requires i <= k < |t| && !('0' <= t[k] <= '9') && forall j :: i <= j < k ==> '0' <= t[j] <= '9'
    ensures DigitsEnd(t, i) == k
    decreases k - i
  {
    if i < k { DigitsEndFrom(t, i + 1, k); }
  }

  lemma NumberIff(t: string)
    requires Tight(t)
    ensures IsNumbered(t) <==> exists item :: NumberLine(t, item)
  {
    if IsNumbered(t) { NumberText(t); }
    if item :| NumberLine(t, item) {
      var mark :| Number(mark) && Marked(t, mark, item);
      var gap :| gap != "" && AllBlank(gap) && t == mark + gap + item;
      var k := |mark| - 1;
      assert t[k] == mark[k] && t[k + 1] == gap[0];
      assert forall j :: 0 <= j < k ==> t[j] == mark[j];
      DigitsEndFrom(t, 0, k);
    }
  }

  lemma QuoteIff(t: string)
    requires Tight(t)
    ensures IsQuote(t) <==> exists item :: QuoteLine(t, item)
  {
    if IsQuote(t) { QuoteTextIs(t); }
  }

  lemma {:induction false} MarksFrom(t: string, i: nat, k: nat)
    requires i <= k <= |t| && (k < |t| ==> t[k] != '#') && forall j :: i <= j < k ==> t[j] == '#'
    ensures MarksEnd(t, i) == k
    decreases k - i
  {
    if i < k { MarksFrom(t, i + 1, k); }
  }

  lemma {:induction false} HashesChars(level: nat)
    ensures |Hashes(level)| == level && forall k :: 0 <= k < level ==> Hashes(level)[k] == '#'
  {
    if level > 0 { HashesChars(level - 1); }
  }

  lemma ShapeOfHeading(t: string, level: nat, gap: string, text: string)
    requires 1 <= level <= 6 && gap != "" && AllBlank(gap) && text != "" && Tight(text)
    requires t == Hashes(level) + gap + text
    ensures Marks(t) == level && TextStart(t) == level + |gap| && t[TextStart(t)..] == text && StartsHeading(t)
  {
    HashesChars(level);
    assert forall k :: 0 <= k < level ==> t[k] == Hashes(level)[k];
    assert forall k :: level <= k < level + |gap| ==> t[k] == gap[k - level];
    assert t[level + |gap|] == text[0] && t[level] == gap[0];
    MarksFrom(t, 0, level);
    BlanksEndFrom(t, level, level + |gap|);
  }

  lemma ShapeIsHeading(t: string, level: nat, text: string)
    requires HeadingLine(t, level, text) && !HasTerminator(text, 0)
    ensures IsHeading(t)
  {
    var gap :| gap != "" && AllBlank(gap) && t == Hashes(level) + gap + text;
    ShapeOfHeading(t, level, gap, text);
    assert forall k :: TextStart(t) <= k < |t| ==> t[k] == t[TextStart(t)..][k - TextStart(t)];
  }

  /** It is a heading exactly when it is one to six marks, blanks, and text without a line terminator. */
  lemma HeadingIff(t: string)
    requires Tight(t)
    ensures IsHeading(t) <==> exists level, text :: HeadingLine(t, level, text) && !HasTerminator(text, 0)
  {
    if IsHeading(t) {
      HeadingText(t);
    }
    if level: nat, text :| HeadingLine(t, level, text) && !HasTerminator(text, 0) { ShapeIsHeading(t, level, text); }
  }

  /** It starts a heading exactly when it is one to six marks and a blank, whatever follows. */
  lemma StartsHeadingIff(t: string)
    ensures StartsHeading(t) <==>
            exists level: nat :: 1 <= level <= 6 && level < |t| && t[..level] == Hashes(level) && IsBlank(t[level])
  {
    if StartsHeading(t) {
      MarksRun(t, 0);
      HashesAre(t, Marks(t));
    }
    if level: nat :| 1 <= level <= 6 && level < |t| && t[..level] == Hashes(level) && IsBlank(t[level]) {
      HashesChars(level);
      assert forall k :: 0 <= k < level ==> t[k] == t[..level][k];
      MarksFrom(t, 0, level);
    }
  }

  /** It is a divider exactly when it holds at least three of one of the three marks, and otherwise blanks. */
  lemma DividerIff(t: string)
    requires Tight(t)
    ensures IsDivider(t) <==> exists c: char :: c in "-*_" && |Positions(t, c)| >= 3 &&
                                                forall k :: 0 <= k < |t| && k !in Positions(t, c) ==> IsBlank(t[k])
  {
    if IsDivider(t) { CountIsPositions(t, t[0], |t|); }
    if c: char :| c in "-*_" && |Positions(t, c)| >= 3 &&
                  forall k :: 0 <= k < |t| && k !in Positions(t, c) ==> IsBlank(t[k])
    {
      CountIsPositions(t, c, |t|);
    }
  }

  function Positions(t: string, c: char): set<nat> { set k: nat | k < |t| && t[k] == c }

  lemma {:induction false} CountIsPositions(t: string, c: char, n: nat)
    requires n <= |t|
    ensures CountOf(t, c, n) == |Positions(t[..n], c)|
    ensures n == |t| ==> CountOf(t, c, n) == |Positions(t, c)|
  {
    if n == 0 {
      assert Positions(t[..0], c) == {};
    } else {
      CountIsPositions(t, c, n - 1);
      assert Positions(t[..n], c) == Positions(t[..n - 1], c) + if t[n - 1] == c then {n - 1} else {};
    }
    if n == |t| { assert t[..n] == t; }
  }

  /** The outcome of every test on a line, by the shape of the line without its outer blanks. */
  lemma ClassIs(line: string, t: string)
    requires TrimOf(line, t)
    ensures var c := Classify(line);
            && (c.blank <==> t == "")
            && (c.fence <==> "```" <= t)
            && (c.startsHeading <==> exists level: nat ::
                  1 <= level <= 6 && level < |t| && t[..level] == Hashes(level) && IsBlank(t[level]))
            && (c.heading <==> exists level, text :: HeadingLine(t, level, text) && !HasTerminator(text, 0))
            && (c.bullet <==> exists item :: BulletLine(t, item))
            && (c.numbered <==> exists item :: NumberLine(t, item))
            && (c.quote <==> exists item :: QuoteLine(t, item))
            && (c.divider <==> exists m: char :: m in "-*_" && |Positions(t, m)| >= 3 &&
                                  forall k :: 0 <= k < |t| && k !in Positions(t, m) ==> IsBlank(t[k]))
  {
    TrimIsUnique(line, t);
    HeadingIff(t);
    StartsHeadingIff(t);
    BulletIff(t);
    NumberIff(t);
    QuoteIff(t);
    DividerIff(t);
  }
}
