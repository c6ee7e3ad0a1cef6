/** The line tests of the markdown block parser (frontend/src/components/MarkdownContent.tsx).

    Regular expressions are written out as functions of the trimmed line. A heading is
    recognised by two of them, which disagree on a line whose text holds a line
    terminator other than a line feed. */
module MarkdownLines {
  import opened Text

  predicate IsLineTerminator(c: char) { c == '\n' || c == '\r' || c as int == 0x2028 || c as int == 0x2029 }

  /** White space as trim and \s of ECMAScript define it. */
  predicate IsBlank(c: char) { (IsSpace(c) && c as int != 0x85) || c as int == 0xFEFF }

  /** The first index from i on that is not blank. */
  function BlanksEnd(s: string, i: nat): (j: nat)
    requires i <= |s|
    ensures i <= j <= |s|
    decreases |s| - i
  {
    if i < |s| && IsBlank(s[i]) then BlanksEnd(s, i + 1) else i
  }

  /** The end of the text before j once trailing blanks are dropped. */
  function TextEnd(s: string, j: nat): (k: nat)
    requires j <= |s|
    ensures k <= j
  {
    if j > 0 && IsBlank(s[j - 1]) then TextEnd(s, j - 1) else j
  }

  function SkipBlanks(s: string): string { s[BlanksEnd(s, 0)..] }

  /** String.prototype.trim. */
  function Strip(s: string): string { var t := SkipBlanks(s); t[..TextEnd(t, |t|)] }

  predicate IsFence(t: string) { "```" <= t }

  /** The first index from i on that is not a heading mark. */
  function MarksEnd(t: string, i: nat): (j: nat)
    requires i <= |t|
    ensures i <= j <= |t|
    decreases |t| - i
  {
    if i < |t| && t[i] == '#' then MarksEnd(t, i + 1) else i
  }

  function Marks(t: string): (n: nat)
    ensures n <= |t|
  {
    MarksEnd(t, 0)
  }

  /** ^(#{1,6})\s+ */
  predicate StartsHeading(t: string) {
    1 <= Marks(t) <= 6 && Marks(t) < |t| && IsBlank(t[Marks(t)])
  }

  /** Where the text after the marks and the blanks starts. */
  function TextStart(t: string): (j: nat)
    ensures Marks(t) <= j <= |t|
  {
    BlanksEnd(t, Marks(t))
  }

  predicate HasTerminator(t: string, i: nat) {
    exists k :: i <= k < |t| && IsLineTerminator(t[k])
  }

  /** ^(#{1,6})\s+(.+)$, where the dot stops at line terminators. */
  predicate IsHeading(t: string) {
    StartsHeading(t) && TextStart(t) < |t| && !HasTerminator(t, TextStart(t))
  }

  function CountOf(t: string, c: char, n: nat): nat
    requires n <= |t|
  {
    if n == 0 then 0 else CountOf(t, c, n - 1) + if t[n - 1] == c then 1 else 0
  }

  /** ^([-*_])(?:\s*\1){2,}\s*$ */
  predicate IsDivider(t: string) {
    t != "" && t[0] in "-*_" && CountOf(t, t[0], |t|) >= 3 &&
    forall k :: 0 <= k < |t| ==> t[k] == t[0] || IsBlank(t[k])
  }

  /** ^[-*+]\s+ */
  predicate IsBullet(t: string) { |t| >= 2 && t[0] in "-*+" && IsBlank(t[1]) }

  function DigitsEnd(t: string, i: nat): (j: nat)
    requires i <= |t|
    ensures i <= j <= |t|
    decreases |t| - i
  {
    if i < |t| && '0' <= t[i] <= '9' then DigitsEnd(t, i + 1) else i
  }

  /** ^\d+[.)]\s+ */
  predicate IsNumbered(t: string) {
    var n := DigitsEnd(t, 0);
    n >= 1 && n + 1 < |t| && t[n] in ".)" && IsBlank(t[n + 1])
  }

  /** ^>\s? */
  predicate IsQuote(t: string) { t != "" && t[0] == '>' }

  // ---------- the two heading expressions ----------

  lemma {:induction false} BlanksRun(s: string, i: nat)
    requires i <= |s|
    ensures forall k :: i <= k < BlanksEnd(s, i) ==> IsBlank(s[k])
    ensures BlanksEnd(s, i) < |s| ==> !IsBlank(s[BlanksEnd(s, i)])
    decreases |s| - i
  {
    if i < |s| && IsBlank(s[i]) { BlanksRun(s, i + 1); }
  }

  lemma {:induction false} MarksRun(t: string, i: nat)
    requires i <= |t|
    ensures forall k :: i <= k < MarksEnd(t, i) ==> t[k] == '#'
    ensures MarksEnd(t, i) < |t| ==> t[MarksEnd(t, i)] != '#'
    decreases |t| - i
  {
    if i < |t| && t[i] == '#' { MarksRun(t, i + 1); }
  }

  /** h marks, then blanks up to j, then text without a line terminator. */
  predicate HeadingSplit(t: string, h: nat, j: nat) {
    && 1 <= h <= 6 && h < j < |t|
    && (forall k :: 0 <= k < h ==> t[k] == '#')
    && (forall k :: h <= k < j ==> IsBlank(t[k]))
    && !HasTerminator(t, j)
  }

  /** On a trimmed line the heading expression matches, for some split into marks, blanks and
      text, exactly when the line is a heading here. */
  lemma HeadingRegexIff(t: string)
    requires t != "" && !IsBlank(t[|t| - 1])
    ensures IsHeading(t) <==> exists h, j :: HeadingSplit(t, h, j)
  {
    MarksRun(t, 0);
    BlanksRun(t, Marks(t));
    if IsHeading(t) { assert HeadingSplit(t, Marks(t), TextStart(t)); }
    if h: nat, j: nat :| HeadingSplit(t, h, j) {
      assert IsBlank(t[h]) && t[h] != '#';
      assert Marks(t) == h && TextStart(t) >= j;
    }
  }

  // ---------- the outcome of all tests on a line ----------

  datatype Class = Class(blank: bool, fence: bool, startsHeading: bool, heading: bool, divider: bool,
                         bullet: bool, numbered: bool, quote: bool)
  {
    /** isBlockStart */
    predicate BlockStart() { fence || startsHeading || divider || bullet || numbered || quote }

    /** The heading test holds but no branch builds a heading. */
    predicate Stuck() { startsHeading && !heading }

    predicate Consistent() {
      && (blank ==> !BlockStart() && !heading)
      && (heading ==> startsHeading)
      && (startsHeading || fence ==> !divider && !bullet && !numbered && !quote)
      && (startsHeading ==> !fence)
    }
  }

  function Classify(line: string): Class {
    var t := Strip(line);
    Class(t == "", IsFence(t), StartsHeading(t), IsHeading(t), IsDivider(t), IsBullet(t), IsNumbered(t), IsQuote(t))
  }

  /** No line that starts a heading or a fence passes another branch's test. */
  lemma ClassesConsistent(line: string)
    ensures Classify(line).Consistent()
  {
    var t := Strip(line);
    if StartsHeading(t) { assert t[0] == '#'; }
  }

  lemma {:induction false} TextEndRun(s: string, j: nat)
    requires j <= |s|
    ensures TextEnd(s, j) > 0 ==> !IsBlank(s[TextEnd(s, j) - 1])
  {
    if j > 0 && IsBlank(s[j - 1]) { TextEndRun(s, j - 1); }
  }

  /** A trimmed line does not end in a blank. */
  lemma StripEnds(line: string)
    ensures Strip(line) == "" || !IsBlank(Strip(line)[|Strip(line)| - 1])
  {
    TextEndRun(SkipBlanks(line), |SkipBlanks(line)|);
  }

  /** The tests disagree exactly when the text of a heading holds a line terminator. */
  lemma StuckIff(line: string)
    ensures var t := Strip(line);
            Classify(line).Stuck() <==> StartsHeading(t) && HasTerminator(t, TextStart(t))
  {
    var t := Strip(line);
    StripEnds(line);
    if StartsHeading(t) { BlanksRun(t, Marks(t)); }
  }

  /** A heading with a carriage return in its text. */
  lemma CarriageReturnSticks()
    ensures Classify("# a\rb").Stuck()
  {
    var line := "# a\rb";
    assert BlanksEnd(line, 0) == 0 && TextEnd(line, 5) == 5;
    assert line[0..] == line && line[..5] == line;
    assert Strip(line) == line;
    assert MarksEnd(line, 1) == 1 && Marks(line) == 1;
    assert BlanksEnd(line, 2) == 2 && TextStart(line) == 2;
    assert IsLineTerminator(line[3]);
    StuckIff(line);
  }
}
