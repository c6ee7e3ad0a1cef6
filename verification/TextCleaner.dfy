/** Plain text from markup (backend/services/text_cleaner.go): the normaliser, and the loop
    over the tokens of an HTML document. */
module TextCleaner {
  import opened Common
  import opened Text

  // ---------- fields ----------

  function WordLength(s: string): (n: nat)
    ensures n <= |s|
  {
    if s == "" || IsSpace(s[0]) then 0 else 1 + WordLength(s[1..])
  }

  /** The maximal runs of characters that are not white space. */
  function Fields(s: string): seq<string>
    decreases |s|
  {
    if s == "" then []
    else if IsSpace(s[0]) then Fields(s[1..])
    else [s[..WordLength(s)]] + Fields(s[WordLength(s)..])
  }

  predicate IsWord(w: string) { w != "" && forall c :: c in w ==> !IsSpace(c) }

  predicate AllWords(words: seq<string>) { forall i :: 0 <= i < |words| ==> IsWord(words[i]) }

  lemma {:induction false} WordStops(a: string, c: char, b: string)
    requires IsSpace(c)
    ensures WordLength(a + [c] + b) == WordLength(a)
    ensures a != "" && !IsSpace(a[0]) ==> IsWord(a[..WordLength(a)])
  {
    var s := a + [c] + b;
    if a != "" && !IsSpace(a[0]) {
      assert s[1..] == a[1..] + [c] + b;
      WordStops(a[1..], c, b);
      var w := a[..WordLength(a)];
      assert w == [a[0]] + a[1..][..WordLength(a[1..])];
      if a[1..] != "" && IsSpace(a[1]) { assert w == [a[0]]; }
      if a[1..] == "" { assert w == [a[0]]; }
    }
  }

  lemma {:induction false} FieldsAreWords(s: string)
    ensures AllWords(Fields(s))
    decreases |s|
  {
    if s != "" {
      if IsSpace(s[0]) {
        FieldsAreWords(s[1..]);
      } else {
        WordStops(s, ' ', "");
        FieldsAreWords(s[WordLength(s)..]);
      }
    }
  }

  /** Text on the two sides of a white-space character is cut independently. */
  lemma {:induction false} FieldsSplit(a: string, c: char, b: string)
    requires IsSpace(c)
    ensures Fields(a + [c] + b) == Fields(a) + Fields(b)
    decreases |a|
  {
    var s := a + [c] + b;
    if a == "" {
      assert s[1..] == b;
    } else if IsSpace(a[0]) {
      DropFront(a, 1, c, b);
      FieldsSplit(a[1..], c, b);
    } else {
      var n := WordLength(a);
      WordStops(a, c, b);
      DropFront(a, n, c, b);
      FieldsSplit(a[n..], c, b);
      assert Fields(s) == [a[..n]] + (Fields(a[n..]) + Fields(b));
    }
  }

  lemma DropFront(a: string, n: nat, c: char, b: string)
    requires n <= |a|
    ensures (a + [c] + b)[n..] == a[n..] + [c] + b && (a + [c] + b)[..n] == a[..n]
  {
  }

  lemma {:induction false} FieldsOfWord(w: string)
    requires IsWord(w)
    ensures WordLength(w) == |w| && Fields(w) == [w]
  {
    if |w| > 1 {
      assert forall c :: c in w[1..] ==> c in w;
      FieldsOfWord(w[1..]);
    }
    assert w[0] in w && w[..|w|] == w && Fields(w[|w|..]) == [];
  }

  /** The fields of the parts, in order. */
  function FieldsOfAll(parts: seq<string>): seq<string> {
    if parts == [] then [] else Fields(parts[0]) + FieldsOfAll(parts[1..])
  }

  lemma {:induction false} FieldsOfJoin(parts: seq<string>, separator: char)
    requires IsSpace(separator)
    ensures Fields(Join(parts, [separator])) == FieldsOfAll(parts)
  {
    if |parts| == 1 {
      assert FieldsOfAll(parts[1..]) == [];
    } else if |parts| > 1 {
      FieldsSplit(parts[0], separator, Join(parts[1..], [separator]));
      FieldsOfJoin(parts[1..], separator);
    }
  }

  lemma {:induction false} FieldsOfWords(words: seq<string>)
    requires AllWords(words)
    ensures FieldsOfAll(words) == words
  {
    if words != [] {
      FieldsOfWord(words[0]);
      FieldsOfWords(words[1..]);
    }
  }

  /** The words of a line joined by one space. */
  function Squeeze(line: string): string { Join(Fields(line), " ") }

  lemma SqueezeKeepsFields(line: string)
    ensures Fields(Squeeze(line)) == Fields(line)
    ensures Squeeze(Squeeze(line)) == Squeeze(line)
  {
    FieldsAreWords(line);
    FieldsOfJoin(Fields(line), ' ');
    FieldsOfWords(Fields(line));
  }

  /** Words joined by spaces start and end inside a word, and hold no other white space. */
  lemma {:induction false} JoinedWords(words: seq<string>)
    requires AllWords(words)
    ensures forall c :: c in Join(words, " ") ==> c == ' ' || !IsSpace(c)
    ensures words != [] ==> Solid(Join(words, " "))
  {
    if |words| == 1 {
      assert IsWord(words[0]);
    } else if |words| > 1 {
      JoinedWords(words[1..]);
      assert IsWord(words[0]);
    }
  }

  /** Not empty, and no white space at either end. */
  predicate Solid(s: string) { s != "" && !IsSpace(s[0]) && !IsSpace(s[|s| - 1]) }

  // ---------- the normaliser ----------

  function Spaced(s: string): string
  {
    if s == "" then "" else [if s[0] == '\U{A0}' then ' ' else s[0]] + Spaced(s[1..])
  }

  /** The lines kept: each squeezed, and a blank one only after a line that is not blank. */
  function Kept(lines: seq<string>, previousBlank: bool): seq<string> {
    if lines == [] then []
    else
      var line := Squeeze(lines[0]);
      if line == "" && previousBlank then Kept(lines[1..], true)
      else [line] + Kept(lines[1..], line == "")
  }

  function Normal(value: string): string {
    Trim(Join(Kept(SplitLines(ReplaceCrLf(Spaced(value))), true), "\n"))
  }

  method NormalizeHTMLText(value: string) returns (r: string)
    ensures r == Normal(value)
  {
    var spaced := Spaced(value);
    var lines := SplitLines(ReplaceCrLf(spaced));
    var cleaned: seq<string> := [];
    var previousBlank := true;
    for i := 0 to |lines|
      invariant cleaned + Kept(lines[i..], previousBlank) == Kept(lines, true)
    {
      var line := Squeeze(lines[i]);
      if line == "" {
        if !previousBlank {
          cleaned := cleaned + [""];
          previousBlank := true;
        }
        continue;
      }
      cleaned := cleaned + [line];
      previousBlank := false;
    }
    assert Kept(lines[|lines|..], previousBlank) == [] && cleaned + [] == cleaned;
    r := Trim(Join(cleaned, "\n"));
  }

  // ---------- the normal form ----------

  /** Squeezed lines, no blank one first or after another blank one. */
  predicate Tidy(lines: seq<string>, previousBlank: bool) {
    && (forall i :: 0 <= i < |lines| ==> Squeeze(lines[i]) == lines[i])
    && (forall i :: 0 < i < |lines| ==> lines[i - 1] != "" || lines[i] != "")
    && (lines != [] && previousBlank ==> lines[0] != "")
  }

  /** Tidy, and the last line is not blank either. */
  predicate Clean(lines: seq<string>) {
    Tidy(lines, true) && (lines != [] ==> lines[|lines| - 1] != "")
  }

  lemma {:induction false} KeptIsTidy(lines: seq<string>, previousBlank: bool)
    ensures Tidy(Kept(lines, previousBlank), previousBlank)
  {
    if lines != [] {
      SqueezeKeepsFields(lines[0]);
      KeptIsTidy(lines[1..], Squeeze(lines[0]) == "");
    }
  }

  lemma {:induction false} TidyIsKept(lines: seq<string>, previousBlank: bool)
    requires Tidy(lines, previousBlank)
    ensures Kept(lines, previousBlank) == lines
  {
    if lines != [] {
      assert forall i :: 0 <= i < |lines| - 1 ==> lines[1..][i] == lines[i + 1];
      assert Squeeze(lines[0]) == lines[0];
      TidyIsKept(lines[1..], lines[0] == "");
    }
  }

  lemma LineCharacters(line: string)
    requires Squeeze(line) == line
    ensures forall c :: c in line ==> c == ' ' || !IsSpace(c)
    ensures line != "" ==> Solid(line)
  {
    FieldsAreWords(line);
    JoinedWords(Fields(line));
  }

  /** In text made of tidy lines the only white space is the space and the line feed. */
  lemma {:induction false} TidyCharacters(lines: seq<string>)
    requires forall i :: 0 <= i < |lines| ==> Squeeze(lines[i]) == lines[i]
    ensures forall c :: c in Join(lines, "\n") ==> c == ' ' || c == '\n' || !IsSpace(c)
  {
    if lines != [] {
      LineCharacters(lines[0]);
      TidyCharacters(lines[1..]);
    }
  }

  lemma {:induction false} NothingReplaced(s: string)
    requires forall c :: c in s ==> c == ' ' || c == '\n' || !IsSpace(c)
    ensures Spaced(s) == s && ReplaceCrLf(s) == s
  {
    if s != "" {
      assert s[0] in s && forall c :: c in s[1..] ==> c in s;
      NothingReplaced(s[1..]);
    }
  }

  lemma {:induction false} JoinEnds(lines: seq<string>)
    requires lines != [] && lines[0] != "" && lines[|lines| - 1] != ""
    ensures var j := Join(lines, "\n");
      j != "" && j[0] == lines[0][0] && j[|j| - 1] == lines[|lines| - 1][|lines[|lines| - 1]| - 1]
  {
    var last := lines[|lines| - 1];
    var j := last;
    for i := |lines| - 1 downto 0
      invariant 0 <= i < |lines|
      invariant j == Join(lines[i..], "\n") && |j| >= |last| && j[|j| - 1] == last[|last| - 1]
    {
      assert lines[i..][1..] == lines[i + 1..];
      j := lines[i] + "\n" + j;
    }
    assert lines[0..] == lines;
  }

  lemma SolidIsTrimmed(s: string)
    requires Solid(s)
    ensures Trim(s) == s && Trim(s + "\n") == s
  {
    assert TrimLeft(s + "\n") == s + "\n";
    assert (s + "\n")[..|s|] == s;
  }

  lemma CleanIsSolid(lines: seq<string>)
    requires Clean(lines) && lines != []
    ensures Solid(Join(lines, "\n"))
  {
    JoinEnds(lines);
    LineCharacters(lines[0]);
    LineCharacters(lines[|lines| - 1]);
  }

  /** Clean lines come through unchanged. */
  lemma CleanIsFixed(lines: seq<string>)
    requires Clean(lines)
    ensures Normal(Join(lines, "\n")) == Join(lines, "\n")
  {
    var s := Join(lines, "\n");
    TidyCharacters(lines);
    NothingReplaced(s);
    if lines == [] {
      SplitOne("");
      assert Kept([""], true) == [];
    } else {
      forall i | 0 <= i < |lines| ensures '\n' !in lines[i] { LineCharacters(lines[i]); }
      SplitJoin(lines);
      TidyIsKept(lines, true);
      CleanIsSolid(lines);
      SolidIsTrimmed(s);
    }
  }

  function CleanLines(value: string): seq<string> {
    var kept := Kept(SplitLines(ReplaceCrLf(Spaced(value))), true);
    if kept != [] && kept[|kept| - 1] == "" then kept[..|kept| - 1] else kept
  }

  lemma {:induction false} JoinBlankLast(lines: seq<string>)
    requires lines != []
    ensures Join(lines + [""], "\n") == Join(lines, "\n") + "\n"
  {
    assert (lines + [""])[1..] == lines[1..] + [""];
    if |lines| > 1 {
      JoinBlankLast(lines[1..]);
    } else {
      assert lines[1..] + [""] == [""];
    }
  }

  /** The output is made of clean lines: no blank line at either end, no two in a row, and
      words separated by single spaces. */
  lemma OutputIsClean(value: string)
    ensures Clean(CleanLines(value))
    ensures Normal(value) == Join(CleanLines(value), "\n")
  {
    var kept := Kept(SplitLines(ReplaceCrLf(Spaced(value))), true);
    KeptIsTidy(SplitLines(ReplaceCrLf(Spaced(value))), true);
    var lines := CleanLines(value);
    if lines == kept {
      if lines != [] {
        CleanIsSolid(lines);
        SolidIsTrimmed(Join(lines, "\n"));
      }
    } else {
      assert kept == lines + [""];
      assert lines != [] && lines[|lines| - 1] == kept[|kept| - 2];
      JoinBlankLast(lines);
      CleanIsSolid(lines);
      SolidIsTrimmed(Join(lines, "\n"));
    }
  }

  /** Normalising again changes nothing, and the texts left alone are exactly those made of
      clean lines. */
  lemma NormalIsIdempotent(value: string)
    ensures Normal(Normal(value)) == Normal(value)
    ensures Normal(value) == value <==> exists lines :: Clean(lines) && value == Join(lines, "\n")
  {
    OutputIsClean(value);
    CleanIsFixed(CleanLines(value));
    if lines :| Clean(lines) && value == Join(lines, "\n") { CleanIsFixed(lines); }
  }

  // ---------- no word is lost ----------

  lemma WhichSpace(before: string, c: char, d: char, rest: string)
    requires IsSpace(c) && IsSpace(d)
    ensures Fields(before + [c] + rest) == Fields(before + [d] + rest)
  {
    FieldsSplit(before, c, rest);
    FieldsSplit(before, d, rest);
  }

  lemma HowManySpaces(before: string, rest: string, after: string)
    requires Fields(rest) == Fields(after)
    ensures Fields(before + "\r\n" + rest) == Fields(before + "\n" + after)
  {
    FieldsSplit(before, '\r', "\n" + rest);
    assert before + ['\r'] + ("\n" + rest) == before + "\r\n" + rest;
    FieldsSplit("", '\n', rest);
    assert "" + ['\n'] + rest == "\n" + rest;
    FieldsSplit(before, '\n', after);
  }

  lemma {:induction false} SpacedKeepsFields(before: string, s: string)
    ensures Fields(before + Spaced(s)) == Fields(before + s)
    decreases |s|
  {
    if s != "" {
      var c, rest := Spaced(s)[0], s[1..];
      Regroup(before, [c], Spaced(rest));
      Regroup(before, [s[0]], rest);
      SpacedKeepsFields(before + [c], rest);
      if c != s[0] { WhichSpace(before, c, s[0], rest); }
      assert [s[0]] + rest == s;
    }
  }

  lemma {:induction false} CrLfKeepsFields(before: string, s: string)
    ensures Fields(before + ReplaceCrLf(s)) == Fields(before + s)
    decreases |s|
  {
    if StartsCrLf(s) {
      CrLfKeepsFields("", s[2..]);
      CrLfIsOneSpace(before, s);
    } else if s != "" {
      var rest := s[1..];
      Regroup(before, [s[0]], ReplaceCrLf(rest));
      Regroup(before, [s[0]], rest);
      CrLfKeepsFields(before + [s[0]], rest);
      assert [s[0]] + rest == s;
    }
  }

  lemma CrLfIsOneSpace(before: string, s: string)
    requires StartsCrLf(s) && Fields("" + ReplaceCrLf(s[2..])) == Fields("" + s[2..])
    ensures Fields(before + ReplaceCrLf(s)) == Fields(before + s)
  {
    CrLfShape(before, s);
    HowManySpaces(before, s[2..], ReplaceCrLf(s[2..]));
  }

  lemma CrLfShape(before: string, s: string)
    requires StartsCrLf(s)
    ensures before + ReplaceCrLf(s) == before + "\n" + ReplaceCrLf(s[2..])
    ensures before + s == before + "\r\n" + s[2..]
    ensures "" + s[2..] == s[2..] && "" + ReplaceCrLf(s[2..]) == ReplaceCrLf(s[2..])
  {
    Regroup(before, ['\n'], ReplaceCrLf(s[2..]));
    assert ['\n'] == "\n";
    Cut(before, s);
  }

  lemma Cut(before: string, s: string)
    requires StartsCrLf(s)
    ensures before + s == before + "\r\n" + s[2..]
  {
  }

  lemma {:induction false} JoinSplit(s: string)
    ensures Join(SplitLines(s), "\n") == s
  {
    if s != "" {
      JoinSplit(s[1..]);
      var rest := SplitLines(s[1..]);
      if s[0] == '\n' {
        assert ([""] + rest)[1..] == rest;
      } else {
        assert ([[s[0]] + rest[0]] + rest[1..])[1..] == rest[1..];
      }
    }
  }

  lemma {:induction false} KeptKeepsFields(lines: seq<string>, previousBlank: bool)
    ensures FieldsOfAll(Kept(lines, previousBlank)) == FieldsOfAll(lines)
  {
    if lines != [] {
      var line := Squeeze(lines[0]);
      SqueezeKeepsFields(lines[0]);
      var rest := Kept(lines[1..], line == "");
      KeptKeepsFields(lines[1..], line == "");
      if !(line == "" && previousBlank) { assert ([line] + rest)[1..] == rest; }
    }
  }

  /** The output has the words of the input, in order. */
  lemma NormalKeepsWords(value: string)
    ensures Fields(Normal(value)) == Fields(value)
  {
    var unified := ReplaceCrLf(Spaced(value));
    var lines := SplitLines(unified);
    SpacedKeepsFields("", value);
    CrLfKeepsFields("", Spaced(value));
    assert "" + value == value && "" + Spaced(value) == Spaced(value) && "" + unified == unified;
    JoinSplit(unified);
    FieldsOfJoin(lines, '\n');
    KeptKeepsFields(lines, true);
    var kept := Kept(lines, true);
    FieldsOfJoin(kept, '\n');
    TrimKeepsFields(Join(kept, "\n"));
  }

  lemma TrimKeepsFields(s: string)
    ensures Fields(Trim(s)) == Fields(s)
  {
    TrimLeftKeepsFields(s);
    TrimRightKeepsFields(TrimLeft(s));
  }

  lemma {:induction false} TrimLeftKeepsFields(s: string)
    ensures Fields(TrimLeft(s)) == Fields(s)
  {
    if s != "" && IsSpace(s[0]) { TrimLeftKeepsFields(s[1..]); }
  }

  lemma {:induction false} TrimRightKeepsFields(s: string)
    ensures Fields(TrimRight(s)) == Fields(s)
  {
    if s != "" && IsSpace(s[|s| - 1]) {
      var front := s[..|s| - 1];
      assert s == front + [s[|s| - 1]] + "";
      FieldsSplit(front, s[|s| - 1], "");
      TrimRightKeepsFields(front);
    }
  }

  // ---------- lines and paragraphs are kept ----------

  /** The stretches of lines without a blank one between them, each line squeezed; `open` is the
      stretch so far. */
  function Paragraphs(lines: seq<string>, open: seq<string>): seq<seq<string>> {
    if lines == [] then if open == [] then [] else [open]
    else
      var line := Squeeze(lines[0]);
      if line != "" then Paragraphs(lines[1..], open + [line])
      else (if open == [] then [] else [open]) + Paragraphs(lines[1..], [])
  }

  lemma {:induction false} KeptKeepsParagraphs(lines: seq<string>, previousBlank: bool, open: seq<string>)
    requires previousBlank ==> open == []
    ensures Paragraphs(Kept(lines, previousBlank), open) == Paragraphs(lines, open)
  {
    if lines != [] {
      var line, rest := Squeeze(lines[0]), lines[1..];
      SqueezeKeepsFields(lines[0]);
      if line == "" && previousBlank {
        KeptKeepsParagraphs(rest, true, []);
        assert [] + Paragraphs(rest, []) == Paragraphs(rest, []);
      } else {
        var kept := Kept(rest, line == "");
        KeptKeepsParagraphs(rest, line == "", if line == "" then [] else open + [line]);
        assert ([line] + kept)[1..] == kept;
      }
    }
  }

  lemma {:induction false} LastBlankIsNothing(lines: seq<string>, open: seq<string>)
    ensures Paragraphs(lines + [""], open) == Paragraphs(lines, open)
  {
    if lines == [] {
      assert [] + [""] == [""] && [""][1..] == [];
    } else {
      assert (lines + [""])[0] == lines[0] && (lines + [""])[1..] == lines[1..] + [""];
      LastBlankIsNothing(lines[1..], if Squeeze(lines[0]) != "" then open + [Squeeze(lines[0])] else []);
    }
  }

  /** The same words line by line. */
  predicate SameWords(a: seq<string>, b: seq<string>) {
    |a| == |b| && forall i :: 0 <= i < |a| ==> Fields(a[i]) == Fields(b[i])
  }

  lemma {:induction false} SameParagraphs(a: seq<string>, b: seq<string>, open: seq<string>)
    requires SameWords(a, b)
    ensures Paragraphs(a, open) == Paragraphs(b, open)
  {
    if a != [] {
      assert Squeeze(a[0]) == Squeeze(b[0]);
      SameParagraphs(a[1..], b[1..], if Squeeze(a[0]) != "" then open + [Squeeze(a[0])] else []);
    }
  }

  /** Line by line, what replacing the other spaces changes. */
  lemma {:induction false} SpacedLines(s: string)
    ensures var a, b := SplitLines(Spaced(s)), SplitLines(s);
            |a| == |b| && forall i :: 0 <= i < |a| ==> a[i] == Spaced(b[i])
  {
    if s != "" { SpacedLines(s[1..]); }
  }

  lemma SpacedWords(s: string)
    ensures SameWords(SplitLines(Spaced(s)), SplitLines(s))
  {
    SpacedLines(s);
    forall i | 0 <= i < |SplitLines(s)|
      ensures Fields(SplitLines(Spaced(s))[i]) == Fields(SplitLines(s)[i])
    {
      var line := SplitLines(s)[i];
      SpacedKeepsFields("", line);
      assert "" + line == line && "" + Spaced(line) == Spaced(line);
    }
  }

  lemma CrLfWords(s: string)
    ensures SameWords(SplitLines(ReplaceCrLf(s)), SplitLines(s))
  {
    CrLfLines(s);
    forall i | 0 <= i < |SplitLines(s)|
      ensures Fields(SplitLines(ReplaceCrLf(s))[i]) == Fields(SplitLines(s)[i])
    {
      var a, b := SplitLines(ReplaceCrLf(s))[i], SplitLines(s)[i];
      if a != b {
        FieldsSplit(a, '\r', "");
        assert b == a + ['\r'] + "";
      }
    }
  }

  lemma LinesOfNormal(value: string)
    ensures SplitLines(Normal(value)) == if CleanLines(value) == [] then [""] else CleanLines(value)
  {
    OutputIsClean(value);
    var lines := CleanLines(value);
    if lines == [] {
      SplitOne("");
    } else {
      forall i | 0 <= i < |lines| ensures '\n' !in lines[i] { LineCharacters(lines[i]); }
      SplitJoin(lines);
    }
  }

  /** The output has the lines of the input, squeezed, in the same paragraphs: none is joined to
      another, split or dropped, and a blank line stands between two exactly where one did. */
  lemma ParagraphsAreKept(value: string)
    ensures Paragraphs(SplitLines(Normal(value)), []) == Paragraphs(SplitLines(value), [])
  {
    CleanKeepsParagraphs(value);
    LinesOfNormal(value);
  }

  lemma LinesKeepParagraphs(value: string)
    ensures Paragraphs(SplitLines(ReplaceCrLf(Spaced(value))), []) == Paragraphs(SplitLines(value), [])
  {
    CrLfWords(Spaced(value));
    SpacedWords(value);
    SameParagraphs(SplitLines(ReplaceCrLf(Spaced(value))), SplitLines(value), []);
  }

  lemma CleanKeepsParagraphs(value: string)
    ensures Paragraphs(CleanLines(value), []) == Paragraphs(SplitLines(value), [])
  {
    var lines := SplitLines(ReplaceCrLf(Spaced(value)));
    LinesKeepParagraphs(value);
    KeptKeepsParagraphs(lines, true, []);
    WithoutLastBlank(Kept(lines, true));
  }

  lemma WithoutLastBlank(kept: seq<string>)
    ensures Paragraphs(if kept != [] && kept[|kept| - 1] == "" then kept[..|kept| - 1] else kept, []) ==
            Paragraphs(kept, [])
  {
    if kept != [] && kept[|kept| - 1] == "" {
      LastBlankIsNothing(kept[..|kept| - 1], []);
      assert kept == kept[..|kept| - 1] + [""];
    }
  }
}
