/** From the markup stripper to the block parser: a rewrite passes through stripHTMLMarkup
    (backend/services/llm_rewriter.go) before the article view parses it
    (frontend/src/pages/ArticleDetailPage.tsx). */
module RewrittenMarkdown {
  import opened Text
  import opened MarkdownLines
  import opened MarkdownBlocks
  import Cleaner = TextCleaner
  import Stripper = MarkupStripper

  /** No white space other than the space. */
  predicate Harmless(c: char) { c == ' ' || !IsSpace(c) }

  /** A line without white space other than the space never stops the parser. */
  lemma HarmlessLineAdvances(line: string)
    requires forall c :: c in line ==> Harmless(c)
    ensures !Classify(line).Stuck()
  {
    StuckIff(line);
    var t := Strip(line);
    forall k | 0 <= k < |t|
      ensures !IsLineTerminator(t[k])
    {
      assert t[k] in t && Harmless(t[k]);
    }
  }

  /** The lines of clean text are the lines it was made of. */
  lemma LinesOfClean(lines: seq<string>)
    requires Cleaner.Clean(lines)
    ensures LinesOf(Join(lines, "\n")) == if lines == [] then [""] else lines
  {
    Cleaner.TidyCharacters(lines);
    Cleaner.NothingReplaced(Join(lines, "\n"));
    if lines == [] {
      SplitOne("");
    } else {
      forall i | 0 <= i < |lines| ensures '\n' !in lines[i] { Cleaner.LineCharacters(lines[i]); }
      SplitJoin(lines);
    }
  }

  /** Normalised text never keeps the block parser from ending. */
  lemma NormalTextTerminates(value: string)
    ensures Segments(ClassesOf(LinesOf(Cleaner.Normal(value))), 0).Some?
  {
    var kept := Cleaner.CleanLines(value);
    Cleaner.OutputIsClean(value);
    LinesOfClean(kept);
    var lines := LinesOf(Cleaner.Normal(value));
    forall k | 0 <= k < |lines|
      ensures !StuckAt(ClassesOf(lines), k)
    {
      if kept != [] { Cleaner.LineCharacters(kept[k]); }
      HarmlessLineAdvances(lines[k]);
    }
    TerminatesIff(lines);
  }

  /** So a rewrite can always be shown, whatever tokens the model's answer held; only text that
      was not stripped, such as the original article, can meet the endless loop. */
  lemma RewritesTerminate(tokens: seq<Stripper.Token>)
    ensures Segments(ClassesOf(LinesOf(Stripper.Stripped(tokens))), 0).Some?
  {
    NormalTextTerminates(Stripper.Run(Stripper.State(0, ""), tokens).output);
  }
}
