/** The token loop of stripHTMLMarkup (backend/services/text_cleaner.go), over the tokens
    that the HTML tokenizer reports before its error token. */
module MarkupStripper {
  import opened Common
  import opened Text
  import opened TextCleaner

  datatype Token =
    | StartTag(name: string)
    | SelfClosingTag(name: string)
    | EndTag(name: string)
    | TextToken(text: string)
    | OtherToken                       // comments and document types

  const LINE_BREAK_ELEMENTS: set<string> := {
    "address", "article", "aside", "blockquote", "br", "div", "figcaption", "figure", "footer",
    "h1", "h2", "h3", "h4", "h5", "h6", "header", "li", "main", "nav", "p", "section", "tr"
  }

  predicate Opens(t: Token) { t.StartTag? && Lower(t.name) in {"script", "style"} }

  predicate Closes(t: Token) { t.EndTag? && Lower(t.name) in {"script", "style"} }

  predicate Breaks(t: Token) {
    (t.StartTag? || t.SelfClosingTag? || t.EndTag?) && Lower(t.name) in LINE_BREAK_ELEMENTS
  }

  function AppendLineBreak(output: string): string {
    if output == "" || output[|output| - 1] == '\n' then output else output + "\n"
  }

  datatype State = State(skipDepth: nat, output: string)

  function Depth(t: Token, depth: nat): nat {
    if Opens(t) then depth + 1 else if Closes(t) && depth > 0 then depth - 1 else depth
  }

  function Next(s: State, t: Token): State {
    s.(skipDepth := Depth(t, s.skipDepth),
       output := if s.skipDepth > 0 then s.output
                 else if t.TextToken? then s.output + t.text
                 else if Breaks(t) then AppendLineBreak(s.output)
                 else s.output)
  }

  function Run(s: State, tokens: seq<Token>): State
    decreases |tokens|
  {
    if tokens == [] then s else Run(Next(s, tokens[0]), tokens[1..])
  }

  function Stripped(tokens: seq<Token>): string { Normal(Run(State(0, ""), tokens).output) }

  method StripHTMLMarkup(tokens: seq<Token>) returns (r: string)
    ensures r == Stripped(tokens)
  {
    var output := "";
    var skipDepth: nat := 0;
    for i := 0 to |tokens|
      invariant Run(State(skipDepth, output), tokens[i..]) == Run(State(0, ""), tokens)
    {
      var t := tokens[i];
      ghost var next := Next(State(skipDepth, output), t);
      if t.StartTag? || t.EndTag? {
        var tag := Lower(t.name);
        if tag == "script" || tag == "style" {
          if t.StartTag? {
            skipDepth := skipDepth + 1;
          } else if skipDepth > 0 {
            skipDepth := skipDepth - 1;
          }
        } else if skipDepth == 0 && tag in LINE_BREAK_ELEMENTS {
          output := AppendLineBreak(output);
        }
      } else if t.SelfClosingTag? {
        if skipDepth == 0 && Lower(t.name) in LINE_BREAK_ELEMENTS { output := AppendLineBreak(output); }
      } else if t.TextToken? {
        if skipDepth == 0 { output := output + t.text; }
      }
      assert next == State(skipDepth, output);
    }
    r := NormalizeHTMLText(output);
  }

  lemma OpenedAndClosed(s: State, start: Token, end: Token)
    requires Opens(start) && Closes(end)
    ensures Next(s, start).skipDepth > 0 && Next(Next(s, start), end) == s
  {
  }

  // ---------- what a reader is shown ----------

  function ShownHere(t: Token, depth: nat): string {
    if depth > 0 then "" else if t.TextToken? then t.text else if Breaks(t) then "\n" else ""
  }

  /** The text outside script and style, with a line feed at every line-oriented tag. */
  function Shown(tokens: seq<Token>, depth: nat): string {
    if tokens == [] then ""
    else
      var t := tokens[0];
      ShownHere(t, depth) + Shown(tokens[1..], Depth(t, depth))
  }

  /** A line feed more does not matter next to one. */
  lemma SecondBreak(front: string, rest: string)
    ensures Fields(front + ['\n'] + rest) == Fields(front + ['\n']) + Fields(rest)
  {
    FieldsSplit(front, '\n', rest);
    FieldsSplit(front, '\n', "");
    assert front + ['\n'] + "" == front + ['\n'];
  }

  lemma BreakKeepsFields(output: string, rest: string)
    ensures Fields(AppendLineBreak(output) + rest) == Fields(output + ("\n" + rest))
  {
    Regroup(output, "\n", rest);
    FieldsSplit(output, '\n', rest);
    if output == "" {
      assert "" + rest == rest;
    } else if output[|output| - 1] == '\n' {
      assert output == output[..|output| - 1] + ['\n'];
      SecondBreak(output[..|output| - 1], rest);
    }
  }

  lemma {:induction false} RunKeepsFields(s: State, tokens: seq<Token>)
    ensures Fields(Run(s, tokens).output) == Fields(s.output + Shown(tokens, s.skipDepth))
    decreases |tokens|
  {
    if tokens == [] {
      assert s.output + "" == s.output;
    } else {
      RunKeepsFields(Next(s, tokens[0]), tokens[1..]);
      TokenKeepsFields(s, tokens[0], Shown(tokens[1..], Depth(tokens[0], s.skipDepth)));
    }
  }

  lemma TokenKeepsFields(s: State, t: Token, rest: string)
    ensures Fields(Next(s, t).output + rest) == Fields(s.output + (ShownHere(t, s.skipDepth) + rest))
  {
    if s.skipDepth == 0 && t.TextToken? {
      Regroup(s.output, t.text, rest);
    } else if s.skipDepth == 0 && Breaks(t) {
      BreakKeepsFields(s.output, rest);
    } else {
      assert "" + rest == rest;
    }
  }

  /** The result has exactly the words shown, in order: no text outside script and style is
      lost, none inside is kept, and no two words on different lines are joined. */
  lemma StripKeepsShownWords(tokens: seq<Token>)
    ensures Fields(Stripped(tokens)) == Fields(Shown(tokens, 0))
    ensures Normal(Stripped(tokens)) == Stripped(tokens)
  {
    RunKeepsFields(State(0, ""), tokens);
    assert "" + Shown(tokens, 0) == Shown(tokens, 0);
    NormalKeepsWords(Run(State(0, ""), tokens).output);
    NormalIsIdempotent(Run(State(0, ""), tokens).output);
  }

  lemma {:induction false} RunOfConcat(s: State, a: seq<Token>, b: seq<Token>)
    ensures Run(s, a + b) == Run(Run(s, a), b)
    decreases |a|
  {
    if a == [] {
      assert a + b == b;
    } else {
      assert (a + b)[1..] == a[1..] + b;
      RunOfConcat(Next(s, a[0]), a[1..], b);
    }
  }

  /** Every script or style opened in the stretch is closed in it, and no other one is. */
  predicate Balanced(tokens: seq<Token>, open: nat) {
    if tokens == [] then open == 0
    else if Closes(tokens[0]) then open > 0 && Balanced(tokens[1..], open - 1)
    else Balanced(tokens[1..], if Opens(tokens[0]) then open + 1 else open)
  }

  lemma {:induction false} BalancedIsSkipped(s: State, tokens: seq<Token>, open: nat)
    requires Balanced(tokens, open) && s.skipDepth > open
    ensures Run(s, tokens) == s.(skipDepth := s.skipDepth - open)
    decreases |tokens|
  {
    if tokens != [] { BalancedIsSkipped(Next(s, tokens[0]), tokens[1..], Depth(tokens[0], open)); }
  }

  /** A script or style element contributes nothing, whatever it holds and wherever it is. */
  lemma ScriptLeavesNoTrace(before: seq<Token>, start: Token, inner: seq<Token>, end: Token, after: seq<Token>)
    requires start.StartTag? && Lower(start.name) in {"script", "style"}
    requires end.EndTag? && Lower(end.name) in {"script", "style"} && Balanced(inner, 0)
    ensures Stripped(before + [start] + inner + [end] + after) == Stripped(before + after)
  {
    var s := Run(State(0, ""), before);
    RegroupElement(before, start, inner, end, after);
    RunOfConcat(State(0, ""), before, [start] + (inner + ([end] + after)));
    ElementIsSkipped(s, start, inner, end, after);
    RunOfConcat(State(0, ""), before, after);
  }

  lemma RegroupElement<T>(before: seq<T>, start: T, inner: seq<T>, end: T, after: seq<T>)
    ensures before + [start] + inner + [end] + after == before + ([start] + (inner + ([end] + after)))
  {
    Regroup(inner, [end], after);
    Regroup([start], inner, [end] + after);
    Regroup(before, [start], inner + ([end] + after));
    Regroup(before + [start], inner, [end] + after);
    Regroup(before + [start] + inner, [end], after);
  }

  lemma ElementIsSkipped(s: State, start: Token, inner: seq<Token>, end: Token, after: seq<Token>)
    requires Opens(start) && Closes(end) && Balanced(inner, 0)
    ensures Run(s, [start] + (inner + ([end] + after))) == Run(s, after)
  {
    RunOfConcat(Next(s, start), inner, [end] + after);
    BalancedIsSkipped(Next(s, start), inner, 0);
    OpenedAndClosed(s, start, end);
  }

  lemma {:induction false} ShownOfConcat(a: seq<Token>, b: seq<Token>, s: State)
    ensures Shown(a + b, s.skipDepth) == Shown(a, s.skipDepth) + Shown(b, Run(s, a).skipDepth)
    decreases |a|
  {
    if a == [] {
      assert a + b == b && "" + Shown(b, s.skipDepth) == Shown(b, s.skipDepth);
    } else {
      assert (a + b)[1..] == a[1..] + b;
      ShownOfConcat(a[1..], b, Next(s, a[0]));
    }
  }

  /** Text outside script and style is kept: its words join those around it, with no break where there is none. */
  lemma TextIsKept(before: seq<Token>, text: string, after: seq<Token>)
    requires Run(State(0, ""), before).skipDepth == 0
    ensures Fields(Stripped(before + [TextToken(text)] + after)) ==
            Fields(Shown(before, 0) + text + Shown(after, 0))
  {
    StripKeepsShownWords(before + [TextToken(text)] + after);
    Regroup(before, [TextToken(text)], after);
    ShownOfConcat(before, [TextToken(text)] + after, State(0, ""));
    assert ([TextToken(text)] + after)[1..] == after;
    Regroup(Shown(before, 0), text, Shown(after, 0));
  }

  /** Tags that are neither line-oriented nor script or style, and comments, leave no trace. */
  lemma OtherTagsLeaveNoTrace(before: seq<Token>, t: Token, after: seq<Token>)
    requires !t.TextToken?
    requires t.StartTag? || t.EndTag? || t.SelfClosingTag? ==> Lower(t.name) !in LINE_BREAK_ELEMENTS
    requires t.StartTag? || t.EndTag? ==> Lower(t.name) !in {"script", "style"}
    ensures Stripped(before + [t] + after) == Stripped(before + after)
  {
    Regroup(before, [t], after);
    RunOfConcat(State(0, ""), before, [t] + after);
    RunOfConcat(State(0, ""), before, after);
  }

  /** A line-oriented tag outside script and style keeps the text on its two sides apart:
      the words are those of the two sides cleaned separately. */
  lemma ParagraphsStayApart(before: seq<Token>, t: Token, after: seq<Token>)
    requires Run(State(0, ""), before).skipDepth == 0
    requires (t.StartTag? || t.SelfClosingTag? || t.EndTag?) && Lower(t.name) in LINE_BREAK_ELEMENTS
    ensures Fields(Stripped(before + [t] + after)) == Fields(Stripped(before)) + Fields(Stripped(after))
  {
    StripKeepsShownWords(before + [t] + after);
    StripKeepsShownWords(before);
    StripKeepsShownWords(after);
    assert before + [t] + after == before + ([t] + after);
    ShownOfConcat(before, [t] + after, State(0, ""));
    ShownAtBreak(t, after);
    FieldsOnTwoLines(Shown(before, 0), Shown(after, 0));
  }

  lemma FieldsOnTwoLines(left: string, right: string)
    ensures Fields(left + ("\n" + right)) == Fields(left) + Fields(right)
  {
    assert left + ("\n" + right) == left + ['\n'] + right;
    FieldsSplit(left, '\n', right);
  }

  lemma ShownAtBreak(t: Token, after: seq<Token>)
    requires Breaks(t)
    ensures Shown([t] + after, 0) == "\n" + Shown(after, 0)
  {
    assert ([t] + after)[1..] == after;
  }
}
