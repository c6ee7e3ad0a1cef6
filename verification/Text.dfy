/** Trimming, splitting and joining text. A string is a sequence of code points. */
module Text {
  /** White space as Go's unicode package defines it. */
  predicate IsSpace(c: char) {
    var x := c as int;
    || 0x09 <= x <= 0x0D || x == 0x20 || x == 0x85 || x == 0xA0 || x == 0x1680
    || 0x2000 <= x <= 0x200A || x == 0x2028 || x == 0x2029 || x == 0x202F || x == 0x205F || x == 0x3000
  }

  function TrimLeft(s: string): string {
    if s != "" && IsSpace(s[0]) then TrimLeft(s[1..]) else s
  }

  function TrimRight(s: string): string {
    if s != "" && IsSpace(s[|s| - 1]) then TrimRight(s[..|s| - 1]) else s
  }

  function Trim(s: string): string { TrimRight(TrimLeft(s)) }

  function ToLower(c: char): char {
    if 'A' <= c <= 'Z' then c + ('a' - 'A') else c
  }

  /** Lower case of ASCII letters. */
  function Lower(s: string): string { seq(|s|, i requires 0 <= i < |s| => ToLower(s[i])) }

  lemma {:induction false} TrimLeftStops(s: string)
    ensures TrimLeft(s) == "" || !IsSpace(TrimLeft(s)[0])
  {
    if s != "" { TrimLeftStops(s[1..]); }
  }

  lemma {:induction false} TrimRightKeepsHead(s: string)
    ensures TrimRight(s) == "" || (TrimRight(s)[0] == s[0] && !IsSpace(TrimRight(s)[|TrimRight(s)| - 1]))
  {
    if s != "" { TrimRightKeepsHead(s[..|s| - 1]); }
  }

  /** Trimming again changes nothing. */
  lemma TrimTwice(s: string)
    ensures Trim(Trim(s)) == Trim(s)
  {
    TrimLeftStops(s);
    TrimRightKeepsHead(TrimLeft(s));
  }

  // ---------- lines ----------

  /** Every carriage return that precedes a line feed is dropped. */
  function ReplaceCrLf(s: string): string {
    if s == "" then ""
    else if |s| >= 2 && s[0] == '\r' && s[1] == '\n' then ['\n'] + ReplaceCrLf(s[2..])
    else [s[0]] + ReplaceCrLf(s[1..])
  }

  /** The pieces between line feeds; at least one. */
  function SplitLines(s: string): (lines: seq<string>)
    ensures |lines| >= 1
  {
    if s == "" then [""]
    else
      var rest := SplitLines(s[1..]);
      if s[0] == '\n' then [""] + rest else [[s[0]] + rest[0]] + rest[1..]
  }

  function Join(parts: seq<string>, separator: string): string {
    if parts == [] then ""
    else if |parts| == 1 then parts[0]
    else parts[0] + separator + Join(parts[1..], separator)
  }

  /** Splitting what was joined gives the same lines back. */
  lemma {:induction false} SplitJoin(lines: seq<string>)
    requires lines != [] && forall i :: 0 <= i < |lines| ==> '\n' !in lines[i]
    ensures SplitLines(Join(lines, "\n")) == lines
    decreases |lines|
  {
    if |lines| == 1 {
      SplitOne(lines[0]);
    } else {
      SplitJoin(lines[1..]);
      SplitFirst(lines[0], Join(lines[1..], "\n"));
      assert lines == [lines[0]] + lines[1..];
    }
  }

  lemma {:induction false} SplitOne(line: string)
    requires '\n' !in line
    ensures SplitLines(line) == [line]
  {
    if line != "" {
      SplitOne(line[1..]);
      assert line[0] in line && [line[0]] + line[1..] == line;
    }
  }

  lemma {:induction false} SplitFirst(line: string, rest: string)
    requires '\n' !in line
    ensures SplitLines(line + "\n" + rest) == [line] + SplitLines(rest)
  {
    var s := line + "\n" + rest;
    if line == "" {
      assert s[1..] == rest;
    } else {
      assert s[1..] == line[1..] + "\n" + rest;
      SplitFirst(line[1..], rest);
      assert line[0] in line && [line[0]] + line[1..] == line;
      assert ([line[1..]] + SplitLines(rest))[1..] == SplitLines(rest);
    }
  }

  predicate StartsCrLf(s: string) { |s| >= 2 && s[0] == '\r' && s[1] == '\n' }

  /** Without the carriage return at its end. */
  function LessReturn(line: string): string {
    if line != "" && line[|line| - 1] == '\r' then line[..|line| - 1] else line
  }

  /** Every line of a is the one of b, less a carriage return at its end unless it is the last one. */
  predicate LessReturns(a: seq<string>, b: seq<string>) {
    |a| == |b| && forall i :: 0 <= i < |a| ==> a[i] == if i < |b| - 1 then LessReturn(b[i]) else b[i]
  }

  lemma NextLine(first: string, a: seq<string>, b: seq<string>)
    requires LessReturns(a, b) && b != []
    ensures LessReturns([LessReturn(first)] + a, [first] + b)
  {
    var x, y := [LessReturn(first)] + a, [first] + b;
    forall i | 0 <= i < |x|
      ensures x[i] == if i < |y| - 1 then LessReturn(y[i]) else y[i]
    {
      if i > 0 { assert x[i] == a[i - 1] && y[i] == b[i - 1]; }
    }
  }

  /** Replacing drops one carriage return from the end of every line but the last. */
  lemma {:induction false} CrLfLines(s: string)
    ensures LessReturns(SplitLines(ReplaceCrLf(s)), SplitLines(s))
    decreases |s|
  {
    if StartsCrLf(s) {
      CrLfLines(s[2..]);
      CrLfHead(s);
      NextLine("\r", SplitLines(ReplaceCrLf(s[2..])), SplitLines(s[2..]));
    } else if s != "" && s[0] == '\n' {
      CrLfLines(s[1..]);
      NextLine("", SplitLines(ReplaceCrLf(s[1..])), SplitLines(s[1..]));
    } else if s != "" {
      CrLfLines(s[1..]);
    }
  }

  lemma CrLfHead(s: string)
    requires StartsCrLf(s)
    ensures SplitLines(s) == ["\r"] + SplitLines(s[2..])
    ensures SplitLines(ReplaceCrLf(s)) == [""] + SplitLines(ReplaceCrLf(s[2..]))
  {
    assert s[1..][1..] == s[2..];
    assert (['\n'] + ReplaceCrLf(s[2..]))[1..] == ReplaceCrLf(s[2..]);
    assert SplitLines(s[1..]) == [""] + SplitLines(s[2..]);
    assert ([""] + SplitLines(s[2..]))[1..] == SplitLines(s[2..]);
    assert ['\r'] + "" == "\r";
  }
}
