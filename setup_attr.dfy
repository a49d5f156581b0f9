/** `get_attr` of setup.py: the value of an assignment such as
    `__version__ = "1.0.0"`, found as the first line of a file that starts
    with the attribute name. Reading the file is not modelled; its text is
    the `content` parameter. */
module SetupAttr {
  import opened Frames

  /** The exceptions `get_attr` lets escape. */
  datatype SetupError =
    | RuntimeError(message: string)  // no line starts with the attribute
    | IndexError                     // the line has no quote to split on

  datatype AttrResult = Found(value: string) | Raised(error: SetupError)

  const NotFoundMessage := "Unable to find string."

  /** The line boundaries of `str.splitlines`. */
  predicate IsBreak(c: char) {
    c == '\n' || c == '\r' || c == '\U{000B}' || c == '\U{000C}'
    || c == '\U{001C}' || c == '\U{001D}' || c == '\U{001E}'
    || c == '\U{0085}' || c == '\U{2028}' || c == '\U{2029}'
  }

  predicate NoBreak(s: string) {
    forall k :: 0 <= k < |s| ==> !IsBreak(s[k])
  }

  predicate AllBreaks(s: string) {
    forall k :: 0 <= k < |s| ==> IsBreak(s[k])
  }

  /** The position of the first line boundary in s, or |s|. */
  function FirstBreak(s: string): (i: nat)
    ensures i <= |s|
    ensures NoBreak(s[..i])
    ensures i < |s| ==> IsBreak(s[i])
  {
    if s == [] then 0
    else if IsBreak(s[0]) then 0
    else
      var j := FirstBreak(s[1..]);
      assert s[..j + 1] == [s[0]] + s[1..][..j];
      1 + j
  }

  /** How many characters the boundary at position i takes: two for "\r\n",
      one otherwise. */
  function BreakWidth(s: string, i: nat): nat
    requires i < |s|
  {
    if s[i] == '\r' && i + 1 < |s| && s[i + 1] == '\n' then 2 else 1
  }

  /** `s.splitlines()`: the lines without their boundaries; a boundary at
      the very end does not start an empty last line. */
  function SplitLines(s: string): (lines: seq<string>)
    ensures forall k :: 0 <= k < |lines| ==> NoBreak(lines[k])
    ensures s == [] <==> lines == []
    decreases |s|
  {
    if s == [] then []
    else
      var i := FirstBreak(s);
      if i == |s| then [s]
      else [s[..i]] + SplitLines(s[i + BreakWidth(s, i)..])
  }

  /** s with every line boundary character taken out. */
  function WithoutBreaks(s: string): (r: string)
    ensures NoBreak(r)
  {
    if s == [] then []
    else (if IsBreak(s[0]) then [] else [s[0]]) + WithoutBreaks(s[1..])
  }

  function Concat(lines: seq<string>): string {
    if lines == [] then [] else lines[0] + Concat(lines[1..])
  }

  lemma {:induction false} WithoutBreaksConcat(a: string, b: string)
    ensures WithoutBreaks(a + b) == WithoutBreaks(a) + WithoutBreaks(b)
  {
    if a != [] {
      assert (a + b)[1..] == a[1..] + b;
      WithoutBreaksConcat(a[1..], b);
    } else {
      assert a + b == b;
    }
  }

  lemma {:induction false} WithoutBreaksOfLine(s: string)
    requires NoBreak(s)
    ensures WithoutBreaks(s) == s
  {
    if s != [] {
      WithoutBreaksOfLine(s[1..]);
    }
  }

  lemma {:induction false} WithoutBreaksOfBreaks(s: string)
    requires AllBreaks(s)
    ensures WithoutBreaks(s) == []
  {
    if s != [] {
      WithoutBreaksOfBreaks(s[1..]);
    }
  }

  /** A line, then boundaries, then more text: only the text after the
      boundaries has anything left to lose. */
  lemma {:induction false} WithoutBreaksAround(line: string, breaks: string, rest: string)
    requires NoBreak(line)
    requires AllBreaks(breaks)
    ensures WithoutBreaks(line + breaks + rest) == line + WithoutBreaks(rest)
  {
    WithoutBreaksConcat(line + breaks, rest);
    WithoutBreaksConcat(line, breaks);
    WithoutBreaksOfLine(line);
    WithoutBreaksOfBreaks(breaks);
  }

  /** Splitting loses only the boundaries: the lines put back together are
      the text without its boundary characters. */
  lemma {:induction false} SplitLinesKeepsText(s: string)
    ensures Concat(SplitLines(s)) == WithoutBreaks(s)
    decreases |s|
  {
    if s != [] {
      var i := FirstBreak(s);
      if i == |s| {
        WithoutBreaksOfLine(s);
        ConcatCons(s, []);
      } else {
        var w := BreakWidth(s, i);
        var rest := s[i + w..];
        SplitLinesKeepsText(rest);
        ConcatCons(s[..i], SplitLines(rest));
        BoundaryIsBreaks(s, i);
        assert s == s[..i] + s[i..i + w] + rest;
        WithoutBreaksAround(s[..i], s[i..i + w], rest);
      }
    }
  }

  lemma ConcatCons(line: string, lines: seq<string>)
    ensures Concat([line] + lines) == line + Concat(lines)
  {
    assert ([line] + lines)[1..] == lines;
  }

  /** A boundary, one or two characters wide, is made of break characters. */
  lemma BoundaryIsBreaks(s: string, i: nat)
    requires i < |s| && IsBreak(s[i])
    ensures i + BreakWidth(s, i) <= |s|
    ensures AllBreaks(s[i..i + BreakWidth(s, i)])
  {
  }

  /** A boundary as `splitlines` cuts it: "\r\n", or one break character. */
  predicate IsBoundary(b: string) {
    b == "\r\n" || (|b| == 1 && IsBreak(b[0]))
  }

  /** The boundaries SplitLines cuts away, one per line; the last line has
      the empty boundary when the text does not end in one. */
  function Separators(s: string): (seps: seq<string>)
    ensures |seps| == |SplitLines(s)|
    decreases |s|
  {
    if s == [] then []
    else
      var i := FirstBreak(s);
      if i == |s| then [""]
      else [s[i..i + BreakWidth(s, i)]] + Separators(s[i + BreakWidth(s, i)..])
  }

  /** The lines interleaved with their boundaries. */
  function Rejoin(lines: seq<string>, seps: seq<string>): string
    requires |lines| == |seps|
  {
    if lines == [] then [] else lines[0] + seps[0] + Rejoin(lines[1..], seps[1..])
  }

  /** s is the lines put back together with their boundaries: no line holds
      a break, every boundary but the last is a real one, the last piece is
      not empty, and a "\r" is never followed by a "\n" that would have made
      it part of a "\r\n" boundary. */
  predicate Decomposes(s: string, lines: seq<string>, seps: seq<string>) {
    && |seps| == |lines|
    && s == Rejoin(lines, seps)
    && (forall k :: 0 <= k < |lines| ==> NoBreak(lines[k]))
    && (forall k :: 0 <= k < |seps| - 1 ==> IsBoundary(seps[k]))
    && (|seps| > 0 ==> IsBoundary(seps[|seps| - 1]) || seps[|seps| - 1] == [])
    && (|seps| > 0 ==> lines[|lines| - 1] + seps[|seps| - 1] != [])
    && KeepsCrLf(lines, seps)
  }

  /** No boundary "\r" is followed by a "\n": the two would have been one
      "\r\n" boundary. */
  predicate KeepsCrLf(lines: seq<string>, seps: seq<string>)
    requires |lines| == |seps|
  {
    |lines| <= 1
    || ((seps[0] == "\r" ==> !StartsWith(lines[1] + seps[1], "\n")) && KeepsCrLf(lines[1..], seps[1..]))
  }

  lemma RejoinCons(line: string, sep: string, lines: seq<string>, seps: seq<string>)
    requires |lines| == |seps|
    ensures Rejoin([line] + lines, [sep] + seps) == line + sep + Rejoin(lines, seps)
  {
    assert ([line] + lines)[1..] == lines;
    assert ([sep] + seps)[1..] == seps;
  }

  /** One line and its boundary in front of a decomposition. */
  lemma DecomposesCons(s: string, line: string, sep: string, rest: string, lines: seq<string>, seps: seq<string>)
    requires Decomposes(rest, lines, seps)
    requires NoBreak(line) && IsBoundary(sep) && s == line + sep + rest
    requires sep == "\r" ==> rest == [] || rest[0] != '\n'
    ensures Decomposes(s, [line] + lines, [sep] + seps)
  {
    var L, S := [line] + lines, [sep] + seps;
    RejoinCons(line, sep, lines, seps);
    assert forall k :: 0 < k < |L| ==> L[k] == lines[k - 1];
    assert forall k :: 0 < k < |S| ==> S[k] == seps[k - 1];
    if lines != [] && sep == "\r" {
      RejoinHead(rest, lines, seps);
    }
    assert L[1..] == lines && S[1..] == seps;
  }

  /** A decomposed text starts with its first line and boundary, which are
      not both empty. */
  lemma RejoinHead(s: string, lines: seq<string>, seps: seq<string>)
    requires Decomposes(s, lines, seps) && lines != []
    ensures lines[0] + seps[0] != [] && s != [] && s[0] == (lines[0] + seps[0])[0]
  {
    RejoinCons(lines[0], seps[0], lines[1..], seps[1..]);
    assert [lines[0]] + lines[1..] == lines;
    assert [seps[0]] + seps[1..] == seps;
    if |lines| > 1 {
      assert IsBoundary(seps[0]);
    }
  }

  /** What is left of a decomposition without its first line. */
  lemma DecomposesTail(s: string, lines: seq<string>, seps: seq<string>)
    requires Decomposes(s, lines, seps) && lines != []
    ensures Decomposes(Rejoin(lines[1..], seps[1..]), lines[1..], seps[1..])
  {
    var L, S := lines[1..], seps[1..];
    assert forall k :: 0 <= k < |L| ==> L[k] == lines[k + 1];
    assert forall k :: 0 <= k < |S| ==> S[k] == seps[k + 1];
  }

  /** A break at i with none before it is the first break. */
  lemma {:induction false} FirstBreakAt(s: string, i: nat)
    requires i <= |s| && NoBreak(s[..i])
    requires i < |s| ==> IsBreak(s[i])
    ensures FirstBreak(s) == i
  {
    if s != [] && i > 0 {
      assert s[0] == s[..i][0];
      assert s[1..][..i - 1] == s[..i][1..];
      FirstBreakAt(s[1..], i - 1);
    }
  }

  /** The partner of SplitLines, one direction: its lines and the
      boundaries between them put the text back together. */
  lemma {:induction false} SplitLinesDecomposes(s: string)
    ensures Decomposes(s, SplitLines(s), Separators(s))
    decreases |s|
  {
    if s != [] {
      var i := FirstBreak(s);
      if i == |s| {
        SplitLastLine(s);
      } else {
        var rest := s[i + BreakWidth(s, i)..];
        SplitLinesDecomposes(rest);
        SplitFirstLine(s, rest);
      }
    }
  }

  /** A text without a break is one line with the empty boundary. */
  lemma SplitLastLine(s: string)
    requires s != [] && FirstBreak(s) == |s|
    ensures Decomposes(s, SplitLines(s), Separators(s))
  {
    assert s[..|s|] == s;
    assert SplitLines(s) == [s] && Separators(s) == [""];
    RejoinCons(s, "", [], []);
  }

  /** The first line and its boundary go in front of the decomposition of
      the rest. */
  lemma SplitFirstLine(s: string, rest: string)
    requires s != [] && FirstBreak(s) < |s|
    requires rest == s[FirstBreak(s) + BreakWidth(s, FirstBreak(s))..]
    requires Decomposes(rest, SplitLines(rest), Separators(rest))
    ensures Decomposes(s, SplitLines(s), Separators(s))
  {
    var i := FirstBreak(s);
    var line, sep := s[..i], s[i..i + BreakWidth(s, i)];
    FirstLineFacts(s, line, sep, rest);
    DecomposesCons(s, line, sep, rest, SplitLines(rest), Separators(rest));
  }

  /** What SplitLines cuts off the front of a text with a break. */
  lemma FirstLineFacts(s: string, line: string, sep: string, rest: string)
    requires s != [] && FirstBreak(s) < |s|
    requires line == s[..FirstBreak(s)]
    requires sep == s[FirstBreak(s)..FirstBreak(s) + BreakWidth(s, FirstBreak(s))]
    requires rest == s[FirstBreak(s) + BreakWidth(s, FirstBreak(s))..]
    ensures NoBreak(line) && IsBoundary(sep) && s == line + sep + rest
    ensures sep == "\r" ==> rest == [] || rest[0] != '\n'
    ensures SplitLines(s) == [line] + SplitLines(rest)
    ensures Separators(s) == [sep] + Separators(rest)
  {
    var i := FirstBreak(s);
    var w := BreakWidth(s, i);
    BoundaryIsBreaks(s, i);
    assert s == s[..i] + s[i..i + w] + s[i + w..];
    if sep == "\r" && rest != [] {
      assert w == 1 && rest[0] == s[i + 1];
    }
  }

  /** The other direction: a decomposition of s can only be the one
      SplitLines makes, so the split points are fixed. */
  lemma {:induction false} DecompositionUnique(s: string, lines: seq<string>, seps: seq<string>)
    requires Decomposes(s, lines, seps)
    ensures lines == SplitLines(s) && seps == Separators(s)
    decreases |lines|
  {
    if lines != [] {
      var rest := Rejoin(lines[1..], seps[1..]);
      DecomposesTail(s, lines, seps);
      DecompositionUnique(rest, lines[1..], seps[1..]);
      UniqueHead(s, lines, seps);
      HeadAndTail(lines);
      HeadAndTail(seps);
    }
  }

  lemma HeadAndTail<T>(xs: seq<T>)
    requires xs != []
    ensures [xs[0]] + xs[1..] == xs
  {
  }

  /** SplitLines cuts off the first line and boundary of a decomposition. */
  lemma UniqueHead(s: string, lines: seq<string>, seps: seq<string>)
    requires Decomposes(s, lines, seps) && lines != []
    ensures SplitLines(s) == [lines[0]] + SplitLines(Rejoin(lines[1..], seps[1..]))
    ensures Separators(s) == [seps[0]] + Separators(Rejoin(lines[1..], seps[1..]))
  {
    HeadFacts(s, lines, seps);
    UniqueStep(s, lines[0], seps[0], Rejoin(lines[1..], seps[1..]));
  }

  /** What a decomposition says about its first line and boundary. */
  lemma HeadFacts(s: string, lines: seq<string>, seps: seq<string>)
    requires Decomposes(s, lines, seps) && lines != []
    ensures var rest := Rejoin(lines[1..], seps[1..]);
            && s == lines[0] + seps[0] + rest
            && NoBreak(lines[0])
            && (seps[0] == [] ==> rest == [] && lines[0] != [])
            && (seps[0] != [] ==> IsBoundary(seps[0]))
            && (seps[0] == "\r" && rest != [] ==> rest[0] != '\n')
  {
    var rest := Rejoin(lines[1..], seps[1..]);
    if |lines| > 1 {
      assert IsBoundary(seps[0]);
      DecomposesTail(s, lines, seps);
      RejoinHead(rest, lines[1..], seps[1..]);
      assert lines[1..][0] == lines[1] && seps[1..][0] == seps[1];
    } else {
      assert lines[1..] == [];
    }
  }

  /** A text made of a line without breaks, a boundary, and the rest is
      split by SplitLines into that line and the lines of the rest. */
  lemma UniqueStep(s: string, line: string, sep: string, rest: string)
    requires NoBreak(line) && s == line + sep + rest
    requires sep == [] ==> rest == [] && line != []
    requires sep != [] ==> IsBoundary(sep)
    requires sep == "\r" && rest != [] ==> rest[0] != '\n'
    ensures SplitLines(s) == [line] + SplitLines(rest)
    ensures Separators(s) == [sep] + Separators(rest)
  {
    if sep == [] {
      assert s == line;
      assert s[..|s|] == s;
      FirstBreakAt(s, |s|);
    } else {
      var i := |line|;
      assert s[..i] == line;
      assert s[i] == sep[0];
      FirstBreakAt(s, i);
      if sep == "\r\n" {
        assert s[i + 1] == sep[1];
      } else if sep == "\r" && rest != [] {
        assert s[i + 1] == rest[0];
      }
      assert BreakWidth(s, i) == |sep|;
      assert s[i..i + |sep|] == sep;
      assert s[i + |sep|..] == rest;
    }
  }

  /** `line.startswith(attr)` */
  predicate StartsWith(line: string, attr: string) {
    |attr| <= |line| && line[..|attr|] == attr
  }

  /** The index of the first line that starts with attr. */
  function FirstMatch(lines: seq<string>, attr: string): (r: Option<nat>)
    ensures r.None? <==> forall k :: 0 <= k < |lines| ==> !StartsWith(lines[k], attr)
    ensures r.Some? ==> r.value < |lines| && StartsWith(lines[r.value], attr)
    ensures r.Some? ==> forall k :: 0 <= k < r.value ==> !StartsWith(lines[k], attr)
  {
    if lines == [] then None
    else if StartsWith(lines[0], attr) then Some(0)
    else
      match FirstMatch(lines[1..], attr)
      case None => None
      case Some(j) => Some(j + 1)
  }

  /** The index of the first occurrence of c in s. */
  function IndexOf(s: string, c: char): (r: Option<nat>)
    ensures r.None? <==> c !in s
    ensures r.Some? ==> r.value < |s| && s[r.value] == c && c !in s[..r.value]
  {
    if s == [] then None
    else if s[0] == c then Some(0)
    else
      match IndexOf(s[1..], c)
      case None => None
      case Some(j) =>
        assert s[..j + 1] == [s[0]] + s[1..][..j];
        Some(j + 1)
  }

  /** IndexOf finds the position of the first occurrence. */
  lemma {:induction false} IndexOfUnique(s: string, c: char, i: nat)
    requires i < |s| && s[i] == c && c !in s[..i]
    ensures IndexOf(s, c) == Some(i)
  {
    if i > 0 {
      assert s[0] == s[..i][0];
      assert s[1..][..i - 1] == s[1..i];
      assert forall x :: x in s[1..i] ==> x in s[..i];
      IndexOfUnique(s[1..], c, i - 1);
    }
  }

  /** `line.split(delim)[1]`: the text after the first delimiter, up to the
      second one or the end of the line; None where the list has one
      element and indexing raises IndexError. */
  function SplitField(line: string, delim: char): (r: Option<string>)
    ensures r.None? <==> delim !in line
    ensures r.Some? ==> delim !in r.value
    ensures r.Some? ==> var i := IndexOf(line, delim).value;
              && i + 1 + |r.value| <= |line|
              && line[i + 1..i + 1 + |r.value|] == r.value
              && (i + 1 + |r.value| == |line| || line[i + 1 + |r.value|] == delim)
  {
    match IndexOf(line, delim)
    case None => None
    case Some(i) =>
      var rest := line[i + 1..];
      match IndexOf(rest, delim)
      case None => Some(rest)
      case Some(j) => Some(rest[..j])
  }

  /** What `get_attr` returns for the line it picked: the quote is `"` when
      the line has one, `'` otherwise. */
  function FieldOf(line: string): AttrResult {
    var delim := if '"' in line then '"' else '\'';
    match SplitField(line, delim)
    case None => Raised(IndexError)
    case Some(v) => Found(v)
  }

  /** The partner of FieldOf: a line written as `attr = "value"`, or as
      `attr = 'value'` when the line has no double quote, gives back the
      value, as long as neither the attribute nor the value holds the
      quote. */
  lemma FieldOfAssignment(attr: string, v: string, q: char)
    requires q == '"' || (q == '\'' && '"' !in attr && '"' !in v)
    requires q !in attr && q !in v
    ensures FieldOf(attr + " = " + [q] + v + [q]) == Found(v)
  {
    var line := attr + " = " + [q] + v + [q];
    var i := |attr| + 3;
    assert line[i] == q;
    assert line[..i] == attr + " = ";
    assert q !in line[..i];
    if q == '\'' {
      assert forall k :: 0 <= k < |line| ==> line[k] != '"' by {
        forall k | 0 <= k < |line| ensures line[k] != '"' {
          if k < |attr| {
            assert line[k] == attr[k];
          } else if i < k < i + 1 + |v| {
            assert line[k] == v[k - i - 1];
          }
        }
      }
    }
    IndexOfUnique(line, q, i);
    var rest := line[i + 1..];
    assert rest == v + [q];
    assert rest[..|v|] == v;
    IndexOfUnique(rest, q, |v|);
  }

  /** A matched line with neither kind of quote makes the split fail. */
  lemma FieldOfUnquoted(line: string)
    requires '"' !in line && '\'' !in line
    ensures FieldOf(line) == Raised(IndexError)
  {
  }

  /** FirstMatch finds the first line that starts with attr. */
  lemma {:induction false} FirstMatchAt(lines: seq<string>, attr: string, i: nat)
    requires i < |lines| && StartsWith(lines[i], attr)
    requires forall k :: 0 <= k < i ==> !StartsWith(lines[k], attr)
    ensures FirstMatch(lines, attr) == Some(i)
  {
    if i > 0 {
      assert forall k :: 0 <= k < i - 1 ==> lines[1..][k] == lines[k + 1];
      FirstMatchAt(lines[1..], attr, i - 1);
    }
  }

  /** `get_attr(fname, attr)` on the text of the file. */
  method GetAttr(content: string, attr: string) returns (r: AttrResult)
    ensures var lines := SplitLines(content);
            match FirstMatch(lines, attr)
            case None => r == Raised(RuntimeError(NotFoundMessage))
            case Some(i) => r == FieldOf(lines[i])
    ensures r == Raised(RuntimeError(NotFoundMessage))
            <==> forall k :: 0 <= k < |SplitLines(content)| ==> !StartsWith(SplitLines(content)[k], attr)
  {
    var lines := SplitLines(content);
    var i := 0;
    while i < |lines|
      invariant 0 <= i <= |lines|
      invariant forall k :: 0 <= k < i ==> !StartsWith(lines[k], attr)
    {
      if StartsWith(lines[i], attr) {
        FirstMatchAt(lines, attr, i);
        var delim := if '"' in lines[i] then '"' else '\'';
        var field := SplitField(lines[i], delim);
        if field.None? {
          r := Raised(IndexError);
        } else {
          r := Found(field.value);
        }
        assert r == FieldOf(lines[i]);
        return;
      }
      i := i + 1;
    }
    assert FirstMatch(lines, attr).None?;
    return Raised(RuntimeError(NotFoundMessage));
  }
}
