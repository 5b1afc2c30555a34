/** The string handling of Model.fromOBJ (src/js/Model.js): line splitting,
    whitespace trimming and collapsing, the '/'-separated face tokens and the
    regular expressions that classify them. */
module ObjText {

  /** `s.split(sep)` for a one-character separator: always at least one part,
      no part contains the separator, and joining the parts restores `s`. */
  function SplitOn(s: string, sep: char): (parts: seq<string>)
    ensures |parts| >= 1
    ensures forall i, j :: 0 <= i < |parts| && 0 <= j < |parts[i]| ==>
      parts[i][j] != sep && parts[i][j] in s
  {
    if |s| == 0 then [""]
    else
      var rest := SplitOn(s[1..], sep);
      if s[0] == sep then [""] + rest
      else [[s[0]] + rest[0]] + rest[1..]
  }

  /** `parts.join(sep)`. */
  function Join(parts: seq<string>, sep: char): string
    requires |parts| >= 1
  {
    if |parts| == 1 then parts[0] else parts[0] + [sep] + Join(parts[1..], sep)
  }

  /** Joining the parts of a split restores the string. */
  lemma {:induction false} JoinSplit(s: string, sep: char)
    ensures Join(SplitOn(s, sep), sep) == s
  {
    if |s| > 0 {
      var rest := SplitOn(s[1..], sep);
      JoinSplit(s[1..], sep);
      if s[0] == sep {
        assert SplitOn(s, sep)[1..] == rest;
      } else {
        var parts := SplitOn(s, sep);
        if |rest| == 1 {
          assert parts == [[s[0]] + rest[0]];
        } else {
          assert parts[1..] == rest[1..];
          assert Join(rest, sep) == rest[0] + [sep] + Join(rest[1..], sep);
        }
        assert s == [s[0]] + s[1..];
      }
    }
  }

  /** Splitting a join of separator-free parts gives the parts back. */
  lemma {:induction false} SplitJoin(parts: seq<string>, sep: char)
    requires |parts| >= 1
    requires forall i, j :: 0 <= i < |parts| && 0 <= j < |parts[i]| ==> parts[i][j] != sep
    ensures SplitOn(Join(parts, sep), sep) == parts
  {
    if |parts| == 1 {
      SplitPlain(parts[0], sep);
    } else {
      SplitJoin(parts[1..], sep);
      SplitPrefix(parts[0], Join(parts[1..], sep), sep);
      assert parts == [parts[0]] + parts[1..];
    }
  }

  /** A separator-free string splits into itself. */
  lemma {:induction false} SplitPlain(s: string, sep: char)
    requires forall j :: 0 <= j < |s| ==> s[j] != sep
    ensures SplitOn(s, sep) == [s]
  {
    if |s| > 0 {
      SplitPlain(s[1..], sep);
      assert [s[0]] + s[1..] == s;
    }
  }

  /** A separator-free prefix followed by the separator becomes the first part. */
  lemma {:induction false} SplitPrefix(p: string, t: string, sep: char)
    requires forall j :: 0 <= j < |p| ==> p[j] != sep
    ensures SplitOn(p + [sep] + t, sep) == [p] + SplitOn(t, sep)
  {
    if |p| == 0 {
      assert p + [sep] + t == [sep] + t;
      assert ([sep] + t)[1..] == t;
    } else {
      SplitPrefix(p[1..], t, sep);
      assert (p + [sep] + t)[1..] == p[1..] + [sep] + t;
      assert [p[0]] + p[1..] == p;
    }
  }

  /** The characters JavaScript's `\s` and `String.prototype.trim` treat as white space. */
  predicate IsSpace(c: char)
  {
    c == ' ' || c == '\t' || c == '\n' || c == '\U{B}' || c == '\U{C}' || c == '\r' ||
    c == '\U{A0}' || c == '\U{1680}' || ('\U{2000}' <= c <= '\U{200A}') ||
    c == '\U{2028}' || c == '\U{2029}' || c == '\U{202F}' || c == '\U{205F}' ||
    c == '\U{3000}' || c == '\U{FEFF}'
  }

  /** `objText.replaceAll("\r", "\n")`. */
  function ReplaceCarriageReturns(s: string): (r: string)
    ensures |r| == |s|
    ensures forall i :: 0 <= i < |s| ==> r[i] == if s[i] == '\r' then '\n' else s[i]
  {
    if |s| == 0 then "" else [if s[0] == '\r' then '\n' else s[0]] + ReplaceCarriageReturns(s[1..])
  }

  /** The lines of an OBJ text: both "\r" and "\n" end a line. */
  function Lines(text: string): seq<string>
  {
    SplitOn(ReplaceCarriageReturns(text), '\n')
  }

  /** No line holds a line terminator, and the lines joined with "\n" give the
      text with every "\r" turned into "\n". */
  lemma LinesHaveNoTerminators(text: string)
    ensures forall i, j :: 0 <= i < |Lines(text)| && 0 <= j < |Lines(text)[i]| ==>
      Lines(text)[i][j] != '\n' && Lines(text)[i][j] != '\r'
    ensures Join(Lines(text), '\n') == ReplaceCarriageReturns(text)
  {
    JoinSplit(ReplaceCarriageReturns(text), '\n');
    var r := ReplaceCarriageReturns(text);
    forall i, j | 0 <= i < |Lines(text)| && 0 <= j < |Lines(text)[i]|
      ensures Lines(text)[i][j] != '\r'
    {
      var c := Lines(text)[i][j];
      assert c in r;
      var k :| 0 <= k < |r| && r[k] == c;
    }
  }

  /** Leading white space removed. */
  function TrimStart(s: string): (r: string)
    ensures |r| <= |s|
    ensures r == [] || !IsSpace(r[0])
    ensures r == s[|s| - |r|..]
    ensures forall j :: 0 <= j < |s| - |r| ==> IsSpace(s[j])
  {
    if |s| > 0 && IsSpace(s[0]) then TrimStart(s[1..]) else s
  }

  /** Trailing white space removed. */
  function TrimEnd(s: string): (r: string)
    ensures |r| <= |s|
    ensures r == [] || !IsSpace(r[|r| - 1])
    ensures r == s[..|r|]
    ensures forall j :: |r| <= j < |s| ==> IsSpace(s[j])
  {
    if |s| > 0 && IsSpace(s[|s| - 1]) then TrimEnd(s[..|s| - 1]) else s
  }

  /** `line.trim()`. */
  function Trim(s: string): (r: string)
    ensures r == [] || (!IsSpace(r[0]) && !IsSpace(r[|r| - 1]))
  {
    TrimEnd(TrimStart(s))
  }

  /** `line.replaceAll(/\s+/g, " ")`: every maximal run of white space becomes one space. */
  function Collapse(s: string): (r: string)
    decreases |s|
  {
    if |s| == 0 then ""
    else if IsSpace(s[0]) then " " + Collapse(TrimStart(s))
    else [s[0]] + Collapse(s[1..])
  }

  /** A collapsed string starts with ' ' exactly where the input starts with white space. */
  lemma CollapseFirst(s: string)
    requires |s| > 0
    ensures |Collapse(s)| > 0 && (Collapse(s)[0] == ' ' <==> IsSpace(s[0]))
  {
  }

  /** Only ' ' is left of the white space. */
  lemma {:induction false} CollapseOnlySpace(s: string)
    ensures forall j :: 0 <= j < |Collapse(s)| ==> !IsSpace(Collapse(s)[j]) || Collapse(s)[j] == ' '
    decreases |s|
  {
    if |s| > 0 {
      if IsSpace(s[0]) {
        CollapseOnlySpace(TrimStart(s));
      } else {
        CollapseOnlySpace(s[1..]);
      }
    }
  }

  /** No two spaces in a row. */
  lemma {:induction false} CollapseNoDouble(s: string)
    ensures forall j :: 0 <= j < |Collapse(s)| - 1 ==> !(Collapse(s)[j] == ' ' && Collapse(s)[j + 1] == ' ')
    decreases |s|
  {
    if |s| > 0 {
      if IsSpace(s[0]) {
        var t := TrimStart(s);
        CollapseNoDouble(t);
        if |t| > 0 {
          CollapseFirst(t);
        }
      } else {
        CollapseNoDouble(s[1..]);
      }
    }
  }

  /** A collapsed string ends with ' ' exactly where the input ends with white space. */
  lemma {:induction false} CollapseLast(s: string)
    requires |s| > 0
    ensures |Collapse(s)| > 0 && (Collapse(s)[|Collapse(s)| - 1] == ' ' <==> IsSpace(s[|s| - 1]))
    decreases |s|
  {
    if IsSpace(s[0]) {
      var t := TrimStart(s);
      if |t| > 0 {
        CollapseLast(t);
        assert s[|s| - 1] == t[|t| - 1];
      }
    } else if |s| > 1 {
      CollapseLast(s[1..]);
      assert s[|s| - 1] == s[1..][|s[1..]| - 1];
    }
  }

  /** The shape of a collapsed string: the only white space left is ' ', never
      two in a row, and it starts (ends) with ' ' only where the input starts
      (ends) with white space. */
  lemma CollapseShape(s: string)
    ensures |Collapse(s)| == 0 <==> |s| == 0
    ensures forall j :: 0 <= j < |Collapse(s)| ==> !IsSpace(Collapse(s)[j]) || Collapse(s)[j] == ' '
    ensures forall j :: 0 <= j < |Collapse(s)| - 1 ==> !(Collapse(s)[j] == ' ' && Collapse(s)[j + 1] == ' ')
    ensures |s| > 0 ==> (Collapse(s)[0] == ' ' <==> IsSpace(s[0]))
    ensures |s| > 0 ==> (Collapse(s)[|Collapse(s)| - 1] == ' ' <==> IsSpace(s[|s| - 1]))
  {
    CollapseOnlySpace(s);
    CollapseNoDouble(s);
    if |s| > 0 {
      CollapseFirst(s);
      CollapseLast(s);
    }
  }

  /** `line.split(" ")` after trimming and collapsing: the segments of a line. */
  function Segments(line: string): seq<string>
  {
    SplitOn(Collapse(Trim(line)), ' ')
  }

  /** A blank line has the single segment ""; any other line splits into
      non-empty segments that hold no white space. */
  lemma LineSegments(line: string)
    ensures Trim(line) == [] ==> Segments(line) == [""]
    ensures Trim(line) != [] ==> forall i :: 0 <= i < |Segments(line)| ==>
      |Segments(line)[i]| > 0 && forall j :: 0 <= j < |Segments(line)[i]| ==> !IsSpace(Segments(line)[i][j])
  {
    var t := Trim(line);
    if t != [] {
      CollapsedWords(t);
    }
  }

  /** A string that starts and ends with something other than white space
      collapses into words separated by single spaces. */
  lemma CollapsedWords(t: string)
    requires t != [] && !IsSpace(t[0]) && !IsSpace(t[|t| - 1])
    ensures forall i :: 0 <= i < |SplitOn(Collapse(t), ' ')| ==>
      |SplitOn(Collapse(t), ' ')[i]| > 0 &&
      forall j :: 0 <= j < |SplitOn(Collapse(t), ' ')[i]| ==> !IsSpace(SplitOn(Collapse(t), ' ')[i][j])
  {
    var c := Collapse(t);
    CollapseOnlySpace(t);
    CollapseNoDouble(t);
    CollapseFirst(t);
    CollapseLast(t);
    SplitWords(c);
    SplitOnSpaceFree(c);
  }

  /** When ' ' is the only white space left, the parts of a split at ' ' hold none. */
  lemma SplitOnSpaceFree(c: string)
    requires forall j :: 0 <= j < |c| ==> !IsSpace(c[j]) || c[j] == ' '
    ensures forall i, j :: 0 <= i < |SplitOn(c, ' ')| && 0 <= j < |SplitOn(c, ' ')[i]| ==> !IsSpace(SplitOn(c, ' ')[i][j])
  {
    var parts := SplitOn(c, ' ');
    forall i, j | 0 <= i < |parts| && 0 <= j < |parts[i]|
      ensures !IsSpace(parts[i][j])
    {
      var ch := parts[i][j];
      assert ch in c && ch != ' ';
      var k :| 0 <= k < |c| && c[k] == ch;
    }
  }

  /** Splitting at ' ' a string with no two adjacent spaces that does not end
      with one gives non-empty parts after the first; the first is non-empty too
      unless the string starts with ' '. */
  lemma {:induction false} SplitWords(s: string)
    requires forall j :: 0 <= j < |s| - 1 ==> !(s[j] == ' ' && s[j + 1] == ' ')
    requires |s| > 0 ==> s[|s| - 1] != ' '
    ensures forall i :: 1 <= i < |SplitOn(s, ' ')| ==> |SplitOn(s, ' ')[i]| > 0
    ensures |s| > 0 && s[0] != ' ' ==> |SplitOn(s, ' ')[0]| > 0
  {
    if |s| > 0 {
      var rest := SplitOn(s[1..], ' ');
      SplitWords(s[1..]);
      if s[0] == ' ' {
        assert |s| > 1 && s[1] != ' ';
        assert s[1..][0] == s[1];
      }
    }
  }

  /** The characters of `s` that are not white space, in order. */
  function NonSpace(s: string): (r: string)
    ensures |r| <= |s|
    ensures forall j :: 0 <= j < |r| ==> !IsSpace(r[j])
  {
    if |s| == 0 then "" else (if IsSpace(s[0]) then "" else [s[0]]) + NonSpace(s[1..])
  }

  lemma {:induction false} NonSpaceConcat(s: string, t: string)
    ensures NonSpace(s + t) == NonSpace(s) + NonSpace(t)
  {
    if |s| > 0 {
      NonSpaceConcat(s[1..], t);
      assert (s + t)[1..] == s[1..] + t;
    } else {
      assert s + t == t;
    }
  }

  lemma {:induction false} NonSpaceBlank(s: string)
    requires forall j :: 0 <= j < |s| ==> IsSpace(s[j])
    ensures NonSpace(s) == ""
  {
    if |s| > 0 {
      NonSpaceBlank(s[1..]);
    }
  }

  lemma NonSpaceTrimStart(s: string)
    ensures NonSpace(TrimStart(s)) == NonSpace(s)
  {
    var u := TrimStart(s);
    var head := s[..|s| - |u|];
    assert s == head + u;
    NonSpaceConcat(head, u);
    NonSpaceBlank(head);
  }

  lemma NonSpaceTrimEnd(u: string)
    ensures NonSpace(TrimEnd(u)) == NonSpace(u)
  {
    var v := TrimEnd(u);
    var tail := u[|v|..];
    assert u == v + tail;
    NonSpaceConcat(v, tail);
    NonSpaceBlank(tail);
  }

  /** Trimming removes white space only. */
  lemma NonSpaceTrim(s: string)
    ensures NonSpace(Trim(s)) == NonSpace(s)
  {
    NonSpaceTrimStart(s);
    NonSpaceTrimEnd(TrimStart(s));
  }

  /** Collapsing keeps every character that is not white space, in order. */
  lemma {:induction false} CollapseKeepsText(s: string)
    ensures NonSpace(Collapse(s)) == NonSpace(s)
    decreases |s|
  {
    if |s| > 0 {
      if IsSpace(s[0]) {
        var t := TrimStart(s);
        CollapseKeepsText(t);
        NonSpaceConcat(" ", Collapse(t));
        NonSpaceTrimStart(s);
      } else {
        CollapseKeepsText(s[1..]);
        NonSpaceConcat([s[0]], Collapse(s[1..]));
        NonSpaceConcat([s[0]], s[1..]);
        assert s == [s[0]] + s[1..];
      }
    }
  }

  /** The segments of a line, joined by single spaces, are the trimmed and
      collapsed line, and hold exactly the line's characters that are not
      white space, in order. */
  lemma SegmentsKeepText(line: string)
    ensures Join(Segments(line), ' ') == Collapse(Trim(line))
    ensures NonSpace(Join(Segments(line), ' ')) == NonSpace(line)
  {
    JoinSplit(Collapse(Trim(line)), ' ');
    CollapseKeepsText(Trim(line));
    NonSpaceTrim(line);
  }

  /** Non-empty words free of white space. */
  predicate AreWords(words: seq<string>)
  {
    forall i :: 0 <= i < |words| ==>
      |words[i]| > 0 && forall j :: 0 <= j < |words[i]| ==> !IsSpace(words[i][j])
  }

  /** A join of words starts with the first word's first character and ends
      with the last word's last character. */
  lemma {:induction false} JoinEnds(words: seq<string>)
    requires |words| >= 1 && AreWords(words)
    ensures |Join(words, ' ')| > 0
    ensures Join(words, ' ')[0] == words[0][0]
    ensures Join(words, ' ')[|Join(words, ' ')| - 1] == words[|words| - 1][|words[|words| - 1]| - 1]
  {
    if |words| > 1 {
      WordsTail(words);
      JoinEnds(words[1..]);
    }
  }

  /** Collapsing passes over a word unchanged. */
  lemma {:induction false} CollapseWordPrefix(w: string, t: string)
    requires forall j :: 0 <= j < |w| ==> !IsSpace(w[j])
    ensures Collapse(w + t) == w + Collapse(t)
  {
    if |w| > 0 {
      var wt := w + t;
      assert wt[0] == w[0] && !IsSpace(wt[0]);
      assert wt[1..] == w[1..] + t;
      assert Collapse(wt) == [w[0]] + Collapse(w[1..] + t);
      CollapseWordPrefix(w[1..], t);
      assert w == [w[0]] + w[1..];
    } else {
      assert w + t == t;
    }
  }

  /** A single space before a word stays a single space. */
  lemma CollapseSpaceBefore(t: string)
    requires t == [] || !IsSpace(t[0])
    ensures Collapse(" " + t) == " " + Collapse(t)
  {
    assert (" " + t)[1..] == t;
    assert TrimStart(" " + t) == t;
  }

  /** Words joined by single spaces are already collapsed. */
  lemma {:induction false} CollapseJoin(words: seq<string>)
    requires |words| >= 1 && AreWords(words)
    ensures Collapse(Join(words, ' ')) == Join(words, ' ')
  {
    if |words| == 1 {
      CollapseWordPrefix(words[0], "");
      assert words[0] + "" == words[0];
    } else {
      var rest := Join(words[1..], ' ');
      WordsTail(words);
      CollapseJoin(words[1..]);
      JoinEnds(words[1..]);
      CollapseSpaceBefore(rest);
      CollapseWordPrefix(words[0], " " + rest);
      assert Join(words, ' ') == words[0] + (" " + rest);
    }
  }

  /** Words joined by single spaces segment back into the same words. */
  lemma SegmentsOfJoin(words: seq<string>)
    requires |words| >= 1 && AreWords(words)
    ensures Segments(Join(words, ' ')) == words
  {
    var line := Join(words, ' ');
    JoinEnds(words);
    assert TrimStart(line) == line;
    assert TrimEnd(line) == line;
    CollapseJoin(words);
    SplitJoin(words, ' ');
  }

  /** Only white space: what `\s` matches, character by character. */
  predicate AllSpace(s: string)
  {
    forall j :: 0 <= j < |s| ==> IsSpace(s[j])
  }

  /** Leading white space in front of a word is all that `trim()` drops there. */
  lemma {:induction false} TrimStartRun(s: string, t: string)
    requires AllSpace(s)
    requires t == [] || !IsSpace(t[0])
    ensures TrimStart(s + t) == t
  {
    if |s| > 0 {
      assert (s + t)[0] == s[0];
      assert (s + t)[1..] == s[1..] + t;
      TrimStartRun(s[1..], t);
    } else {
      assert s + t == t;
    }
  }

  /** Trailing white space after a word is all that `trim()` drops there. */
  lemma {:induction false} TrimEndRun(t: string, s: string)
    requires AllSpace(s)
    requires t == [] || !IsSpace(t[|t| - 1])
    ensures TrimEnd(t + s) == t
  {
    if |s| > 0 {
      assert (t + s)[|t + s| - 1] == s[|s| - 1];
      assert (t + s)[..|t + s| - 1] == t + s[..|s| - 1];
      TrimEndRun(t, s[..|s| - 1]);
    } else {
      assert t + s == t;
    }
  }

  /** A run of white space of any length and kind, before a word or the end,
      becomes a single ' '. */
  lemma CollapseRun(s: string, t: string)
    requires |s| > 0 && AllSpace(s)
    requires t == [] || !IsSpace(t[0])
    ensures Collapse(s + t) == " " + Collapse(t)
  {
    assert (s + t)[0] == s[0];
    TrimStartRun(s, t);
  }

  /** Words with a gap between each two: words[0] + gaps[0] + words[1] + ... */
  function Interleave(words: seq<string>, gaps: seq<string>): string
    requires |words| >= 1 && |gaps| == |words| - 1
  {
    if |words| == 1 then words[0] else words[0] + gaps[0] + Interleave(words[1..], gaps[1..])
  }

  /** Non-empty runs of white space. */
  predicate AreGaps(gaps: seq<string>)
  {
    forall i :: 0 <= i < |gaps| ==> |gaps[i]| > 0 && AllSpace(gaps[i])
  }

  /** The words after the first are words too. */
  lemma WordsTail(words: seq<string>)
    requires |words| >= 1 && AreWords(words)
    ensures AreWords(words[1..])
  {
    forall i | 0 <= i < |words[1..]|
      ensures |words[1..][i]| > 0
    {
      assert words[1..][i] == words[i + 1];
    }
  }

  /** The gaps after the first are gaps too. */
  lemma GapsTail(gaps: seq<string>)
    requires |gaps| >= 1 && AreGaps(gaps)
    ensures AreGaps(gaps[1..])
  {
    forall i | 0 <= i < |gaps[1..]|
      ensures |gaps[1..][i]| > 0
    {
      assert gaps[1..][i] == gaps[i + 1];
    }
  }

  /** An interleaving of words starts with the first word's first character
      and ends with the last word's last character. */
  lemma {:induction false} InterleaveEnds(words: seq<string>, gaps: seq<string>)
    requires |words| >= 1 && |gaps| == |words| - 1 && AreWords(words)
    ensures |Interleave(words, gaps)| > 0
    ensures Interleave(words, gaps)[0] == words[0][0]
    ensures Interleave(words, gaps)[|Interleave(words, gaps)| - 1] == words[|words| - 1][|words[|words| - 1]| - 1]
  {
    if |words| > 1 {
      WordsTail(words);
      InterleaveEnds(words[1..], gaps[1..]);
    }
  }

  /** A word followed by a gap and another word: the gap becomes one ' '. */
  lemma CollapseWordGap(w: string, g: string, rest: string)
    requires forall j :: 0 <= j < |w| ==> !IsSpace(w[j])
    requires |g| > 0 && AllSpace(g)
    requires rest == [] || !IsSpace(rest[0])
    ensures Collapse(w + (g + rest)) == w + (" " + Collapse(rest))
  {
    CollapseRun(g, rest);
    CollapseWordPrefix(w, g + rest);
  }

  /** Collapsing turns every gap between words into a single ' '. */
  lemma {:induction false} CollapseInterleave(words: seq<string>, gaps: seq<string>)
    requires |words| >= 1 && |gaps| == |words| - 1 && AreWords(words) && AreGaps(gaps)
    ensures Collapse(Interleave(words, gaps)) == Join(words, ' ')
  {
    var w := words[0];
    if |words| == 1 {
      assert Collapse(w + "") == w + Collapse("") by {
        assert forall j :: 0 <= j < |w| ==> !IsSpace(w[j]);
        CollapseWordPrefix(w, "");
      }
      assert w + "" == w;
    } else {
      var g := gaps[0];
      var rest := Interleave(words[1..], gaps[1..]);
      var joined := Join(words[1..], ' ');
      assert Collapse(rest) == joined by {
        WordsTail(words);
        GapsTail(gaps);
        CollapseInterleave(words[1..], gaps[1..]);
      }
      assert Collapse(w + (g + rest)) == w + (" " + Collapse(rest)) by {
        assert forall j :: 0 <= j < |w| ==> !IsSpace(w[j]);
        assert |g| > 0 && AllSpace(g);
        WordsTail(words);
        InterleaveEnds(words[1..], gaps[1..]);
        CollapseWordGap(w, g, rest);
      }
      assert Interleave(words, gaps) == w + (g + rest);
      assert Join(words, ' ') == w + (" " + joined);
    }
  }

  /** A line of words separated by any runs of white space, with or without
      white space at either end, segments into exactly those words. */
  lemma SegmentsOfSpacedWords(lead: string, words: seq<string>, gaps: seq<string>, trail: string)
    requires |words| >= 1 && |gaps| == |words| - 1 && AreWords(words) && AreGaps(gaps)
    requires AllSpace(lead) && AllSpace(trail)
    ensures Segments(lead + Interleave(words, gaps) + trail) == words
  {
    var body := Interleave(words, gaps);
    InterleaveEnds(words, gaps);
    assert lead + body + trail == lead + (body + trail);
    assert |body + trail| > 0 && (body + trail)[0] == body[0];
    TrimStartRun(lead, body + trail);
    TrimEndRun(body, trail);
    CollapseInterleave(words, gaps);
    SplitJoin(words, ' ');
  }

  /** Tabs between the fields of a face line separate words as spaces do. */
  lemma TabSeparatedFace()
    ensures Segments("f\t12\t3") == ["f", "12", "3"]
  {
    var words := ["f", "12", "3"];
    var gaps := ["\t", "\t"];
    assert Interleave(words[2..], gaps[2..]) == "3";
    assert Interleave(words[1..], gaps[1..]) == "12\t3";
    assert Interleave(words, gaps) == "f\t12\t3";
    assert "" + "f\t12\t3" + "" == "f\t12\t3";
    SegmentsOfSpacedWords("", words, gaps, "");
  }

  function IsDigit(c: char): bool { '0' <= c <= '9' }

  predicate AllDigits(s: string) { forall j :: 0 <= j < |s| ==> IsDigit(s[j]) }

  /** The regular expression `-?\d+`. */
  predicate IsInt(s: string)
  {
    if |s| > 0 && s[0] == '-' then |s| > 1 && AllDigits(s[1..]) else |s| > 0 && AllDigits(s)
  }

  /** The regular expression `-?\d*`. */
  predicate IsOptInt(s: string)
  {
    if |s| > 0 && s[0] == '-' then AllDigits(s[1..]) else AllDigits(s)
  }

  /** The decimal value of a digit string. */
  function DigitsValue(s: string): (n: nat)
    requires AllDigits(s)
  {
    if |s| == 0 then 0 else DigitsValue(s[..|s| - 1]) * 10 + (s[|s| - 1] as int - '0' as int)
  }

  /** The integer a `-?\d+` token denotes. */
  function IntValue(s: string): int
    requires IsInt(s)
  {
    if s[0] == '-' then -(DigitsValue(s[1..]) as int) else DigitsValue(s)
  }

  /** `faceSegmentRegex`, /^-?\d+((\/-?\d+)|(\/-?\d*\/-?\d+))?$/, read on the
      '/'-separated fields of the token. */
  predicate IsFaceSegment(t: string)
  {
    var f := SplitOn(t, '/');
    (|f| == 1 && IsInt(f[0])) ||
    (|f| == 2 && IsInt(f[0]) && IsInt(f[1])) ||
    (|f| == 3 && IsInt(f[0]) && IsOptInt(f[1]) && IsInt(f[2]))
  }

  /** `fsVreg`, /^-?\d+$/: a vertex index alone. */
  predicate IsV(t: string)
  {
    var f := SplitOn(t, '/');
    |f| == 1 && IsInt(f[0])
  }

  /** `fsVTreg`, /^-?\d+\/-?\d+$/: vertex and texture indices. */
  predicate IsVT(t: string)
  {
    var f := SplitOn(t, '/');
    |f| == 2 && IsInt(f[0]) && IsInt(f[1])
  }

  /** `fsVTNreg`, /^-?\d+\/-?\d+\/-?\d+$/: vertex, texture and normal indices. */
  predicate IsVTN(t: string)
  {
    var f := SplitOn(t, '/');
    |f| == 3 && IsInt(f[0]) && IsInt(f[1]) && IsInt(f[2])
  }

  /** `fsVNreg`, /^-?\d+\/\/-?\d+$/: vertex and normal indices. */
  predicate IsVN(t: string)
  {
    var f := SplitOn(t, '/');
    |f| == 3 && IsInt(f[0]) && f[1] == "" && IsInt(f[2])
  }

  /** The four type expressions all lie inside faceSegmentRegex; what it
      accepts beyond them is exactly a middle field "-", as in "1/-/2". A token
      it accepts that is neither V nor VT has a third field. */
  lemma FaceSegmentClasses(t: string)
    ensures IsV(t) || IsVT(t) || IsVTN(t) || IsVN(t) ==> IsFaceSegment(t)
    ensures IsFaceSegment(t) && !(IsV(t) || IsVT(t) || IsVTN(t) || IsVN(t)) <==>
      (var f := SplitOn(t, '/'); |f| == 3 && IsInt(f[0]) && f[1] == "-" && IsInt(f[2]))
    ensures IsFaceSegment(t) && !IsV(t) && !IsVT(t) ==> |SplitOn(t, '/')| == 3
  {
    var f := SplitOn(t, '/');
    if |f| == 3 && IsOptInt(f[1]) && f[1] != "" && f[1] != "-" {
      assert IsInt(f[1]);
    }
  }

  /** "1/-/2" passes faceSegmentRegex but none of the four type expressions. */
  lemma DashMiddleField()
    ensures IsFaceSegment("1/-/2")
    ensures !IsV("1/-/2") && !IsVT("1/-/2") && !IsVTN("1/-/2") && !IsVN("1/-/2")
  {
    DashFields();
    assert IsInt("1") && IsInt("2") && IsOptInt("-") && !IsInt("-");
  }

  /** The '/'-separated fields of "1/-/2". */
  lemma DashFields()
    ensures SplitOn("1/-/2", '/') == ["1", "-", "2"]
  {
    DashTailFields();
    SplitPrefix("1", "-/2", '/');
    assert "1" + ['/'] + "-/2" == "1/-/2";
  }

  lemma DashTailFields()
    ensures SplitOn("-/2", '/') == ["-", "2"]
  {
    SplitPlain("2", '/');
    SplitPrefix("-", "2", '/');
    assert "-" + ['/'] + "2" == "-/2";
  }
}
