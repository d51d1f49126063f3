/** The string operations that the crontab service relies on: trimming, splitting and joining. */
module CronText {
  import opened Wrappers

  /** The Unicode white space characters. */
  predicate IsSpace(c: char) {
    || '\t' <= c <= '\r' || c == ' ' || c == '\U{85}' || c == '\U{a0}' || c == '\U{1680}'
    || '\U{2000}' <= c <= '\U{200a}' || c == '\U{2028}' || c == '\U{2029}' || c == '\U{202f}' || c == '\U{205f}'
    || c == '\U{3000}'
  }

  function TrimStart(s: string): string {
    if s != [] && IsSpace(s[0]) then TrimStart(s[1..]) else s
  }

  function TrimEnd(s: string): string {
    if s != [] && IsSpace(s[|s| - 1]) then TrimEnd(s[..|s| - 1]) else s
  }

  function Trim(s: string): string { TrimEnd(TrimStart(s)) }

  /** Neither end of `s` is white space. */
  predicate Snug(s: string) {
    s == [] || (!IsSpace(s[0]) && !IsSpace(s[|s| - 1]))
  }

  /** Removes every leading repetition of `prefix`. */
  function TrimStartMatches(s: string, prefix: string): string
    requires prefix != []
  {
    if prefix <= s then TrimStartMatches(s[|prefix|..], prefix) else s
  }

  /** `at` is the position of the first occurrence of `pattern`, if there is one. */
  predicate FirstAt(s: string, pattern: string, at: Option<nat>) {
    if at.Some? then
      && at.value + |pattern| <= |s| && s[at.value..at.value + |pattern|] == pattern
      && forall j :: 0 <= j < at.value ==> !(pattern <= s[j..])
    else forall j :: 0 <= j <= |s| ==> !(pattern <= s[j..])
  }

  lemma TailSlice(s: string, i: nat, j: nat)
    requires s != [] && i <= j <= |s| - 1
    ensures s[1..][i..j] == s[i + 1..j + 1]
  {
  }

  lemma TailSuffix(s: string, j: nat)
    requires 1 <= j <= |s|
    ensures s[1..][j - 1..] == s[j..]
  {
  }

  lemma FirstAtLater(s: string, pattern: string, later: Option<nat>)
    requires s != [] && !(pattern <= s) && FirstAt(s[1..], pattern, later)
    ensures FirstAt(s, pattern, if later.Some? then Some(later.value + 1) else None)
  {
    if later.Some? { TailSlice(s, later.value, later.value + |pattern|); }
    var n := if later.Some? then later.value + 1 else |s| + 1;
    forall j | 0 <= j < n ensures !(pattern <= s[j..]) {
      if j > 0 { TailSuffix(s, j); } else { assert s[0..] == s; }
    }
  }

  function Find(s: string, pattern: string): (at: Option<nat>)
    ensures FirstAt(s, pattern, at)
  {
    if pattern <= s then Some(0)
    else if s == [] then None
    else
      var later := Find(s[1..], pattern);
      FirstAtLater(s, pattern, later);
      if later.Some? then Some(later.value + 1) else None
  }

  function SplitOnce(s: string, separator: string): Option<(string, string)> {
    var at := Find(s, separator);
    if at.None? then None else Some((s[..at.value], s[at.value + |separator|..]))
  }

  /** A maximal-word candidate: not empty and free of white space. */
  predicate IsWord(w: string) {
    w != [] && forall i :: 0 <= i < |w| ==> !IsSpace(w[i])
  }

  predicate AllWords(ws: seq<string>) {
    forall i :: 0 <= i < |ws| ==> IsWord(ws[i])
  }

  /** The leading characters of `s` that are not white space. */
  function FirstWord(s: string): (w: string)
    ensures w <= s && (w != [] ==> IsWord(w)) && (s != [] && !IsSpace(s[0]) ==> w != [])
    ensures |w| < |s| ==> IsSpace(s[|w|])
  {
    if s == [] || IsSpace(s[0]) then [] else [s[0]] + FirstWord(s[1..])
  }

  /** The words of `s`, in order. */
  function Words(s: string): (ws: seq<string>)
    ensures AllWords(ws)
    decreases |s|
  {
    if s == [] then []
    else if IsSpace(s[0]) then Words(s[1..])
    else [FirstWord(s)] + Words(s[|FirstWord(s)|..])
  }

  function Join(parts: seq<string>, separator: string): string {
    if parts == [] then ""
    else if |parts| == 1 then parts[0]
    else parts[0] + separator + Join(parts[1..], separator)
  }

  function Unwords(ws: seq<string>): string { Join(ws, " ") }

  // ---- trimming ----

  lemma {:induction false} TrimEndTail(s: string)
    ensures TrimEnd(s) <= s
    ensures TrimEnd(s) == [] || !IsSpace(TrimEnd(s)[|TrimEnd(s)| - 1])
    decreases |s|
  {
    if s != [] && IsSpace(s[|s| - 1]) { TrimEndTail(s[..|s| - 1]); }
  }

  lemma {:induction false} TrimSnug(s: string)
    ensures Snug(Trim(s)) && |Trim(s)| <= |s|
    decreases |s|
  {
    if s != [] && IsSpace(s[0]) {
      TrimSnug(s[1..]);
    } else {
      TrimEndTail(s);
    }
  }

  lemma SnugTrim(s: string)
    requires Snug(s)
    ensures Trim(s) == s
  {
  }

  // ---- words ----

  lemma {:induction false} FirstWordWhole(w: string, tail: string)
    requires IsWord(w) && (tail == [] || IsSpace(tail[0]))
    ensures FirstWord(w + tail) == w
    decreases |w|
  {
    assert (w + tail)[1..] == w[1..] + tail;
    if |w| > 1 { FirstWordWhole(w[1..], tail); }
  }

  /** Space separates: the words of two texts joined by a space are the words of the first, then of the second. */
  lemma {:induction false} WordsAppend(a: string, c: char, b: string)
    requires IsSpace(c)
    ensures Words(a + [c] + b) == Words(a) + Words(b)
    decreases |a|
  {
    var s := a + [c] + b;
    if a == [] {
      assert s[1..] == b;
    } else if IsSpace(a[0]) {
      assert s[1..] == a[1..] + [c] + b;
      WordsAppend(a[1..], c, b);
    } else {
      var w := FirstWord(a);
      var tail := a[|w|..] + [c] + b;
      assert s == w + tail && a == w + a[|w|..];
      FirstWordWhole(w, tail);
      assert s[|w|..] == tail;
      WordsAppend(a[|w|..], c, b);
    }
  }

  lemma WordsOfWord(w: string)
    requires IsWord(w)
    ensures Words(w) == [w]
  {
    FirstWordWhole(w, []);
    assert w + [] == w && w[|w|..] == [];
  }

  lemma {:induction false} WordsUnwords(ws: seq<string>)
    requires AllWords(ws)
    ensures Words(Unwords(ws)) == ws
    decreases |ws|
  {
    if |ws| == 1 {
      WordsOfWord(ws[0]);
    } else if |ws| > 1 {
      WordsAppend(ws[0], ' ', Unwords(ws[1..]));
      WordsOfWord(ws[0]);
      WordsUnwords(ws[1..]);
    }
  }

  lemma {:induction false} UnwordsAppend(a: seq<string>, b: seq<string>)
    requires a != [] && b != []
    ensures Unwords(a + b) == Unwords(a) + " " + Unwords(b)
    decreases |a|
  {
    assert (a + b)[1..] == a[1..] + b;
    if |a| > 1 { UnwordsAppend(a[1..], b); }
  }

  lemma {:induction false} UnwordsSnug(ws: seq<string>)
    requires AllWords(ws)
    ensures Snug(Unwords(ws)) && (ws != [] ==> Unwords(ws) != [] && Unwords(ws)[0] == ws[0][0])
    ensures '\n' !in Unwords(ws)
    decreases |ws|
  {
    if |ws| > 1 { UnwordsSnug(ws[1..]); }
    if |ws| > 0 { assert '\n' !in ws[0]; }
  }

  lemma {:induction false} WordsTrimEnd(s: string)
    ensures Words(TrimEnd(s)) == Words(s)
    decreases |s|
  {
    if s != [] && IsSpace(s[|s| - 1]) {
      WordsTrimEnd(s[..|s| - 1]);
      assert s == s[..|s| - 1] + [s[|s| - 1]] + [];
      WordsAppend(s[..|s| - 1], s[|s| - 1], []);
    }
  }

  lemma {:induction false} WordsTrimStart(s: string)
    ensures Words(TrimStart(s)) == Words(s)
    decreases |s|
  {
    if s != [] && IsSpace(s[0]) { WordsTrimStart(s[1..]); }
  }

  lemma WordsTrim(s: string)
    ensures Words(Trim(s)) == Words(s)
  {
    WordsTrimStart(s);
    WordsTrimEnd(TrimStart(s));
  }

  /** A text has words exactly when trimming leaves something, and its first word starts where the trimmed text does. */
  lemma {:induction false} WordsStart(s: string)
    ensures (Words(s) == [] <==> Trim(s) == []) && (Words(s) != [] ==> Trim(s)[0] == Words(s)[0][0])
    decreases |s|
  {
    if s != [] && IsSpace(s[0]) {
      WordsStart(s[1..]);
    } else if s != [] {
      TrimEndTail(s);
      TrimEndKeepsFirst(s);
    }
  }

  lemma {:induction false} TrimEndKeepsFirst(s: string)
    requires s != [] && !IsSpace(s[0])
    ensures TrimEnd(s) != [] && TrimEnd(s)[0] == s[0]
    decreases |s|
  {
    if IsSpace(s[|s| - 1]) { TrimEndKeepsFirst(s[..|s| - 1]); }
  }

  // ---- lines ----

  function LineEnd(s: string): (n: nat)
    ensures n <= |s| && '\n' !in s[..n] && (n < |s| ==> s[n] == '\n')
  {
    if s == [] || s[0] == '\n' then 0
    else
      var n := LineEnd(s[1..]);
      assert s[..n + 1] == [s[0]] + s[1..][..n];
      n + 1
  }

  function StripReturn(s: string): string {
    if s != [] && s[|s| - 1] == '\r' then s[..|s| - 1] else s
  }

  /** The lines of `s`; a final line end is optional, and a carriage return before a line end belongs to it. */
  function Lines(s: string): seq<string>
    decreases |s|
  {
    if s == [] then []
    else
      var n := LineEnd(s);
      if n == |s| then [s] else [StripReturn(s[..n])] + Lines(s[n + 1..])
  }

  /** A line that is read back as it was written. */
  predicate PlainLine(line: string) {
    '\n' !in line && StripReturn(line) == line
  }

  predicate PlainLines(lines: seq<string>) {
    forall i :: 0 <= i < |lines| ==> PlainLine(lines[i])
  }

  /** Every line followed by a line end. */
  function Terminated(lines: seq<string>): string {
    if lines == [] then "" else lines[0] + "\n" + Terminated(lines[1..])
  }

  lemma {:induction false} JoinTerminated(lines: seq<string>)
    requires lines != []
    ensures Join(lines, "\n") + "\n" == Terminated(lines)
    decreases |lines|
  {
    if |lines| > 1 { JoinTerminated(lines[1..]); }
  }

  lemma {:induction false} LineEndAt(a: string, b: string)
    requires '\n' !in a
    ensures LineEnd(a + "\n" + b) == |a|
    decreases |a|
  {
    if a != [] {
      assert (a + "\n" + b)[1..] == a[1..] + "\n" + b;
      LineEndAt(a[1..], b);
    }
  }

  lemma LinesStep(a: string, b: string)
    requires '\n' !in a
    ensures Lines(a + "\n" + b) == [StripReturn(a)] + Lines(b)
  {
    LineEndAt(a, b);
    assert (a + "\n" + b)[..|a|] == a && (a + "\n" + b)[|a| + 1..] == b;
  }

  lemma TerminatedCons(lines: seq<string>, rest: string)
    requires lines != []
    ensures Terminated(lines) + rest == lines[0] + "\n" + (Terminated(lines[1..]) + rest)
  {
  }

  lemma ConsAppend<T>(x: T, xs: seq<T>, ys: seq<T>, whole: seq<T>)
    requires whole == [x] + xs
    ensures [x] + (xs + ys) == whole + ys
  {
  }

  lemma {:induction false} LinesTerminated(lines: seq<string>, rest: string)
    requires PlainLines(lines)
    ensures Lines(Terminated(lines) + rest) == lines + Lines(rest)
    decreases |lines|
  {
    hide Lines, StripReturn;
    if lines == [] {
      assert Terminated(lines) + rest == rest;
    } else {
      assert PlainLine(lines[0]) && StripReturn(lines[0]) == lines[0];
      TerminatedCons(lines, rest);
      LinesStep(lines[0], Terminated(lines[1..]) + rest);
      LinesTerminated(lines[1..], rest);
      ConsAppend(lines[0], lines[1..], Lines(rest), lines);
    }
  }

  predicate NoBreaks(lines: seq<string>) {
    forall i :: 0 <= i < |lines| ==> '\n' !in lines[i]
  }

  /** The lines as they are read back: each without one carriage return at its end. */
  function Stripped(lines: seq<string>): (r: seq<string>)
    ensures |r| == |lines|
    ensures NoBreaks(lines) ==> (r == lines <==> PlainLines(lines))
  {
    seq(|lines|, i requires 0 <= i < |lines| => StripReturn(lines[i]))
  }

  lemma {:induction false} LinesStripped(lines: seq<string>, rest: string)
    requires NoBreaks(lines)
    ensures Lines(Terminated(lines) + rest) == Stripped(lines) + Lines(rest)
    decreases |lines|
  {
    hide Lines, StripReturn;
    if lines == [] {
      assert Terminated(lines) + rest == rest && Stripped(lines) == [];
    } else {
      assert '\n' !in lines[0];
      TerminatedCons(lines, rest);
      LinesStep(lines[0], Terminated(lines[1..]) + rest);
      LinesStripped(lines[1..], rest);
      ConsAppend(StripReturn(lines[0]), Stripped(lines[1..]), Lines(rest), Stripped(lines));
    }
  }

  lemma {:induction false} TerminatedAppend(a: seq<string>, b: seq<string>)
    ensures Terminated(a + b) == Terminated(a) + Terminated(b)
    decreases |a|
  {
    if a == [] {
      assert a + b == b;
    } else {
      assert (a + b)[1..] == a[1..] + b;
      TerminatedAppend(a[1..], b);
    }
  }

  lemma {:induction false} LinesHaveNoNewline(s: string)
    ensures forall i :: 0 <= i < |Lines(s)| ==> '\n' !in Lines(s)[i]
    decreases |s|
  {
    if s != [] && LineEnd(s) < |s| { LinesHaveNoNewline(s[LineEnd(s) + 1..]); }
  }

  // ---- prefixes ----

  lemma FindPast(a: string, pattern: string, b: string)
    requires pattern != [] && Find(a, pattern).None?
    requires forall i :: 1 <= i < |pattern| ==> pattern[i] != pattern[0]
    ensures Find(a + pattern + b, pattern) == Some(|a|)
  {
    hide Find;
    var s := a + pattern + b;
    assert s[|a|..] == pattern + b;
    forall i | 0 <= i < |a| ensures !(pattern <= s[i..]) {
      if i + |pattern| <= |a| {
        assert s[i..][..|pattern|] == a[i..][..|pattern|];
        assert !(pattern <= a[i..]);
      } else {
        assert s[i..][|a| - i] == pattern[0];
        assert pattern[|a| - i] != pattern[0];
      }
    }
    var at := Find(s, pattern);
    assert at.Some? && at.value <= |a|;
    assert s[at.value..][..|pattern|] == s[at.value..at.value + |pattern|];
  }
}
