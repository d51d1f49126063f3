/** The `Content-Range` header of a partial response, as the backend prints it and the browser code reads it. */
module ContentRange {
  import opened Wrappers
  import opened Decimal

  function Format(start: nat, end: nat, total: nat): string {
    "bytes " + Print(start) + "-" + Print(end) + "/" + Print(total)
  }

  /** White space in the sense of the browser's regular expressions. */
  predicate IsSpace(c: char) {
    || '\t' <= c <= '\r' || c == ' ' || c == '\U{a0}' || c == '\U{1680}' || '\U{2000}' <= c <= '\U{200a}'
    || c == '\U{2028}' || c == '\U{2029}' || c == '\U{202f}' || c == '\U{205f}' || c == '\U{3000}' || c == '\U{feff}'
  }

  function Lower(c: char): char {
    if 'A' <= c <= 'Z' then ((c as int - 'A' as int) + 'a' as int) as char else c
  }

  function Lowered(s: string): string {
    seq(|s|, i requires 0 <= i < |s| => Lower(s[i]))
  }

  /** The leading characters that satisfy `p`. */
  function Span(s: string, p: char -> bool): (n: nat)
    ensures n <= |s| && (forall i :: 0 <= i < n ==> p(s[i])) && (n < |s| ==> !p(s[n]))
  {
    if s == [] || !p(s[0]) then 0 else 1 + Span(s[1..], p)
  }

  /** A nonempty run of digits, and what follows it. */
  function TakeDigits(s: string): (r: Option<(string, string)>)
    ensures r.Some? ==> r.value.0 + r.value.1 == s && r.value.0 != [] && AllDigits(r.value.0)
  {
    var n := Span(s, IsDigit);
    if n == 0 then None else Some((s[..n], s[n..]))
  }

  function TakeChar(s: string, c: char): Option<string> {
    if s != [] && s[0] == c then Some(s[1..]) else None
  }

  /** Matches `bytes`, white space, digits, `-`, digits, `/`, digits, and the end; the last number is the total. */
  function ParseTotal(header: string): Option<nat> {
    if |header| < 5 || Lowered(header[..5]) != "bytes" then None
    else
      var spaces := Span(header[5..], IsSpace);
      if spaces == 0 then None
      else
        var start := TakeDigits(header[5 + spaces..]);
        if start.None? then None
        else
          var dash := TakeChar(start.value.1, '-');
          if dash.None? then None
          else
            var end := TakeDigits(dash.value);
            if end.None? then None
            else
              var slash := TakeChar(end.value.1, '/');
              if slash.None? then None
              else
                var total := TakeDigits(slash.value);
                if total.None? || total.value.1 != [] then None else Some(Read(total.value.0))
  }

  /** The header written out as a match of the expression. */
  predicate Matches(header: string, unit: string, space: string, start: string, end: string, total: string) {
    && header == unit + space + start + "-" + end + "/" + total
    && |unit| == 5 && Lowered(unit) == "bytes"
    && space != [] && (forall i :: 0 <= i < |space| ==> IsSpace(space[i]))
    && start != [] && AllDigits(start) && end != [] && AllDigits(end) && total != [] && AllDigits(total)
  }

  lemma {:induction false} SpanExact(s: string, rest: string, p: char -> bool)
    requires (forall i :: 0 <= i < |s| ==> p(s[i])) && (rest == [] || !p(rest[0]))
    ensures Span(s + rest, p) == |s|
    decreases |s|
  {
    if s == [] {
      assert s + rest == rest;
    } else {
      assert (s + rest)[1..] == s[1..] + rest;
      SpanExact(s[1..], rest, p);
    }
  }

  lemma TakeDigitsExact(digits: string, rest: string)
    requires digits != [] && AllDigits(digits) && (rest == [] || !IsDigit(rest[0]))
    ensures TakeDigits(digits + rest) == Some((digits, rest))
  {
    SpanExact(digits, rest, IsDigit);
    assert (digits + rest)[..|digits|] == digits && (digits + rest)[|digits|..] == rest;
  }

  /** Every match is found, and its total is read. */
  lemma MatchRead(header: string, unit: string, space: string, start: string, end: string, total: string)
    requires Matches(header, unit, space, start, end, total)
    ensures ParseTotal(header) == Some(Read(total))
  {
    hide TakeDigits, Read;
    var afterEnd := "/" + total;
    var afterStart := "-" + (end + afterEnd);
    var afterSpace := start + afterStart;
    assert header == unit + (space + afterSpace);
    assert header[..5] == unit && header[5..] == space + afterSpace;
    SpanExact(space, afterSpace, IsSpace);
    assert header[5 + |space|..] == afterSpace;
    TakeDigitsExact(start, afterStart);
    assert afterStart[1..] == end + afterEnd;
    TakeDigitsExact(end, afterEnd);
    assert afterEnd[1..] == total;
    TakeDigitsExact(total, []);
    assert total + [] == total;
  }

  /** Only matches are accepted. */
  lemma ReadIsMatch(header: string) returns (unit: string, space: string, start: string, end: string, total: string)
    requires ParseTotal(header).Some?
    ensures Matches(header, unit, space, start, end, total) && ParseTotal(header) == Some(Read(total))
  {
    hide Span, TakeDigits, Read, Lowered, AllDigits, IsSpace;
    var spaces := Span(header[5..], IsSpace);
    unit, space := header[..5], header[5..5 + spaces];
    var first := TakeDigits(header[5 + spaces..]).value;
    start := first.0;
    var second := TakeDigits(first.1[1..]).value;
    end := second.0;
    var third := TakeDigits(second.1[1..]).value;
    total := third.0;
    Reassemble(header, unit, space, start, first.1, end, second.1, total);
  }

  lemma Reassemble(header: string, unit: string, space: string, start: string, dash: string, end: string, slash: string,
                   total: string)
    requires |header| >= 5 + |space| && unit == header[..5] && space == header[5..5 + |space|]
    requires start + dash == header[5 + |space|..] && dash != [] && dash[0] == '-'
    requires end + slash == dash[1..] && slash != [] && slash[0] == '/' && slash[1..] == total
    ensures header == unit + space + start + "-" + end + "/" + total
  {
    assert header == unit + space + header[5 + |space|..];
    assert dash == "-" + dash[1..] && slash == "/" + slash[1..];
  }

  /** What the backend prints, the browser reads back. */
  lemma RoundTrip(start: nat, end: nat, total: nat)
    ensures ParseTotal(Format(start, end, total)) == Some(total)
  {
    var unit, space := "bytes", " ";
    assert "bytes " == unit + space;
    assert Lowered(unit) == "bytes";
    assert IsSpace(' ');
    MatchRead(Format(start, end, total), unit, space, Print(start), Print(end), Print(total));
    ReadPrint(total);
  }

  /** The printed header names the first and the last byte and the total, in this order. */
  lemma FormatNamesRange(start: nat, end: nat, total: nat)
    ensures Matches(Format(start, end, total), "bytes", " ", Print(start), Print(end), Print(total))
    ensures Read(Print(start)) == start && Read(Print(end)) == end && Read(Print(total)) == total
  {
    assert "bytes " == "bytes" + " ";
    assert Lowered("bytes") == "bytes";
    assert IsSpace(' ');
    ReadPrint(start);
    ReadPrint(end);
    ReadPrint(total);
  }
}
