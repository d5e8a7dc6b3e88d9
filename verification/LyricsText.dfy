/**
 Text as Unicode scalar values: UTF-8 lengths, trimming, searching, and physical lines. Line
 endings are normalized before the text is split, and a final line feed ends the last line
 without starting another; splitting on line feeds and joining with them undo each other, which
 is how a text block is read back as the lines it was made of.
 */
module LyricsText {
  import opened Wrappers

  // ---- characters ------------------------------------------------------

  function Utf8Len(s: string): nat {
    if s == "" then 0 else CharLen(s[0]) + Utf8Len(s[1..])
  }

  /** Bytes of one scalar value in UTF-8. */
  function CharLen(c: char): nat {
    if c as int < 0x80 then 1 else if c as int < 0x800 then 2 else if c as int < 0x10000 then 3 else 4
  }

  predicate AsciiSpace(c: char) {
    c in {' ', '\t', '\n', '\r'} || c as int == 0x0C
  }

  /** Unicode White_Space. */
  predicate Space(c: char) {
    var u := c as int;
    || 0x09 <= u <= 0x0D || u == 0x20 || u == 0x85 || u == 0xA0 || u == 0x1680 || 0x2000 <= u <= 0x200A
    || u == 0x2028 || u == 0x2029 || u == 0x202F || u == 0x205F || u == 0x3000
  }

  predicate Digit(c: char) {
    '0' <= c <= '9'
  }

  predicate Digits(s: string) {
    forall k :: 0 <= k < |s| ==> Digit(s[k])
  }

  function Lower(s: string): (r: string)
    ensures |r| == |s|
  {
    seq(|s|, k requires 0 <= k < |s| => if 'A' <= s[k] <= 'Z' then (s[k] as int + 32) as char else s[k])
  }

  // ---- trimming --------------------------------------------------------

  function TrimStart(s: string, space: char -> bool): string {
    if s != "" && space(s[0]) then TrimStart(s[1..], space) else s
  }

  function TrimEnd(s: string, space: char -> bool): string {
    if s != "" && space(s[|s| - 1]) then TrimEnd(s[..|s| - 1], space) else s
  }

  /** The start is trimmed of its longest run of spaces. */
  lemma {:induction false} TrimStartExact(s: string, space: char -> bool)
    ensures var r := TrimStart(s, space);
      && |r| <= |s| && r == s[|s| - |r|..]
      && (r != "" ==> !space(r[0]))
      && forall k :: 0 <= k < |s| - |r| ==> space(s[k])
  {
    if s != "" && space(s[0]) {
      TrimStartExact(s[1..], space);
      assert s == [s[0]] + s[1..];
    }
  }

  /** So is the end. */
  lemma {:induction false} TrimEndExact(s: string, space: char -> bool)
    ensures var r := TrimEnd(s, space);
      && |r| <= |s| && r == s[..|r|]
      && (r != "" ==> !space(r[|r| - 1]))
      && forall k :: |r| <= k < |s| ==> space(s[k])
  {
    if s != "" && space(s[|s| - 1]) {
      TrimEndExact(s[..|s| - 1], space);
    }
  }

  function Trim(s: string, space: char -> bool): string {
    TrimEnd(TrimStart(s, space), space)
  }

  // ---- searching -------------------------------------------------------

  /** The first occurrence of a character. */
  function Find(s: string, c: char): (r: Option<nat>)
    ensures r.Some? ==> r.value < |s| && s[r.value] == c && c !in s[..r.value]
    ensures r.None? ==> c !in s
  {
    if s == "" then None
    else if s[0] == c then Some(0)
    else
      var r := Find(s[1..], c);
      assert s == [s[0]] + s[1..];
      if r.None? then None else
        assert s[..r.value + 1] == [s[0]] + s[1..][..r.value];
        Some(r.value + 1)
  }

  /** The first occurrence is where a prefix free of the character ends. */
  lemma {:induction false} FindAfter(a: string, c: char, b: string)
    requires c !in a
    ensures Find(a + [c] + b, c) == Some(|a|)
  {
    var s := a + [c] + b;
    if a != "" {
      FindAfter(a[1..], c, b);
      assert s[1..] == a[1..] + [c] + b && a[0] in a;
    }
  }

  lemma FindNone(s: string, c: char)
    requires c !in s
    ensures Find(s, c).None?
  {}

  // ---- physical lines --------------------------------------------------

  /** CRLF and CR become LF. */
  function Normalize(s: string): (r: string)
    ensures '\r' !in r
  {
    if s == "" then ""
    else if s[0] == '\r' then
      if |s| > 1 && s[1] == '\n' then "\n" + Normalize(s[2..]) else "\n" + Normalize(s[1..])
    else [s[0]] + Normalize(s[1..])
  }

  /** The pieces between line feeds, one more than there are. */
  function SplitLf(s: string): (r: seq<string>)
    ensures |r| >= 1
    ensures forall k :: 0 <= k < |r| ==> '\n' !in r[k]
  {
    match Find(s, '\n')
    case None => [s]
    case Some(k) => [s[..k]] + SplitLf(s[k + 1..])
  }

  /** Physical lines: a final line feed ends the last line and starts none. */
  function Lines(s: string): (r: seq<string>)
    ensures forall k :: 0 <= k < |r| ==> '\n' !in r[k]
  {
    var r := SplitLf(s);
    if r[|r| - 1] == "" then r[..|r| - 1] else r
  }

  function Join(lines: seq<string>): string {
    if lines == [] then ""
    else if |lines| == 1 then lines[0]
    else lines[0] + "\n" + Join(lines[1..])
  }

  /** Splitting undoes joining. */
  lemma {:induction false} SplitJoin(lines: seq<string>)
    requires lines != [] && forall k :: 0 <= k < |lines| ==> '\n' !in lines[k]
    ensures SplitLf(Join(lines)) == lines
  {
    var s := Join(lines);
    if |lines| > 1 {
      FindAfter(lines[0], '\n', Join(lines[1..]));
      assert s == lines[0] + ['\n'] + Join(lines[1..]);
      assert s[|lines[0]| + 1..] == Join(lines[1..]) && s[..|lines[0]|] == lines[0];
      SplitJoin(lines[1..]);
      assert lines == [lines[0]] + lines[1..];
    } else {
      FindNone(lines[0], '\n');
      assert lines == [lines[0]];
    }
  }

  lemma {:induction false} JoinAppend(a: seq<string>, b: seq<string>)
    requires a != [] && b != []
    ensures Join(a + b) == Join(a) + "\n" + Join(b)
  {
    if |a| > 1 {
      assert (a + b)[1..] == a[1..] + b;
      JoinAppend(a[1..], b);
      assert Join(a) == a[0] + "\n" + Join(a[1..]);
    } else {
      assert (a + b)[1..] == b;
    }
  }

  /** Every line with a line feed after it. */
  function Terminated(lines: seq<string>): string {
    if lines == [] then "" else lines[0] + "\n" + Terminated(lines[1..])
  }

  lemma {:induction false} TerminatedSnoc(lines: seq<string>, last: string)
    ensures Terminated(lines + [last]) == Terminated(lines) + last + "\n"
  {
    if lines == [] {
      assert (lines + [last])[1..] == [];
    } else {
      assert (lines + [last])[1..] == lines[1..] + [last];
      TerminatedSnoc(lines[1..], last);
      assert lines[0] + "\n" + (Terminated(lines[1..]) + last + "\n") == Terminated(lines) + last + "\n";
    }
  }

  lemma {:induction false} SplitTerminated(s: string)
    ensures Terminated(SplitLf(s)) == s + "\n"
    ensures SplitLf(s)[|SplitLf(s)| - 1] == "" <==> s == "" || s[|s| - 1] == '\n'
    decreases |s|
  {
    var f := Find(s, '\n');
    if f.None? {
      assert [s][1..] == [];
      assert s != "" ==> s[|s| - 1] in s;
    } else {
      var head, tail := s[..f.value], s[f.value + 1..];
      SplitTerminated(tail);
      assert s == head + "\n" + tail;
      SplitFirst(s, head, tail);
      hide SplitLf, Find;
      assert head + "\n" + (tail + "\n") == head + "\n" + tail + "\n";
      LastOf(head, SplitLf(tail));
    }
  }

  lemma SplitFirst(s: string, head: string, tail: string)
    requires Find(s, '\n').Some? && head == s[..Find(s, '\n').value] && tail == s[Find(s, '\n').value + 1..]
    ensures SplitLf(s) == [head] + SplitLf(tail)
  {}

  lemma LastOf(head: string, rest: seq<string>)
    requires rest != []
    ensures ([head] + rest)[|rest|] == rest[|rest| - 1] && Terminated([head] + rest) == head + "\n" + Terminated(rest)
  {
    assert ([head] + rest)[1..] == rest;
  }

  /** Lines hold no line feed, and one after each gives the text back, its own last line feed included. */
  lemma LinesExact(s: string)
    ensures forall k :: 0 <= k < |Lines(s)| ==> '\n' !in Lines(s)[k]
    ensures Terminated(Lines(s)) == if s == "" || s[|s| - 1] == '\n' then s else s + "\n"
  {
    hide SplitLf;
    SplitTerminated(s);
    var r := SplitLf(s);
    var n := |r| - 1;
    assert r == r[..n] + [r[n]];
    TerminatedSnoc(r[..n], r[n]);
    if r[n] == "" {
      assert Terminated(r[..n]) + "" + "\n" == s + "\n";
      assert (Terminated(r[..n]) + "\n")[..|s|] == (s + "\n")[..|s|];
    }
  }

  // ---- line endings do not matter --------------------------------------

  /** Every LF written as CRLF. */
  function Crlf(s: string): string {
    if s == "" then "" else (if s[0] == '\n' then "\r\n" else [s[0]]) + Crlf(s[1..])
  }

  /** Every LF written as CR. */
  function Cr(s: string): string {
    if s == "" then "" else (if s[0] == '\n' then "\r" else [s[0]]) + Cr(s[1..])
  }

  lemma {:induction false} NormalizeCrlf(s: string)
    requires '\r' !in s
    ensures Normalize(Crlf(s)) == s && Normalize(s) == s
  {
    if s != "" {
      var c, t := s[0], Crlf(s[1..]);
      NormalizeCrlf(s[1..]);
      assert s == [c] + s[1..] && c in s;
      if c == '\n' {
        assert Crlf(s) == "\r\n" + t && ("\r\n" + t)[2..] == t;
      } else {
        assert Crlf(s) == [c] + t && ([c] + t)[1..] == t;
      }
    }
  }

  lemma {:induction false} NormalizeCr(s: string)
    requires '\r' !in s
    ensures Normalize(Cr(s)) == s
  {
    if s != "" {
      var c, t := s[0], Cr(s[1..]);
      NormalizeCr(s[1..]);
      assert s == [c] + s[1..] && c in s;
      if c == '\n' {
        assert Cr(s) == "\r" + t && ("\r" + t)[1..] == t;
        CrNotLf(s[1..]);
      } else {
        assert Cr(s) == [c] + t && ([c] + t)[1..] == t;
      }
    }
  }

  lemma CrNotLf(s: string)
    ensures Cr(s) != "" ==> Cr(s)[0] != '\n'
  {}
}
