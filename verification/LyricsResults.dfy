/** What parsing an LRC document keeps, when it succeeds, and which line is active. */
module LyricsResults {
  import opened Wrappers
  import opened LyricsText
  import opened Lyrics

  // ---- timestamps ------------------------------------------------------

  /** The text `minutes:seconds` with an optional fraction. */
  function TimestampText(minutes: string, seconds: string, fraction: Option<string>): string {
    minutes + ":" + seconds + if fraction.Some? then "." + fraction.value else ""
  }

  /** The timestamp grammar. */
  predicate WellTimed(minutes: string, seconds: string, fraction: Option<string>) {
    && minutes != "" && Digits(minutes)
    && |seconds| == 2 && Digits(seconds) && Value(seconds) <= 59
    && (fraction.Some? ==> Digits(fraction.value) && |fraction.value| in {2, 3})
  }

  function Millis(minutes: string, seconds: string, fraction: Option<string>): nat
    requires WellTimed(minutes, seconds, fraction)
  {
    (Value(minutes) * 60 + Value(seconds)) * 1000 +
    if fraction.None? then 0 else if |fraction.value| == 2 then Value(fraction.value) * 10 else Value(fraction.value)
  }

  /** The checked steps fail exactly when the total exceeds a signed 64-bit integer. */
  lemma TotalExact(minutes: nat, seconds: nat, ms: nat)
    ensures Total(minutes, seconds, ms) == Within((minutes * 60 + seconds) * 1000 + ms, I64_MAX)
  {}

  lemma DigitsFree(s: string, c: char)
    requires Digits(s) && !Digit(c)
    ensures c !in s
  {}

  /** A well-formed timestamp parses to its milliseconds, or to none past 64 bits. */
  lemma ParsesText(minutes: string, seconds: string, fraction: Option<string>)
    requires WellTimed(minutes, seconds, fraction)
    ensures ParseTimestamp(TimestampText(minutes, seconds, fraction)) ==
      Within(Millis(minutes, seconds, fraction), I64_MAX)
  {
    hide Value, Find, Total;
    var rest := seconds + if fraction.Some? then "." + fraction.value else "";
    var token := TimestampText(minutes, seconds, fraction);
    DigitsFree(minutes, ':');
    DigitsFree(seconds, '.');
    FindAfter(minutes, ':', rest);
    assert token == minutes + [':'] + rest && token[..|minutes|] == minutes && token[|minutes| + 1..] == rest;
    if fraction.Some? {
      FindAfter(seconds, '.', fraction.value);
      assert rest == seconds + ['.'] + fraction.value && rest[..|seconds|] == seconds
        && rest[|seconds| + 1..] == fraction.value;
      TotalExact(Value(minutes), Value(seconds), FractionMs(fraction.value).value);
    } else {
      assert rest == seconds;
      FindNone(rest, '.');
      TotalExact(Value(minutes), Value(seconds), 0);
    }
  }

  /** Only well-formed timestamps parse. */
  lemma ParsesOnly(token: string) returns (minutes: string, seconds: string, fraction: Option<string>)
    requires ParseTimestamp(token).Some?
    ensures token == TimestampText(minutes, seconds, fraction) && WellTimed(minutes, seconds, fraction)
    ensures ParseTimestamp(token) == Some(Millis(minutes, seconds, fraction)) && ParseTimestamp(token).value <= I64_MAX
  {
    hide Value, Total, Find, TimestampText;
    var colon := Find(token, ':').value;
    var rest := token[colon + 1..];
    minutes := token[..colon];
    var dot := Find(rest, '.');
    seconds := if dot.Some? then rest[..dot.value] else rest;
    fraction := if dot.Some? then Some(rest[dot.value + 1..]) else None;
    Rejoined(token, colon, dot);
    TotalExact(Value(minutes), Value(seconds), if dot.Some? then FractionMs(fraction.value).value else 0);
  }

  /** A timestamp cut at its colon and its dot. */
  lemma Rejoined(token: string, colon: nat, dot: Option<nat>)
    requires colon < |token| && token[colon] == ':'
    requires dot.Some? ==> dot.value < |token| - colon - 1 && token[colon + 1 + dot.value] == '.'
    ensures var rest := token[colon + 1..];
      token == TimestampText(token[..colon], if dot.Some? then rest[..dot.value] else rest,
        if dot.Some? then Some(rest[dot.value + 1..]) else None)
  {
    var rest := token[colon + 1..];
    assert token == token[..colon] + ":" + rest;
    if dot.Some? {
      assert rest == rest[..dot.value] + ("." + rest[dot.value + 1..]);
      Reassociate(token[..colon] + ":", rest[..dot.value], "." + rest[dot.value + 1..]);
    } else {
      assert token[..colon] + ":" + rest + "" == token[..colon] + ":" + rest;
    }
  }

  /** Decimal digits of a number. */
  function Show(n: nat): (s: string)
    ensures s != "" && Digits(s) && Value(s) == n
  {
    if n < 10 then
      var s := [(n + '0' as int) as char];
      assert s[..0] == "";
      s
    else
      var init := Show(n / 10);
      var s := init + [(n % 10 + '0' as int) as char];
      assert s[..|s| - 1] == init;
      s
  }

  /** Exactly `width` digits. */
  function Padded(n: nat, width: nat): (s: string)
    requires n < Power(width)
    ensures |s| == width && Digits(s) && Value(s) == n
  {
    if width == 0 then "" else
      var init := Padded(n / 10, width - 1);
      var s := init + [(n % 10 + '0' as int) as char];
      assert s[..|s| - 1] == init;
      s
  }

  function Power(width: nat): nat {
    if width == 0 then 1 else 10 * Power(width - 1)
  }

  function ShowTimestamp(ms: nat): string {
    assert Power(2) == 100 && Power(3) == 1000;
    TimestampText(Show(ms / 60_000), Padded(ms / 1000 % 60, 2), Some(Padded(ms % 1000, 3)))
  }

  /** Every representable time has a timestamp that parses back to it. */
  lemma TimestampRoundTrip(ms: nat)
    ensures ParseTimestamp(ShowTimestamp(ms)) == Within(ms, I64_MAX)
    ensures TimestampShaped(ShowTimestamp(ms))
  {
    assert Power(2) == 100 && Power(3) == 1000;
    var minutes, seconds, fraction := Show(ms / 60_000), Padded(ms / 1000 % 60, 2), Padded(ms % 1000, 3);
    ParsesText(minutes, seconds, Some(fraction));
    Recombine(ms);
    var token := ShowTimestamp(ms);
    assert token[0] == minutes[0] && token[|minutes|] == ':';
  }

  lemma Recombine(ms: nat)
    ensures (ms / 60_000 * 60 + ms / 1000 % 60) * 1000 + ms % 1000 == ms
  {
    assert ms / 60_000 == ms / 1000 / 60;
  }

  // ---- offsets ---------------------------------------------------------

  /** An offset parses exactly when it is an optionally signed number within the bound. */
  lemma OffsetParses(sign: string, digits: string)
    requires sign in {"", "+", "-"} && digits != "" && Digits(digits)
    ensures ParseOffset(sign + digits) ==
      if Value(digits) > MAX_OFFSET_MS then None else Some(if sign == "-" then 0 - Value(digits) else Value(digits))
  {
    hide Value;
    var value := sign + digits;
    if sign == "" {
      assert value == digits && Digit(digits[0]);
    } else {
      assert value[1..] == digits && value[0] == sign[0];
    }
  }

  lemma OffsetParsesOnly(value: string) returns (sign: string, digits: string)
    requires ParseOffset(value).Some?
    ensures value == sign + digits && sign in {"", "+", "-"} && digits != "" && Digits(digits)
      && Value(digits) <= MAX_OFFSET_MS
  {
    sign := if value[0] == '-' then "-" else if value[0] == '+' then "+" else "";
    digits := if sign == "" then value else value[1..];
    assert value == sign + digits;
  }

  // ---- leading tokens --------------------------------------------------

  /** The tokens, bracketed again. */
  function Bracketed(tokens: seq<string>): string {
    if tokens == [] then "" else "[" + tokens[0] + "]" + Bracketed(tokens[1..])
  }

  /** The line is its tokens, bracketed, and the rest, which starts with no further token. */
  lemma {:induction false} TokensDecompose(line: string)
    ensures var s := LeadingTokens(line);
      && line == Bracketed(s.tokens) + s.rest
      && (forall k :: 0 <= k < |s.tokens| ==> ']' !in s.tokens[k])
      && (s.rest == "" || s.rest[0] != '[' || ']' !in s.rest)
    decreases |line|
  {
    hide LeadingTokens, Bracketed, Find;
    if line != "" && line[0] == '[' && ']' in line {
      FirstToken(line);
      var close := Find(line, ']').value;
      var token, tail := line[1..close], line[close + 1..];
      var more := LeadingTokens(tail);
      TokensDecompose(tail);
      Unbracket(line, close);
      BracketFirst(token, more.tokens);
      Reassociate("[" + token + "]", Bracketed(more.tokens), more.rest);
    } else {
      NoToken(line);
      NoBrackets();
    }
  }

  lemma NoBrackets()
    ensures Bracketed([]) == ""
  {}

  lemma BracketFirst(token: string, more: seq<string>)
    ensures Bracketed([token] + more) == "[" + token + "]" + Bracketed(more)
  {
    assert ([token] + more)[1..] == more;
  }

  lemma Unbracket(line: string, close: nat)
    requires 0 < close < |line| && line[0] == '[' && line[close] == ']' && ']' !in line[..close]
    ensures ']' !in line[1..close] && line == "[" + line[1..close] + "]" + line[close + 1..]
  {
    Suffix(line[..close], ']');
  }

  lemma Suffix(s: string, c: char)
    requires s != "" && c !in s
    ensures c !in s[1..]
  {}

  lemma Reassociate(a: string, b: string, c: string)
    ensures a + (b + c) == a + b + c
  {}

  // ---- word tags -------------------------------------------------------

  /** Text is kept; spans are removed. */
  datatype Piece = Kept(text: string) | Span(content: string)

  function PieceSource(p: Piece): string {
    match p
    case Kept(t) => t
    case Span(c) => "<" + c + ">"
  }

  function PieceKept(p: Piece): string {
    match p
    case Kept(t) => t
    case Span(_) => ""
  }

  function Source(pieces: seq<Piece>): string {
    if pieces == [] then "" else PieceSource(pieces[0]) + Source(pieces[1..])
  }

  function KeptText(pieces: seq<Piece>): string {
    if pieces == [] then "" else PieceKept(pieces[0]) + KeptText(pieces[1..])
  }

  predicate HasSpan(pieces: seq<Piece>) {
    exists k :: 0 <= k < |pieces| && pieces[k].Span?
  }

  /** Where the first span is, and what cutting there gives. */
  lemma CutSpan(before: string, content: string, rest: string)
    requires '<' !in before && '>' !in content
    ensures var text := before + "<" + content + ">" + rest;
      '<' in text && CutFirst(text) ==
        if TimestampShaped(content) then Cut(before, rest, true) else Cut(before + "<", content + ">" + rest, false)
  {
    var text := before + "<" + content + ">" + rest;
    var after := "<" + content + ">" + rest;
    FindAfter(before, '<', content + ">" + rest);
    assert text == before + ['<'] + (content + ">" + rest) && text[|before|..] == after && text[..|before|] == before;
    FindAfter("<" + content, '>', rest);
    assert after == "<" + content + ['>'] + rest && after[1..|content| + 1] == content;
    assert after[|content| + 2..] == rest && after[1..] == content + ">" + rest;
  }

  /** A text with a `<` is a span between two texts, or is never closed. */
  lemma CutCases(text: string) returns (before: string, content: string, rest: string)
    requires '<' in text
    ensures '<' !in before && '>' !in content
    ensures text == before + "<" + content + ">" + rest
      || (rest == "" && text == before + "<" + content && CutFirst(text) == Cut(before + "<", content, false))
  {
    hide CutFirst, Find;
    var open := Find(text, '<').value;
    var after := text[open..];
    before := text[..open];
    assert text == before + after;
    var close := Find(after, '>');
    if close.Some? {
      content, rest := after[1..close.value], after[close.value + 1..];
      Unangle(after, close.value);
      Reassociate3(before, "<", content, ">", rest);
    } else {
      content, rest := after[1..], "";
      Suffix(after, '>');
      assert after == "<" + content;
      Reassociate(before, "<", content);
      CutUnclosed(text);
    }
  }

  lemma Reassociate3(a: string, b: string, c: string, d: string, e: string)
    ensures a + (b + c + d + e) == a + b + c + d + e
  {}

  lemma Unangle(after: string, close: nat)
    requires 0 < close < |after| && after[0] == '<' && after[close] == '>' && '>' !in after[..close]
    ensures '>' !in after[1..close] && after == "<" + after[1..close] + ">" + after[close + 1..]
  {
    Suffix(after[..close], '>');
  }

  lemma CutUnclosed(text: string)
    requires '<' in text && Find(text[Find(text, '<').value..], '>').None?
    ensures var open := Find(text, '<').value; CutFirst(text) == Cut(text[..open] + "<", text[open..][1..], false)
  {}

  lemma CutPieces(text: string) returns (pieces: seq<Piece>)
    requires '<' in text
    ensures Source(pieces) + CutFirst(text).rest == text && KeptText(pieces) == CutFirst(text).kept
    ensures HasSpan(pieces) <==> CutFirst(text).tag
    ensures forall k :: 0 <= k < |pieces| && pieces[k].Span? ==>
      TimestampShaped(pieces[k].content) && '>' !in pieces[k].content
  {
    hide CutFirst, Source, KeptText, TimestampShaped;
    var before, content, rest := CutCases(text);
    CutSpan(before, content, rest);
    var c := CutFirst(text);
    if c.tag {
      pieces := [Kept(before), Span(content)];
      TwoPieces(Kept(before), Span(content));
      assert pieces[1].Span?;
      Reassociate3(before, "<", content, ">", rest);
      Reassociate(before, "<" + content + ">", rest);
      assert before + "" == before;
    } else {
      pieces := [Kept(c.kept)];
      OnePiece(Kept(c.kept));
      CutKeeps(text);
    }
  }

  /** When no tag is cut, nothing is. */
  lemma CutKeeps(text: string)
    requires '<' in text && !CutFirst(text).tag
    ensures CutFirst(text).kept + CutFirst(text).rest == text
  {
    hide TimestampShaped;
    var open := Find(text, '<').value;
    var after := text[open..];
    assert after == "<" + after[1..];
    Reassociate(text[..open], "<", after[1..]);
  }

  lemma OnePiece(p: Piece)
    ensures Source([p]) == PieceSource(p) && KeptText([p]) == PieceKept(p)
  {
    assert [p][1..] == [];
  }

  lemma TwoPieces(p: Piece, q: Piece)
    ensures Source([p, q]) == PieceSource(p) + PieceSource(q) && KeptText([p, q]) == PieceKept(p) + PieceKept(q)
  {
    assert [p, q][1..] == [q];
    OnePiece(q);
  }

  lemma {:induction false} PiecesAppend(a: seq<Piece>, b: seq<Piece>)
    ensures Source(a + b) == Source(a) + Source(b) && KeptText(a + b) == KeptText(a) + KeptText(b)
  {
    hide PieceSource, PieceKept;
    if a == [] {
      assert a + b == b;
    } else {
      assert (a + b)[1..] == a[1..] + b;
      PiecesAppend(a[1..], b);
      Reassociate(PieceSource(a[0]), Source(a[1..]), Source(b));
      Reassociate(PieceKept(a[0]), KeptText(a[1..]), KeptText(b));
    }
  }

  /** Stripping removes exactly some timestamp-shaped spans; the text shrinks exactly when one was removed. */
  lemma {:induction false} StripRemovesSpans(text: string) returns (pieces: seq<Piece>)
    ensures Source(pieces) == text && KeptText(pieces) == StripTags(text).text
    ensures HasSpan(pieces) <==> StripTags(text).stripped
    ensures forall k :: 0 <= k < |pieces| && pieces[k].Span? ==>
      TimestampShaped(pieces[k].content) && '>' !in pieces[k].content
    ensures StripTags(text).stripped <==> |StripTags(text).text| < |text|
    ensures !StripTags(text).stripped ==> StripTags(text).text == text
    decreases |text|
  {
    hide CutFirst;
    if '<' !in text {
      pieces := [Kept(text)];
      assert pieces[1..] == [];
    } else {
      var c := CutFirst(text);
      var first := CutPieces(text);
      var more := StripRemovesSpans(c.rest);
      PiecesAppend(first, more);
      pieces := first + more;
      assert forall k :: 0 <= k < |first| ==> pieces[k] == first[k];
      assert forall k :: 0 <= k < |more| ==> pieces[|first| + k] == more[k];
    }
    SpanSizes(pieces);
  }

  lemma {:induction false} SpanSizes(pieces: seq<Piece>)
    ensures HasSpan(pieces) <==> |KeptText(pieces)| < |Source(pieces)|
    ensures !HasSpan(pieces) ==> KeptText(pieces) == Source(pieces)
    ensures |KeptText(pieces)| <= |Source(pieces)|
  {
    if pieces != [] {
      var rest := pieces[1..];
      SpanSizes(rest);
      assert forall k :: 0 <= k < |rest| ==> rest[k] == pieces[k + 1];
    }
  }

  /** Stripping at the first `<`. */
  lemma StripSpan(before: string, content: string, rest: string)
    requires '<' !in before && '>' !in content
    ensures StripTags(before + "<" + content + ">" + rest).text ==
      if TimestampShaped(content) then before + StripTags(rest).text
        else before + "<" + StripTags(content + ">" + rest).text
  {
    hide CutFirst;
    CutSpan(before, content, rest);
  }

  /** Stripping can expose a new tag, so doing it twice is not doing it once. */
  lemma StripNotIdempotent()
    ensures StripTags("<<00:01>00:02>").text == "<00:02>" && StripTags("<00:02>").text == ""
  {
    hide StripTags;
    var a, b := "00:01", "00:02";
    assert a[2] == ':' && b[2] == ':';
    StripExposes(a, b);
    assert "<<" + a + ">" + b + ">" == "<<00:01>00:02>" && "<" + b + ">" == "<00:02>";
  }

  /** Any tag can be rebuilt around another: one pass keeps it, the next removes it. */
  lemma StripExposes(a: string, b: string)
    requires TimestampShaped(a) && '<' !in a && '>' !in a
    requires TimestampShaped(b) && '<' !in b && '>' !in b
    ensures StripTags("<<" + a + ">" + b + ">").text == "<" + b + ">"
    ensures StripTags("<" + b + ">").text == ""
  {
    hide StripTags, TimestampShaped;
    var tail := b + ">";
    NothingToStrip(tail);
    NothingToStrip("");
    StripFirst(a, tail);
    StripFirst(b, "");
    NotShaped(a);
    StripFirst("<" + a, tail);
    Reassociate("<", b, ">");
    assert "<" + ("<" + a) == "<<" + a;
    Reassociate("<<" + a + ">", b, ">");
    assert "<" + a + ">" + tail == ("<" + a) + ">" + tail;
    assert "<" + b + ">" + "" == "<" + b + ">";
  }

  lemma NotShaped(a: string)
    ensures !TimestampShaped("<" + a)
  {
    assert ("<" + a)[0] == '<';
  }

  /** Stripping at a leading `<`. */
  lemma StripFirst(content: string, rest: string)
    requires '>' !in content
    ensures StripTags("<" + content + ">" + rest).text ==
      if TimestampShaped(content) then StripTags(rest).text else "<" + StripTags(content + ">" + rest).text
  {
    hide StripTags, TimestampShaped;
    StripSpan("", content, rest);
    assert "" + "<" + content + ">" + rest == "<" + content + ">" + rest;
    assert "" + StripTags(rest).text == StripTags(rest).text;
    assert "" + "<" + StripTags(content + ">" + rest).text == "<" + StripTags(content + ">" + rest).text;
  }

  lemma NothingToStrip(text: string)
    requires '<' !in text
    ensures StripTags(text).text == text
  {}
}
