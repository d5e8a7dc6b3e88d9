/** The strict LRC parser: tokens, tags, timestamps, and how untimed text joins timed lines. */
module Lyrics {
  import opened Wrappers
  import opened LyricsText
  import opened Sorting

  const MAX_DOC_BYTES: nat := 512 * 1024
  const MAX_LINES: nat := 10_000
  const MAX_LINE_BYTES: nat := 4_096
  const MAX_OFFSET_MS: nat := 3_600_000
  const U64_MAX: nat := 0xFFFF_FFFF_FFFF_FFFF
  const I64_MAX: nat := 0x7FFF_FFFF_FFFF_FFFF

  // ---- the document ----------------------------------------------------

  datatype LyricsLine = LyricsLine(timestampMs: int, text: string)

  datatype Content = Plain(texts: seq<string>) | Synced(lines: seq<LyricsLine>)

  datatype Metadata = Metadata(artist: Option<string>, title: Option<string>, album: Option<string>,
      author: Option<string>)

  datatype Document = Document(content: Content, metadata: Metadata, wordTagsStripped: bool)

  datatype LyricsError =
    | InvalidUtf8
    | DocTooLarge(size: nat)
    | TooManyLines(count: nat)
    | LineTooLong(line: nat, length: nat)
    | MalformedTimestamp(line: nat)
    | MalformedOffset(line: nat)
    | NegativeTimestamp(line: nat)

  datatype Result<+T> = Ok(value: T) | Err(error: LyricsError)

  /** A byte input: the text it decodes to, or bytes of some length that are not UTF-8. */
  datatype Input = Utf8(text: string) | NotUtf8(size: nat)

  function Size(input: Input): nat {
    match input
    case Utf8(text) => Utf8Len(text)
    case NotUtf8(size) => size
  }

  // ---- numbers ---------------------------------------------------------

  function DigitValue(c: char): nat
    requires Digit(c)
  {
    c as int - '0' as int
  }

  function Value(s: string): nat
    requires Digits(s)
  {
    if s == "" then 0 else Value(s[..|s| - 1]) * 10 + DigitValue(s[|s| - 1])
  }

  /** A number within `max`, else none. */
  function Within(n: nat, max: nat): Option<nat> {
    if n <= max then Some(n) else None
  }

  // ---- tokens ----------------------------------------------------------

  /** The leading `[…]` tokens of a line and what follows them. */
  datatype Split = Split(tokens: seq<string>, rest: string)

  function LeadingTokens(rest: string): Split
    decreases |rest|
  {
    if rest == "" || rest[0] != '[' then Split([], rest)
    else match Find(rest, ']')
      case None => Split([], rest)
      case Some(close) =>
        var more := LeadingTokens(rest[close + 1..]);
        Split([rest[1..close]] + more.tokens, more.rest)
  }

  lemma NoToken(rest: string)
    requires rest == "" || rest[0] != '[' || ']' !in rest
    ensures LeadingTokens(rest) == Split([], rest)
  {}

  /** The first bracketed token, then those of what follows. */
  lemma FirstToken(rest: string)
    requires rest != "" && rest[0] == '[' && ']' in rest
    ensures Find(rest, ']').Some? && Find(rest, ']').value > 0
    ensures var close := Find(rest, ']').value;
      var more := LeadingTokens(rest[close + 1..]);
      LeadingTokens(rest) == Split([rest[1..close]] + more.tokens, more.rest)
  {}

  lemma RegroupTokens(a: seq<string>, b: string, c: seq<string>)
    ensures a + ([b] + c) == a + [b] + c
  {}

  method SplitLeadingTokens(line: string) returns (tokens: seq<string>, rest: string)
    ensures Split(tokens, rest) == LeadingTokens(line)
  {
    hide LeadingTokens, Find;
    tokens, rest := [], line;
    while true
      invariant LeadingTokens(line) == Split(tokens + LeadingTokens(rest).tokens, LeadingTokens(rest).rest)
      decreases |rest|
    {
      var open := Find(rest, '[');
      if open.None? || open.value != 0 {
        NoToken(rest);
        break;
      }
      var close := Find(rest, ']');
      if close.None? {
        NoToken(rest);
        break;
      }
      FirstToken(rest);
      RegroupTokens(tokens, rest[1..close.value], LeadingTokens(rest[close.value + 1..]).tokens);
      tokens := tokens + [rest[1..close.value]];
      rest := rest[close.value + 1..];
    }
    assert tokens + [] == tokens;
  }

  /** Starts with a digit or a sign and has a colon. */
  predicate TimestampShaped(token: string) {
    token != "" && (Digit(token[0]) || token[0] == '+' || token[0] == '-') && ':' in token
  }

  // ---- timestamps ------------------------------------------------------

  /** Two digits are hundredths, three are milliseconds. */
  function FractionMs(f: string): Option<nat> {
    if |f| == 2 && Digits(f) then Some(Value(f) * 10)
    else if |f| == 3 && Digits(f) then Some(Value(f))
    else None
  }

  /** Minutes, seconds and milliseconds together, with each step checked in 64 bits. */
  function Total(minutes: nat, seconds: nat, ms: nat): Option<nat> {
    var m := Within(minutes, U64_MAX);
    if m.None? then None else
      var a := Within(m.value * 60, U64_MAX);
      if a.None? then None else
        var b := Within(a.value + seconds, U64_MAX);
        if b.None? then None else
          var c := Within(b.value * 1000, U64_MAX);
          if c.None? then None else
            var d := Within(c.value + ms, U64_MAX);
            if d.None? || d.value > I64_MAX then None else d
  }

  function ParseTimestamp(token: string): Option<nat> {
    var colon := Find(token, ':');
    if colon.None? then None else
      var minutes, rest := token[..colon.value], token[colon.value + 1..];
      if minutes == "" || !Digits(minutes) then None else
        var dot := Find(rest, '.');
        var seconds := if dot.Some? then rest[..dot.value] else rest;
        if |seconds| != 2 || !Digits(seconds) || Value(seconds) > 59 then None else
          var ms := if dot.Some? then FractionMs(rest[dot.value + 1..]) else Some(0);
          if ms.None? then None else Total(Value(minutes), Value(seconds), ms.value)
  }

  // ---- tags ------------------------------------------------------------

  function ParseOffset(value: string): Option<int> {
    var negative := value != "" && value[0] == '-';
    var signed := negative || (value != "" && value[0] == '+');
    var digits := if signed then value[1..] else value;
    if digits == "" || !Digits(digits) || Value(digits) > MAX_OFFSET_MS then None else
      var magnitude: int := Value(digits);
      Some(if negative then -magnitude else magnitude)
  }

  /** Metadata, the last offset, and one line's timestamps so far. */
  datatype Tags = Tags(metadata: Metadata, offset: Option<int>, stamps: seq<nat>)

  function Slot(value: string): Option<string> {
    if value == "" then None else Some(value)
  }

  function TagStep(t: Tags, key: string, value: string, line: nat): Result<Tags> {
    if key == "offset" then
      var o := ParseOffset(value);
      if o.None? then Err(MalformedOffset(line)) else Ok(t.(offset := o))
    else if key == "ar" then Ok(t.(metadata := t.metadata.(artist := Slot(value))))
    else if key == "ti" then Ok(t.(metadata := t.metadata.(title := Slot(value))))
    else if key == "al" then Ok(t.(metadata := t.metadata.(album := Slot(value))))
    else if key == "by" then Ok(t.(metadata := t.metadata.(author := Slot(value))))
    else Ok(t)
  }

  function TokenStep(t: Tags, token: string, line: nat): Result<Tags> {
    if TimestampShaped(token) then
      var ms := ParseTimestamp(token);
      if ms.None? then Err(MalformedTimestamp(line)) else Ok(t.(stamps := t.stamps + [ms.value]))
    else
      var colon := Find(token, ':');
      if colon.None? then Ok(t)
      else TagStep(t, Lower(Trim(token[..colon.value], Space)), Trim(token[colon.value + 1..], Space), line)
  }

  /** The tokens of a line, in order; the first bad one decides. */
  function TokenSteps(t: Tags, tokens: seq<string>, line: nat): Result<Tags> {
    if tokens == [] then Ok(t) else
      var prev := TokenSteps(t, tokens[..|tokens| - 1], line);
      if prev.Err? then prev else TokenStep(prev.value, tokens[|tokens| - 1], line)
  }

  method ScanTokens(t: Tags, tokens: seq<string>, line: nat) returns (r: Result<Tags>)
    ensures r == TokenSteps(t, tokens, line)
  {
    var cur := t;
    for i := 0 to |tokens|
      invariant TokenSteps(t, tokens[..i], line) == Ok(cur)
    {
      assert tokens[..i + 1][..i] == tokens[..i];
      var next := TokenStep(cur, tokens[i], line);
      if next.Err? {
        StepsFail(t, tokens, i + 1, line);
        return next;
      }
      cur := next.value;
    }
    assert tokens[..|tokens|] == tokens;
    return Ok(cur);
  }

  lemma {:induction false} StepsFail(t: Tags, tokens: seq<string>, n: nat, line: nat)
    requires n <= |tokens| && TokenSteps(t, tokens[..n], line).Err?
    ensures TokenSteps(t, tokens, line) == TokenSteps(t, tokens[..n], line)
    decreases |tokens|
  {
    if n < |tokens| {
      var init := tokens[..|tokens| - 1];
      assert init[..n] == tokens[..n];
      StepsFail(t, init, n, line);
    } else {
      assert tokens[..n] == tokens;
    }
  }

  // ---- word tags -------------------------------------------------------

  datatype Reduced = Reduced(text: string, stripped: bool)

  /** What is kept up to the first `<` or its span, and what follows. */
  datatype Cut = Cut(kept: string, rest: string, tag: bool)

  function CutFirst(text: string): (c: Cut)
    requires '<' in text
    ensures |c.kept| + |c.rest| <= |text| && |c.rest| < |text|
  {
    var open := Find(text, '<').value;
    var before, after := text[..open], text[open..];
    var close := Find(after, '>');
    if close.Some? && TimestampShaped(after[1..close.value]) then Cut(before, after[close.value + 1..], true)
    else Cut(before + "<", after[1..], false)
  }

  /** Timestamp-shaped `<…>` spans removed, left to right. */
  function StripTags(rest: string): Reduced
    decreases |rest|
  {
    if '<' !in rest then Reduced(rest, false) else
      var c := CutFirst(rest);
      var more := StripTags(c.rest);
      Reduced(c.kept + more.text, c.tag || more.stripped)
  }

  lemma Regroup(a: string, b: string, c: string)
    ensures a + (b + c) == a + b + c
  {}

  method StripWordTags(text: string) returns (out: string, stripped: bool)
    ensures Reduced(out, stripped) == StripTags(text)
  {
    hide CutFirst;
    out, stripped := "", false;
    var rest := text;
    while '<' in rest
      invariant StripTags(text).text == out + StripTags(rest).text
      invariant StripTags(text).stripped == (stripped || StripTags(rest).stripped)
      decreases |rest|
    {
      var kept, tail, tag := CutTag(rest);
      Regroup(out, kept, StripTags(tail).text);
      out := out + kept;
      stripped := stripped || tag;
      rest := tail;
    }
    out := out + rest;
  }

  method CutTag(rest: string) returns (kept: string, tail: string, tag: bool)
    requires '<' in rest
    ensures Cut(kept, tail, tag) == CutFirst(rest)
  {
    var open := Find(rest, '<').value;
    var before, after := rest[..open], rest[open..];
    kept := before;
    var close := Find(after, '>');
    if close.Some? && TimestampShaped(after[1..close.value]) {
      return before, after[close.value + 1..], true;
    }
    return before + "<", after[1..], false;
  }

  // ---- lines -----------------------------------------------------------

  /** A timed entry before the offset: its physical line, raw time and text block. */
  datatype Entry = Entry(line: nat, raw: nat, text: string)

  datatype Scan = Scan(metadata: Metadata, offset: Option<int>, stripped: bool, entries: seq<Entry>,
      pending: seq<string>)

  const EMPTY: Scan := Scan(Metadata(None, None, None, None), None, false, [], [])

  /** A line's leading tokens, its content text and whether word tags were removed. */
  datatype Parts = Parts(tokens: seq<string>, text: string, stripped: bool)

  function PartsOf(line: string): Parts {
    var split := LeadingTokens(TrimStart(line, AsciiSpace));
    var reduced := StripTags(split.rest);
    Parts(split.tokens, Trim(reduced.text, AsciiSpace), reduced.stripped)
  }

  /** The pending lines with a timed line's own text last. */
  function Block(pending: seq<string>, text: string): string {
    if pending == [] then text else Join(pending) + "\n" + text
  }

  function Stamped(line: nat, stamps: seq<nat>, block: string): (r: seq<Entry>)
    ensures |r| == |stamps| && forall k :: 0 <= k < |r| ==> r[k] == Entry(line, stamps[k], block)
  {
    seq(|stamps|, k requires 0 <= k < |stamps| => Entry(line, stamps[k], block))
  }

  /** A scanned line whose tokens are good. */
  function Scanned(st: Scan, parts: Parts, t: Tags, line: nat): Scan {
    var s := st.(metadata := t.metadata, offset := t.offset, stripped := st.stripped || parts.stripped);
    if t.stamps != []
      then s.(entries := st.entries + Stamped(line, t.stamps, Block(st.pending, parts.text)), pending := [])
    else if parts.text == "" && parts.tokens != [] then s
    else s.(pending := st.pending + [parts.text])
  }

  function LineStep(st: Scan, text: string, line: nat): Result<Scan> {
    if Utf8Len(text) > MAX_LINE_BYTES then Err(LineTooLong(line, Utf8Len(text))) else
      var parts := PartsOf(text);
      var t := TokenSteps(Tags(st.metadata, st.offset, []), parts.tokens, line);
      if t.Err? then Err(t.error) else Ok(Scanned(st, parts, t.value, line))
  }

  /** The first `n` lines scanned, numbered from one. */
  function ScanLines(lines: seq<string>, n: nat): Result<Scan>
    requires n <= |lines|
  {
    if n == 0 then Ok(EMPTY) else
      var prev := ScanLines(lines, n - 1);
      if prev.Err? then prev else LineStep(prev.value, lines[n - 1], n)
  }

  // ---- the second pass -------------------------------------------------

  /** One entry shifted by the offset. */
  function ShiftEntry(e: Entry, shift: int): Result<LyricsLine> {
    if e.raw + shift > I64_MAX then Err(MalformedTimestamp(e.line))
    else if e.raw + shift < 0 then Err(NegativeTimestamp(e.line))
    else Ok(LyricsLine(e.raw + shift, e.text))
  }

  function ShiftAll(entries: seq<Entry>, shift: int): (r: Result<seq<LyricsLine>>)
    ensures r.Ok? ==> |r.value| == |entries|
  {
    if entries == [] then Ok([]) else
      var prev := ShiftAll(entries[..|entries| - 1], shift);
      if prev.Err? then prev else
        var last := ShiftEntry(entries[|entries| - 1], shift);
        if last.Err? then Err(last.error) else Ok(prev.value + [last.value])
  }

  /** Trailing untimed lines join the last entry. */
  function AttachTrailing(lines: seq<LyricsLine>, pending: seq<string>): (r: seq<LyricsLine>)
    requires lines != []
    ensures |r| == |lines|
  {
    if pending == [] then lines else
      var last := lines[|lines| - 1];
      lines[|lines| - 1 := last.(text := last.text + "\n" + Join(pending))]
  }

  predicate NotLater(a: LyricsLine, b: LyricsLine) {
    a.timestampMs <= b.timestampMs
  }

  /** Sorted by time, equal times in the order they came. */
  function StableSort(lines: seq<LyricsLine>): seq<LyricsLine> {
    SortBy(lines, NotLater)
  }

  function Finish(st: Scan): Result<Document> {
    if st.entries == [] then Ok(Document(Plain(st.pending), st.metadata, st.stripped)) else
      var shift := if st.offset.Some? then st.offset.value else 0;
      var shifted := ShiftAll(st.entries, shift);
      if shifted.Err? then Err(shifted.error)
      else Ok(Document(Synced(StableSort(AttachTrailing(shifted.value, st.pending))), st.metadata, st.stripped))
  }

  /** The text after its byte-order mark, with line endings normalized. */
  function Prepared(text: string): string {
    Normalize(if text != "" && text[0] == '\U{FEFF}' then text[1..] else text)
  }

  function ParseText(text: string): Result<Document> {
    var lines := Lines(Prepared(text));
    if |lines| > MAX_LINES then Err(TooManyLines(|lines|)) else
      var st := ScanLines(lines, |lines|);
      if st.Err? then Err(st.error) else Finish(st.value)
  }

  function ParseInput(input: Input): Result<Document> {
    if Size(input) > MAX_DOC_BYTES then Err(DocTooLarge(Size(input)))
    else match input
      case NotUtf8(_) => Err(InvalidUtf8)
      case Utf8(text) => ParseText(text)
  }

  // ---- the parser ------------------------------------------------------

  /** One copy of the block for each of a line's timestamps. */
  method PushStamps(entries: seq<Entry>, line: nat, stamps: seq<nat>, block: string) returns (r: seq<Entry>)
    ensures r == entries + Stamped(line, stamps, block)
  {
    r := entries;
    for i := 0 to |stamps|
      invariant r == entries + Stamped(line, stamps[..i], block)
    {
      assert Stamped(line, stamps[..i + 1], block) ==
        Stamped(line, stamps[..i], block) + [Entry(line, stamps[i], block)];
      r := r + [Entry(line, stamps[i], block)];
    }
    assert stamps[..|stamps|] == stamps;
  }

  /** What a line with good tokens adds: a timed block, a content line, or nothing. */
  method AddLine(st: Scan, parts: Parts, t: Tags, line: nat) returns (next: Scan)
    ensures next == Scanned(st, parts, t, line)
  {
    next := st.(metadata := t.metadata, offset := t.offset, stripped := st.stripped || parts.stripped);
    if t.stamps != [] {
      var block := if next.pending == [] then parts.text else Join(next.pending) + "\n" + parts.text;
      var entries := PushStamps(next.entries, line, t.stamps, block);
      next := next.(entries := entries, pending := []);
    } else if parts.text == "" && parts.tokens != [] {
      // A pure tag or marker line carries no content.
    } else {
      next := next.(pending := next.pending + [parts.text]);
    }
  }

  /** One physical line: its tokens, then its text. */
  method ScanLine(st: Scan, text: string, line: nat) returns (r: Result<Scan>)
    ensures r == LineStep(st, text, line)
  {
    hide LeadingTokens, StripTags, TokenSteps, Scanned, Utf8Len;
    if Utf8Len(text) > MAX_LINE_BYTES {
      return Err(LineTooLong(line, Utf8Len(text)));
    }
    var tokens, rest := SplitLeadingTokens(TrimStart(text, AsciiSpace));
    var scanned := ScanTokens(Tags(st.metadata, st.offset, []), tokens, line);
    if scanned.Err? {
      return Err(scanned.error);
    }
    var owned, stripped := StripWordTags(rest);
    var next := AddLine(st, Parts(tokens, Trim(owned, AsciiSpace), stripped), scanned.value, line);
    return Ok(next);
  }

  lemma {:induction false} ScanFails(lines: seq<string>, n: nat, m: nat)
    requires n <= m <= |lines| && ScanLines(lines, n).Err?
    ensures ScanLines(lines, m) == ScanLines(lines, n)
    decreases m
  {
    hide LineStep;
    if n < m { ScanFails(lines, n, m - 1); }
  }

  /** Shifts every entry by the offset; the first that cannot be shifted decides. */
  method ShiftEntries(entries: seq<Entry>, shift: int) returns (r: Result<seq<LyricsLine>>)
    ensures r == ShiftAll(entries, shift)
  {
    var shifted: seq<LyricsLine> := [];
    for i := 0 to |entries|
      invariant ShiftAll(entries[..i], shift) == Ok(shifted)
    {
      assert entries[..i + 1][..i] == entries[..i];
      var e := entries[i];
      if e.raw + shift > I64_MAX {
        ShiftFails(entries, i + 1, shift);
        return Err(MalformedTimestamp(e.line));
      }
      if e.raw + shift < 0 {
        ShiftFails(entries, i + 1, shift);
        return Err(NegativeTimestamp(e.line));
      }
      shifted := shifted + [LyricsLine(e.raw + shift, e.text)];
    }
    assert entries[..|entries|] == entries;
    return Ok(shifted);
  }

  lemma {:induction false} ShiftFails(entries: seq<Entry>, n: nat, shift: int)
    requires n <= |entries| && ShiftAll(entries[..n], shift).Err?
    ensures ShiftAll(entries, shift) == ShiftAll(entries[..n], shift)
    decreases |entries|
  {
    if n < |entries| {
      var init := entries[..|entries| - 1];
      assert init[..n] == entries[..n];
      ShiftFails(init, n, shift);
    } else {
      assert entries[..n] == entries;
    }
  }

  /** Every physical line in turn; the first bad one decides. */
  method ScanAll(lines: seq<string>) returns (r: Result<Scan>)
    ensures r == ScanLines(lines, |lines|)
  {
    hide LineStep;
    var st := EMPTY;
    for idx := 0 to |lines|
      invariant ScanLines(lines, idx) == Ok(st)
    {
      var next := ScanLine(st, lines[idx], idx + 1);
      if next.Err? {
        ScanFails(lines, idx + 1, |lines|);
        return Err(next.error);
      }
      st := next.value;
    }
    return Ok(st);
  }

  /** The second pass: shift, join the trailing lines, sort. */
  method FinishScan(st: Scan) returns (r: Result<Document>)
    ensures r == Finish(st)
  {
    hide StableSort, ShiftAll, Join;
    if |st.entries| == 0 {
      return Ok(Document(Plain(st.pending), st.metadata, st.stripped));
    }
    var entries := ShiftEntries(st.entries, if st.offset.Some? then st.offset.value else 0);
    if entries.Err? {
      return Err(entries.error);
    }
    var timed := entries.value;
    if st.pending != [] {
      var last := timed[|timed| - 1];
      timed := timed[|timed| - 1 := last.(text := last.text + "\n" + Join(st.pending))];
    }
    return Ok(Document(Synced(StableSort(timed)), st.metadata, st.stripped));
  }

  method Parse(input: Input) returns (r: Result<Document>)
    ensures r == ParseInput(input)
  {
    hide Finish, Prepared, ScanLines, Size, Lines;
    if Size(input) > MAX_DOC_BYTES {
      return Err(DocTooLarge(Size(input)));
    }
    if input.NotUtf8? {
      return Err(InvalidUtf8);
    }
    var lines := Lines(Prepared(input.text));
    if |lines| > MAX_LINES {
      return Err(TooManyLines(|lines|));
    }
    var st := ScanAll(lines);
    if st.Err? {
      return Err(st.error);
    }
    r := FinishScan(st.value);
  }

  // ---- timing ----------------------------------------------------------

  /** The first index in `lo..hi` whose time is after the position, by bisection. */
  function PartitionPoint(lines: seq<LyricsLine>, position: int, lo: nat, hi: nat): (i: nat)
    requires lo <= hi <= |lines|
    ensures lo <= i <= hi
    decreases hi - lo
  {
    if lo == hi then lo else
      var mid := (lo + hi) / 2;
      if lines[mid].timestampMs <= position then PartitionPoint(lines, position, mid + 1, hi)
      else PartitionPoint(lines, position, lo, mid)
  }

  /** The active line at a position. */
  function ActiveLine(doc: Document, position: int): Option<nat> {
    if doc.content.Plain? then None else
      var i := PartitionPoint(doc.content.lines, position, 0, |doc.content.lines|);
      if i == 0 then None else Some(i - 1)
  }
}
