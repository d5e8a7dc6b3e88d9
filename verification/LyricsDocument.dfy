/** What a parsed LRC document keeps of its lines, and how a position selects one. */
module LyricsDocument {
  import opened Wrappers
  import opened LyricsText
  import opened Lyrics
  import opened Sorting
  import LyricsMetadata

  // ---- lines by themselves ---------------------------------------------

  /** The times of a line's timestamp tokens, in order. */
  function ShapedTimes(tokens: seq<string>): seq<nat> {
    if tokens == [] then [] else
      var last := tokens[|tokens| - 1];
      ShapedTimes(tokens[..|tokens| - 1]) +
      if TimestampShaped(last) && ParseTimestamp(last).Some? then [ParseTimestamp(last).value] else []
  }

  /** The value of an offset tag. */
  function OffsetTag(token: string): Option<string> {
    var colon := Find(token, ':');
    if TimestampShaped(token) || colon.None? || Lower(Trim(token[..colon.value], Space)) != "offset" then None
    else Some(Trim(token[colon.value + 1..], Space))
  }

  /** A timestamp-shaped token parses, and so does an offset tag. */
  predicate GoodToken(token: string) {
    && (TimestampShaped(token) ==> ParseTimestamp(token).Some?)
    && (OffsetTag(token).Some? ==> ParseOffset(OffsetTag(token).value).Some?)
  }

  predicate GoodLine(line: string) {
    Utf8Len(line) <= MAX_LINE_BYTES && forall k :: 0 <= k < |PartsOf(line).tokens| ==>
      GoodToken(PartsOf(line).tokens[k])
  }

  predicate Timed(line: string) {
    ShapedTimes(PartsOf(line).tokens) != []
  }

  /** A line's content: its text, unless it is nothing but tags. */
  function Content(line: string): seq<string> {
    var p := PartsOf(line);
    if Timed(line) || p.text != "" || p.tokens == [] then [p.text] else []
  }

  /** The content of lines `a..b`, in order. */
  function Carried(lines: seq<string>, a: nat, b: nat): seq<string>
    requires a <= b <= |lines|
  {
    if a == b then [] else Carried(lines, a, b - 1) + Content(lines[b - 1])
  }

  /** The number of the last timed line among the first `n`, zero when none is. */
  function LastTimed(lines: seq<string>, n: nat): (m: nat)
    requires n <= |lines|
    ensures m <= n
  {
    if n == 0 then 0 else if Timed(lines[n - 1]) then n else LastTimed(lines, n - 1)
  }

  lemma {:induction false} LastTimedIsLast(lines: seq<string>, n: nat)
    requires n <= |lines|
    ensures LastTimed(lines, n) > 0 ==> Timed(lines[LastTimed(lines, n) - 1])
    ensures forall k :: LastTimed(lines, n) <= k < n ==> !Timed(lines[k])
  {
    hide Timed;
    if n > 0 { LastTimedIsLast(lines, n - 1); }
  }

  /** A timestamp with its line's number. */
  datatype Stamp = Stamp(line: nat, raw: nat)

  function Stamps(line: nat, times: seq<nat>): (r: seq<Stamp>)
    ensures |r| == |times| && forall k :: 0 <= k < |r| ==> r[k] == Stamp(line, times[k])
  {
    seq(|times|, k requires 0 <= k < |times| => Stamp(line, times[k]))
  }

  /** All timestamps of the first `n` lines, in document order. */
  function AllStamps(lines: seq<string>, n: nat): seq<Stamp>
    requires n <= |lines|
  {
    if n == 0 then [] else AllStamps(lines, n - 1) + Stamps(n, ShapedTimes(PartsOf(lines[n - 1]).tokens))
  }

  /** The last offset tag's value, if there is one. */
  function LastOffset(tokens: seq<string>): Option<int> {
    if tokens == [] then None else
      var tag := OffsetTag(tokens[|tokens| - 1]);
      if tag.Some? then ParseOffset(tag.value) else LastOffset(tokens[..|tokens| - 1])
  }

  function OffsetOf(lines: seq<string>, n: nat): Option<int>
    requires n <= |lines|
  {
    if n == 0 then None else
      var here := LastOffset(PartsOf(lines[n - 1]).tokens);
      if here.Some? then here else OffsetOf(lines, n - 1)
  }

  // ---- tokens ----------------------------------------------------------

  lemma TokenScans(t: Tags, token: string, line: nat)
    ensures TokenStep(t, token, line).Ok? <==> GoodToken(token)
    ensures var r := TokenStep(t, token, line); r.Ok? ==>
      && r.value.stamps ==
        t.stamps + (if TimestampShaped(token) && ParseTimestamp(token).Some? then [ParseTimestamp(token).value] else [])
      && r.value.offset == if OffsetTag(token).Some? then ParseOffset(OffsetTag(token).value) else t.offset
  {
    hide ParseTimestamp, ParseOffset, Lower, Trim;
    assert t.stamps + [] == t.stamps;
  }

  lemma {:induction false} TokensScan(t: Tags, tokens: seq<string>, line: nat)
    ensures TokenSteps(t, tokens, line).Ok? <==> forall k :: 0 <= k < |tokens| ==> GoodToken(tokens[k])
    ensures var r := TokenSteps(t, tokens, line); r.Ok? ==>
      && r.value.stamps == t.stamps + ShapedTimes(tokens)
      && r.value.offset == if LastOffset(tokens).Some? then LastOffset(tokens) else t.offset
  {
    hide TokenStep, ParseTimestamp, ParseOffset, OffsetTag, GoodToken, TimestampShaped;
    if tokens == [] {
      assert t.stamps + [] == t.stamps;
    } else {
      var init, last := tokens[..|tokens| - 1], tokens[|tokens| - 1];
      TokensScan(t, init, line);
      assert tokens == init + [last];
      var prev := TokenSteps(t, init, line);
      if prev.Ok? {
        TokenScans(prev.value, last, line);
        OffsetGood(last);
        assert (forall k :: 0 <= k < |tokens| ==> GoodToken(tokens[k])) <==> GoodToken(last);
      } else {
        var k :| 0 <= k < |init| && !GoodToken(init[k]);
        assert !GoodToken(tokens[k]);
      }
    }
  }

  lemma OffsetGood(token: string)
    ensures GoodToken(token) && OffsetTag(token).Some? ==> ParseOffset(OffsetTag(token).value).Some?
  {}

  // ---- text ------------------------------------------------------------

  /** Stripping adds no characters. */
  lemma {:induction false} StripChars(text: string, c: char)
    requires c !in text && c != '<'
    ensures c !in StripTags(text).text
    decreases |text|
  {
    if '<' in text {
      var cut := CutFirst(text);
      CutChars(text, c);
      StripChars(cut.rest, c);
      assert StripTags(text).text == cut.kept + StripTags(cut.rest).text;
    }
  }

  lemma CutChars(text: string, c: char)
    requires '<' in text && c !in text && c != '<'
    ensures c !in CutFirst(text).kept && c !in CutFirst(text).rest
  {}

  lemma {:induction false} RestIsSuffix(line: string)
    ensures var r := LeadingTokens(line).rest; |r| <= |line| && r == line[|line| - |r|..]
    decreases |line|
  {
    if line != "" && line[0] == '[' && Find(line, ']').Some? {
      RestIsSuffix(line[Find(line, ']').value + 1..]);
    }
  }

  lemma TextHasNoLf(line: string)
    requires '\n' !in line
    ensures '\n' !in PartsOf(line).text
  {
    var trimmed := TrimStart(line, AsciiSpace);
    TrimStartExact(line, AsciiSpace);
    RestIsSuffix(trimmed);
    var stripped := StripTags(LeadingTokens(trimmed).rest).text;
    StripChars(LeadingTokens(trimmed).rest, '\n');
    TrimStartExact(stripped, AsciiSpace);
    TrimEndExact(TrimStart(stripped, AsciiSpace), AsciiSpace);
  }

  lemma {:induction false} CarriedHasNoLf(lines: seq<string>, a: nat, b: nat)
    requires a <= b <= |lines| && forall k :: 0 <= k < |lines| ==> '\n' !in lines[k]
    ensures forall k :: 0 <= k < |Carried(lines, a, b)| ==> '\n' !in Carried(lines, a, b)[k]
    decreases b
  {
    hide PartsOf, ShapedTimes;
    if a < b {
      CarriedHasNoLf(lines, a, b - 1);
      TextHasNoLf(lines[b - 1]);
    }
  }

  /** A timed block splits back into the pending lines and the line's own text. */
  lemma BlockSplits(pending: seq<string>, text: string)
    requires '\n' !in text && forall k :: 0 <= k < |pending| ==> '\n' !in pending[k]
    ensures SplitLf(Block(pending, text)) == pending + [text]
  {
    if pending != [] { JoinAppend(pending, [text]); } else { assert pending + [text] == [text]; }
    SplitJoin(pending + [text]);
  }

  // ---- scanning --------------------------------------------------------

  /** An entry's block is the content after the previous timed line, up to its own line. */
  ghost predicate EntryKept(lines: seq<string>, n: nat, e: Entry) {
    && 1 <= e.line <= n <= |lines| && Timed(lines[e.line - 1])
    && SplitLf(e.text) == Carried(lines, LastTimed(lines, e.line - 1), e.line)
  }

  function StampsOf(entries: seq<Entry>): (r: seq<Stamp>)
    ensures |r| == |entries| && forall k :: 0 <= k < |r| ==> r[k] == Stamp(entries[k].line, entries[k].raw)
  {
    seq(|entries|, k requires 0 <= k < |entries| => Stamp(entries[k].line, entries[k].raw))
  }

  ghost predicate Kept(lines: seq<string>, n: nat, st: Scan)
    requires n <= |lines|
  {
    && st.pending == Carried(lines, LastTimed(lines, n), n)
    && (forall k :: 0 <= k < |st.entries| ==> EntryKept(lines, n, st.entries[k]))
    && StampsOf(st.entries) == AllStamps(lines, n)
    && st.offset == OffsetOf(lines, n)
  }

  lemma StepKeeps(lines: seq<string>, n: nat, st: Scan)
    requires n < |lines| && (forall k :: 0 <= k < |lines| ==> '\n' !in lines[k]) && Kept(lines, n, st)
    ensures LineStep(st, lines[n], n + 1).Ok? <==> GoodLine(lines[n])
    ensures LineStep(st, lines[n], n + 1).Ok? ==> Kept(lines, n + 1, LineStep(st, lines[n], n + 1).value)
  {
    hide TokenSteps, PartsOf, Kept, Scanned, Utf8Len, GoodToken, ShapedTimes, LastOffset, LastTimed;
    var parts := PartsOf(lines[n]);
    TokensScan(Tags(st.metadata, st.offset, []), parts.tokens, n + 1);
    var t := TokenSteps(Tags(st.metadata, st.offset, []), parts.tokens, n + 1);
    if LineStep(st, lines[n], n + 1).Ok? {
      assert [] + ShapedTimes(parts.tokens) == ShapedTimes(parts.tokens);
      KeptScanned(lines, n, st, t.value);
    }
  }

  lemma KeptScanned(lines: seq<string>, n: nat, st: Scan, t: Tags)
    requires n < |lines| && (forall k :: 0 <= k < |lines| ==> '\n' !in lines[k]) && Kept(lines, n, st)
    requires t.stamps == ShapedTimes(PartsOf(lines[n]).tokens)
    requires var here := LastOffset(PartsOf(lines[n]).tokens); t.offset == if here.Some? then here else st.offset
    ensures Kept(lines, n + 1, Scanned(st, PartsOf(lines[n]), t, n + 1))
  {
    hide PartsOf, ShapedTimes, LastOffset, Block, EntryKept, Carried, LastTimed, StampsOf, Stamps;
    var next := Scanned(st, PartsOf(lines[n]), t, n + 1);
    CarriedStep(lines, LastTimed(lines, n), n);
    LastTimedStep(lines, n);
    StampsGrow(st.entries, n + 1, t.stamps, Block(st.pending, PartsOf(lines[n]).text));
    if Timed(lines[n]) { StampedKept(lines, n, st, t.stamps); } else { NoStamps(n + 1); }
    EntriesStay(lines, n, st.entries);
    assert AllStamps(lines, n + 1) == AllStamps(lines, n) + Stamps(n + 1, t.stamps);
    assert AllStamps(lines, n) + [] == AllStamps(lines, n);
  }

  lemma CarriedStep(lines: seq<string>, a: nat, b: nat)
    requires a <= b < |lines|
    ensures Carried(lines, a, b + 1) == Carried(lines, a, b) + Content(lines[b])
    ensures Carried(lines, b + 1, b + 1) == [] && Carried(lines, a, b) + [] == Carried(lines, a, b)
  {}

  lemma LastTimedStep(lines: seq<string>, n: nat)
    requires n < |lines|
    ensures LastTimed(lines, n + 1) == if Timed(lines[n]) then n + 1 else LastTimed(lines, n)
  {}

  lemma NoStamps(line: nat)
    ensures Stamps(line, []) == []
  {}

  lemma StampsGrow(entries: seq<Entry>, line: nat, stamps: seq<nat>, block: string)
    ensures StampsOf(entries + Stamped(line, stamps, block)) == StampsOf(entries) + Stamps(line, stamps)
  {}

  lemma EntriesStay(lines: seq<string>, n: nat, entries: seq<Entry>)
    requires n < |lines| && forall k :: 0 <= k < |entries| ==> EntryKept(lines, n, entries[k])
    ensures forall k :: 0 <= k < |entries| ==> EntryKept(lines, n + 1, entries[k])
  {
    hide Timed, Carried, LastTimed, SplitLf;
    var m := n + 1;
    forall k | 0 <= k < |entries| ensures EntryKept(lines, m, entries[k]) {
      assert EntryKept(lines, n, entries[k]);
    }
  }

  /** The entries of a timed line. */
  lemma StampedKept(lines: seq<string>, n: nat, st: Scan, stamps: seq<nat>)
    requires n < |lines| && (forall k :: 0 <= k < |lines| ==> '\n' !in lines[k]) && Timed(lines[n])
    requires st.pending == Carried(lines, LastTimed(lines, n), n)
    ensures var es := Stamped(n + 1, stamps, Block(st.pending, PartsOf(lines[n]).text));
      forall k :: 0 <= k < |es| ==> EntryKept(lines, n + 1, es[k])
  {
    hide PartsOf, ShapedTimes, LastTimed, SplitLf, Block;
    CarriedHasNoLf(lines, LastTimed(lines, n), n);
    TextHasNoLf(lines[n]);
    BlockSplits(st.pending, PartsOf(lines[n]).text);
    CarriedStep(lines, LastTimed(lines, n), n);
  }

  lemma NothingScanned(lines: seq<string>)
    ensures Kept(lines, 0, EMPTY)
  {
    assert StampsOf([]) == [];
  }

  /** Scanning succeeds exactly on good lines, and keeps every content line and timestamp in order. */
  lemma {:induction false} ScanKeeps(lines: seq<string>, n: nat)
    requires n <= |lines| && forall k :: 0 <= k < |lines| ==> '\n' !in lines[k]
    ensures ScanLines(lines, n).Ok? <==> forall k :: 0 <= k < n ==> GoodLine(lines[k])
    ensures ScanLines(lines, n).Ok? ==> Kept(lines, n, ScanLines(lines, n).value)
  {
    hide LineStep, GoodLine, Kept;
    if n > 0 {
      ScanKeeps(lines, n - 1);
      if ScanLines(lines, n - 1).Ok? {
        StepKeeps(lines, n - 1, ScanLines(lines, n - 1).value);
      }
    } else {
      NothingScanned(lines);
    }
  }

  // ---- conservation ----------------------------------------------------

  /** The content of one block per timed line: its last entry's, in document order. */
  function Blocks(entries: seq<Entry>): seq<string> {
    if entries == [] then []
    else if |entries| > 1 && entries[0].line == entries[1].line then Blocks(entries[1..])
    else SplitLf(entries[0].text) + Blocks(entries[1..])
  }

  lemma {:induction false} BlocksOfLine(line: nat, stamps: seq<nat>, block: string)
    requires stamps != []
    ensures Blocks(Stamped(line, stamps, block)) == SplitLf(block)
    decreases |stamps|
  {
    hide SplitLf;
    var es := Stamped(line, stamps, block);
    assert es[1..] == Stamped(line, stamps[1..], block);
    if |stamps| > 1 {
      BlocksOfLine(line, stamps[1..], block);
    } else {
      assert SplitLf(block) + [] == SplitLf(block);
    }
  }

  lemma {:induction false} BlocksAppend(entries: seq<Entry>, line: nat, stamps: seq<nat>, block: string)
    requires stamps != [] && forall k :: 0 <= k < |entries| ==> entries[k].line < line
    ensures Blocks(entries + Stamped(line, stamps, block)) == Blocks(entries) + SplitLf(block)
    decreases |entries|
  {
    hide SplitLf;
    var es := Stamped(line, stamps, block);
    var all := entries + es;
    if entries == [] {
      BlocksOfLine(line, stamps, block);
      assert all == es && [] + SplitLf(block) == SplitLf(block);
    } else {
      assert all[1..] == entries[1..] + es;
      BlocksAppend(entries[1..], line, stamps, block);
      assert |entries| == 1 ==> all[1] == es[0];
      RegroupLines(SplitLf(entries[0].text), Blocks(entries[1..]), SplitLf(block));
    }
  }

  lemma RegroupLines(a: seq<string>, b: seq<string>, c: seq<string>)
    ensures a + (b + c) == a + b + c
  {}

  ghost predicate Conserved(lines: seq<string>, n: nat, st: Scan)
    requires n <= |lines|
  {
    Blocks(st.entries) + st.pending == Carried(lines, 0, n)
      && (forall k :: 0 <= k < |st.entries| ==> st.entries[k].line <= n)
  }

  lemma ConservedStep(lines: seq<string>, n: nat, st: Scan, t: Tags)
    requires n < |lines| && (forall k :: 0 <= k < |lines| ==> '\n' !in lines[k]) && Conserved(lines, n, st)
    requires t.stamps == ShapedTimes(PartsOf(lines[n]).tokens) && st.pending == Carried(lines, LastTimed(lines, n), n)
    ensures Conserved(lines, n + 1, Scanned(st, PartsOf(lines[n]), t, n + 1))
  {
    hide PartsOf, ShapedTimes, LastTimed, SplitLf, Block, Blocks, Carried;
    var text := PartsOf(lines[n]).text;
    CarriedStep(lines, 0, n);
    CarriedHasNoLf(lines, LastTimed(lines, n), n);
    TextHasNoLf(lines[n]);
    BlockSplits(st.pending, text);
    if Timed(lines[n]) {
      BlocksAppend(st.entries, n + 1, t.stamps, Block(st.pending, text));
    }
    assert Blocks(st.entries) + (st.pending + [text]) == Blocks(st.entries) + st.pending + [text];
    assert Blocks(st.entries) + st.pending + [text] + [] == Blocks(st.entries) + st.pending + [text];
  }

  /** Blocks in document order, then the pending lines, are all content lines in order. */
  lemma {:induction false} ScanConserves(lines: seq<string>, n: nat)
    requires n <= |lines| && (forall k :: 0 <= k < |lines| ==> '\n' !in lines[k]) && ScanLines(lines, n).Ok?
    ensures Conserved(lines, n, ScanLines(lines, n).value)
  {
    hide PartsOf, ShapedTimes, LastTimed, Conserved, TokenSteps, Scanned, Utf8Len;
    if n > 0 {
      ScanConserves(lines, n - 1);
      ScanKeeps(lines, n - 1);
      var st := ScanLines(lines, n - 1).value;
      var tokens := PartsOf(lines[n - 1]).tokens;
      TokensScan(Tags(st.metadata, st.offset, []), tokens, n);
      assert [] + ShapedTimes(tokens) == ShapedTimes(tokens);
      ConservedStep(lines, n - 1, st, TokenSteps(Tags(st.metadata, st.offset, []), tokens, n).value);
    } else {
      NothingConserved(lines);
    }
  }

  lemma NothingConserved(lines: seq<string>)
    ensures Conserved(lines, 0, EMPTY)
  {}

  // ---- the finished document -------------------------------------------

  /** The entries with the trailing untimed lines joined to the last. */
  function Attached(st: Scan): (r: seq<Entry>)
    ensures |r| == |st.entries|
  {
    if st.pending == [] || st.entries == [] then st.entries else
      var last := st.entries[|st.entries| - 1];
      st.entries[|st.entries| - 1 := last.(text := last.text + "\n" + Join(st.pending))]
  }

  /** Entries shifted by the offset. */
  function Shifted(entries: seq<Entry>, shift: int): (r: seq<LyricsLine>)
    ensures |r| == |entries| && forall k :: 0 <= k < |r| ==> r[k] == LyricsLine(entries[k].raw + shift, entries[k].text)
  {
    seq(|entries|, k requires 0 <= k < |entries| => LyricsLine(entries[k].raw + shift, entries[k].text))
  }

  predicate InRange(raw: nat, shift: int) {
    0 <= raw + shift <= I64_MAX
  }

  /** The shift fails exactly when some entry leaves the range. */
  lemma {:induction false} ShiftIff(entries: seq<Entry>, shift: int)
    ensures ShiftAll(entries, shift).Ok? <==> forall k :: 0 <= k < |entries| ==> InRange(entries[k].raw, shift)
    ensures ShiftAll(entries, shift).Ok? ==> ShiftAll(entries, shift).value == Shifted(entries, shift)
  {
    hide ShiftEntry, InRange, Shifted;
    if entries != [] {
      var init, last := entries[..|entries| - 1], entries[|entries| - 1];
      ShiftIff(init, shift);
      ShiftOne(last, shift);
      RangeLast(entries, shift);
      ShiftedLast(entries, shift);
    }
  }

  lemma RangeLast(entries: seq<Entry>, shift: int)
    requires entries != []
    ensures var init := entries[..|entries| - 1];
      (forall k :: 0 <= k < |entries| ==> InRange(entries[k].raw, shift)) <==>
      (forall k :: 0 <= k < |init| ==> InRange(init[k].raw, shift)) && InRange(entries[|entries| - 1].raw, shift)
  {
    hide InRange;
    var init := entries[..|entries| - 1];
    if forall k :: 0 <= k < |init| ==> InRange(init[k].raw, shift) {
      assert forall k :: 0 <= k < |init| ==> InRange(entries[k].raw, shift) by {
        forall k | 0 <= k < |init| ensures InRange(entries[k].raw, shift) { assert init[k] == entries[k]; }
      }
    }
  }

  lemma ShiftedLast(entries: seq<Entry>, shift: int)
    requires entries != []
    ensures var n := |entries| - 1;
      Shifted(entries, shift) == Shifted(entries[..n], shift) + [LyricsLine(entries[n].raw + shift, entries[n].text)]
  {}

  lemma ShiftOne(e: Entry, shift: int)
    ensures ShiftEntry(e, shift).Ok? <==> InRange(e.raw, shift)
    ensures ShiftEntry(e, shift).Ok? ==> ShiftEntry(e, shift).value == LyricsLine(e.raw + shift, e.text)
  {}

  lemma AttachShifted(st: Scan, shift: int)
    requires st.entries != []
    ensures AttachTrailing(Shifted(st.entries, shift), st.pending) == Shifted(Attached(st), shift)
  {}

  /** Joining the trailing lines to the last entry adds exactly them to the blocks. */
  lemma {:induction false} BlocksTrailing(entries: seq<Entry>, pending: seq<string>)
    requires entries != [] && pending != [] && forall k :: 0 <= k < |pending| ==> '\n' !in pending[k]
    ensures var last := entries[|entries| - 1];
      Blocks(entries[|entries| - 1 := last.(text := last.text + "\n" + Join(pending))]) == Blocks(entries) + pending
    decreases |entries|
  {
    hide SplitLf, Join;
    var last := entries[|entries| - 1];
    var more := entries[|entries| - 1 := last.(text := last.text + "\n" + Join(pending))];
    if |entries| == 1 {
      SplitAppend(last.text, pending);
      assert more[1..] == [] && entries[1..] == [];
      assert SplitLf(last.text) + pending + [] == SplitLf(last.text) + [] + pending;
    } else {
      assert more[1..] == entries[1..][|entries| - 2 := last.(text := last.text + "\n" + Join(pending))];
      BlocksTrailing(entries[1..], pending);
      var first := SplitLf(entries[0].text);
      assert first + (Blocks(entries[1..]) + pending) == first + Blocks(entries[1..]) + pending;
    }
  }

  lemma {:induction false} JoinSplit(text: string)
    ensures Join(SplitLf(text)) == text
    decreases |text|
  {
    if Find(text, '\n').Some? {
      var k := Find(text, '\n').value;
      JoinSplit(text[k + 1..]);
      assert text == text[..k] + "\n" + text[k + 1..];
      assert ([text[..k]] + SplitLf(text[k + 1..]))[1..] == SplitLf(text[k + 1..]);
    }
  }

  lemma SplitAppend(text: string, pending: seq<string>)
    requires pending != [] && forall k :: 0 <= k < |pending| ==> '\n' !in pending[k]
    ensures SplitLf(text + "\n" + Join(pending)) == SplitLf(text) + pending
  {
    hide SplitLf, Join;
    JoinSplit(text);
    JoinAppend(SplitLf(text), pending);
    SplitJoin(SplitLf(text) + pending);
  }

  /** The document's lines in document order, before sorting. */
  function Offset(st: Scan): int {
    if st.offset.Some? then st.offset.value else 0
  }

  /** Plain texts are all content lines; the blocks of a synced document, its last entry taken for each
      timed line, are all content lines in order, with every timestamp, before the sort. */
  ghost predicate DocumentKept(lines: seq<string>, st: Scan, content: Content) {
    match content
    case Plain(texts) => texts == Carried(lines, 0, |lines|) && AllStamps(lines, |lines|) == []
    case Synced(timed) =>
      && timed == StableSort(Shifted(Attached(st), Offset(st))) && timed != []
      && Blocks(Attached(st)) == Carried(lines, 0, |lines|)
      && StampsOf(Attached(st)) == AllStamps(lines, |lines|)
  }

  /** Trailing lines join the last block. */
  lemma AttachedKept(lines: seq<string>, st: Scan)
    requires (forall k :: 0 <= k < |lines| ==> '\n' !in lines[k]) && Kept(lines, |lines|, st)
      && Conserved(lines, |lines|, st)
    ensures st.entries == [] ==> st.pending == Carried(lines, 0, |lines|) && AllStamps(lines, |lines|) == []
    ensures st.entries != [] ==>
      Blocks(Attached(st)) == Carried(lines, 0, |lines|) && StampsOf(Attached(st)) == AllStamps(lines, |lines|)
  {
    hide Blocks, Carried, LastTimed, AllStamps, OffsetOf, EntryKept, Attached;
    var all := Carried(lines, 0, |lines|);
    assert Blocks(st.entries) + st.pending == all;
    if st.entries == [] {
      NoBlocks();
      assert [] + st.pending == st.pending;
      assert StampsOf([]) == [];
    } else {
      CarriedHasNoLf(lines, LastTimed(lines, |lines|), |lines|);
      AttachedBlocks(st);
    }
  }

  lemma AttachedBlocks(st: Scan)
    requires st.entries != [] && forall k :: 0 <= k < |st.pending| ==> '\n' !in st.pending[k]
    ensures Blocks(Attached(st)) == Blocks(st.entries) + st.pending && StampsOf(Attached(st)) == StampsOf(st.entries)
  {
    hide Blocks;
    if st.pending != [] { BlocksTrailing(st.entries, st.pending); }
    assert Blocks(st.entries) + [] == Blocks(st.entries);
  }

  lemma FinishKept(lines: seq<string>, st: Scan)
    requires (forall k :: 0 <= k < |lines| ==> '\n' !in lines[k]) && Kept(lines, |lines|, st)
      && Conserved(lines, |lines|, st)
    requires Finish(st).Ok?
    ensures DocumentKept(lines, st, Finish(st).value.content)
  {
    hide Blocks, Carried, AllStamps, StableSort, Kept, Conserved, ShiftAll, Attached;
    AttachedKept(lines, st);
    if st.entries != [] {
      ShiftIff(st.entries, Offset(st));
      AttachShifted(st, Offset(st));
      SortKeepsLength(Shifted(Attached(st), Offset(st)));
    }
    assert DocumentKept(lines, st, Finish(st).value.content);
  }

  lemma SortKeepsLength(lines: seq<LyricsLine>)
    ensures |StableSort(lines)| == |lines|
  {}

  /**
   A parsed document conserves its content and its timestamps; its metadata is that of the last tags
   of all lines, and its flag says whether a word tag was removed from some line.
   */
  lemma ParseConserves(text: string)
    requires ParseText(text).Ok?
    ensures var lines := Lines(Prepared(text));
      var st, doc := ScanLines(lines, |lines|), ParseText(text).value;
      && st.Ok? && DocumentKept(lines, st.value, doc.content)
      && LyricsMetadata.Describes(LyricsMetadata.AllTokens(lines, |lines|), doc.metadata)
      && (doc.wordTagsStripped <==> LyricsMetadata.SomeWordTag(lines, |lines|))
  {
    hide ScanLines, Prepared, DocumentKept, Finish, Kept, Conserved;
    hide LyricsMetadata.Describes, LyricsMetadata.SomeWordTag;
    var lines := Lines(Prepared(text));
    LyricsMetadata.ParseDescribes(text);
    ScanKeeps(lines, |lines|);
    ScanConserves(lines, |lines|);
    FinishKept(lines, ScanLines(lines, |lines|).value);
  }

  lemma NoBlocks()
    ensures Blocks([]) == []
  {}

  predicate AllInRange(stamps: seq<Stamp>, shift: int) {
    forall k :: 0 <= k < |stamps| ==> InRange(stamps[k].raw, shift)
  }

  lemma FinishIff(st: Scan)
    ensures Finish(st).Ok? <==> AllInRange(StampsOf(st.entries), Offset(st))
  {
    hide StableSort, InRange, AttachTrailing;
    ShiftIff(st.entries, Offset(st));
    var stamps := StampsOf(st.entries);
    assert forall k :: 0 <= k < |st.entries| ==> stamps[k].raw == st.entries[k].raw;
  }

  /** The last offset tag's value, zero when there is none. */
  function ShiftOf(lines: seq<string>): int {
    if OffsetOf(lines, |lines|).Some? then OffsetOf(lines, |lines|).value else 0
  }

  /** A document is accepted exactly when it has few enough lines, every line is good, and no
      timestamp leaves the range under the last offset. */
  lemma AcceptedIff(text: string)
    ensures var lines := Lines(Prepared(text));
      ParseText(text).Ok? <==>
        && |lines| <= MAX_LINES
        && (forall k :: 0 <= k < |lines| ==> GoodLine(lines[k]))
        && AllInRange(AllStamps(lines, |lines|), ShiftOf(lines))
  {
    hide ScanLines, GoodLine, Prepared, AllStamps, AllInRange, OffsetOf, Finish;
    var lines := Lines(Prepared(text));
    ScanKeeps(lines, |lines|);
    if ScanLines(lines, |lines|).Ok? {
      FinishIff(ScanLines(lines, |lines|).value);
    }
    assert ParseText(text).Ok? <==>
      |lines| <= MAX_LINES && (forall k :: 0 <= k < |lines| ==> GoodLine(lines[k]))
        && AllInRange(AllStamps(lines, |lines|), ShiftOf(lines));
  }

  // ---- sorting ---------------------------------------------------------

  ghost predicate Sorted(lines: seq<LyricsLine>) {
    forall i, j :: 0 <= i < j < |lines| ==> lines[i].timestampMs <= lines[j].timestampMs
  }

  /** The lines at one time, in order. */
  function AtTime(lines: seq<LyricsLine>, t: int): seq<LyricsLine> {
    Alike(lines, LyricsLine(t, ""), NotLater)
  }

  /** The sort is a sorted permutation that keeps the order of lines at the same time, and the only one. */
  lemma SortedInOrder(lines: seq<LyricsLine>, other: seq<LyricsLine>)
    ensures Sorted(StableSort(lines)) && multiset(StableSort(lines)) == multiset(lines)
    ensures forall t :: AtTime(StableSort(lines), t) == AtTime(lines, t)
    ensures Sorted(other) && (forall t :: AtTime(other, t) == AtTime(lines, t)) ==> other == StableSort(lines)
  {
    hide Alike, SortBy;
    SortPermutes(lines, NotLater);
    SortSorts(lines, NotLater);
    forall t ensures AtTime(StableSort(lines), t) == AtTime(lines, t) {
      SortIsStable(lines, LyricsLine(t, ""), NotLater);
    }
    if Sorted(other) && forall t :: AtTime(other, t) == AtTime(lines, t) {
      forall x: LyricsLine ensures Alike(other, x, NotLater) == Alike(StableSort(lines), x, NotLater) {
        AlikeByTime(other, x);
        AlikeByTime(lines, x);
        AlikeByTime(StableSort(lines), x);
        assert AtTime(other, x.timestampMs) == AtTime(lines, x.timestampMs) == AtTime(StableSort(lines), x.timestampMs);
      }
      StableUnique(other, StableSort(lines), NotLater);
    }
  }

  lemma {:induction false} AlikeByTime(lines: seq<LyricsLine>, x: LyricsLine)
    ensures Alike(lines, x, NotLater) == AtTime(lines, x.timestampMs)
  {
    if lines != [] { AlikeByTime(lines[..|lines| - 1], x); }
  }

  // ---- the active line -------------------------------------------------

  lemma {:induction false} PartitionIsBoundary(lines: seq<LyricsLine>, position: int, lo: nat, hi: nat)
    requires Sorted(lines) && lo <= hi <= |lines|
    requires forall k :: 0 <= k < lo ==> lines[k].timestampMs <= position
    requires forall k :: hi <= k < |lines| ==> lines[k].timestampMs > position
    ensures var i := PartitionPoint(lines, position, lo, hi);
      && (forall k :: 0 <= k < i ==> lines[k].timestampMs <= position)
      && (forall k :: i <= k < |lines| ==> lines[k].timestampMs > position)
    decreases hi - lo
  {
    if lo < hi {
      var mid := (lo + hi) / 2;
      if lines[mid].timestampMs <= position {
        PartitionIsBoundary(lines, position, mid + 1, hi);
      } else {
        PartitionIsBoundary(lines, position, lo, mid);
      }
    }
  }

  /** The active line is the last one at or before the position, if there is one. */
  lemma ActiveIsLast(doc: Document, position: int)
    requires doc.content.Synced? && Sorted(doc.content.lines)
    ensures var lines, a := doc.content.lines, ActiveLine(doc, position);
      && (a.None? ==> forall k :: 0 <= k < |lines| ==> lines[k].timestampMs > position)
      && (a.Some? ==> a.value < |lines| && lines[a.value].timestampMs <= position)
      && (a.Some? ==> forall k :: a.value < k < |lines| ==> lines[k].timestampMs > position)
  {
    PartitionIsBoundary(doc.content.lines, position, 0, |doc.content.lines|);
  }

  /** A later position never selects an earlier line. */
  lemma ActiveMonotone(doc: Document, p: int, q: int)
    requires p <= q && doc.content.Synced? && Sorted(doc.content.lines)
    ensures ActiveLine(doc, p).Some? ==>
      ActiveLine(doc, q).Some? && ActiveLine(doc, p).value <= ActiveLine(doc, q).value
  {
    ActiveIsLast(doc, p);
    ActiveIsLast(doc, q);
  }

  /** A parsed synced document has lines, sorted and in range, so a query before time zero selects none
      and every query selects the last line at or before it. */
  lemma ParsedIsSorted(text: string, position: int)
    requires ParseText(text).Ok? && ParseText(text).value.content.Synced?
    ensures var doc := ParseText(text).value; var lines := doc.content.lines;
      && lines != [] && Sorted(lines)
      && (forall k :: 0 <= k < |lines| ==> 0 <= lines[k].timestampMs <= I64_MAX)
      && (position < 0 ==> ActiveLine(doc, position).None?)
  {
    hide ScanLines, StableSort, Prepared, Shifted, Attached, Blocks, Carried, AllStamps;
    ParseConserves(text);
    var lines := Lines(Prepared(text));
    var st := ScanLines(lines, |lines|).value;
    var before := Shifted(Attached(st), Offset(st));
    SortedInOrder(before, []);
    ShiftedInRange(st);
    var doc := ParseText(text).value;
    SameMembers(doc.content.lines, before);
    ActiveIsLast(doc, position);
  }

  lemma ShiftedInRange(st: Scan)
    requires ShiftAll(st.entries, Offset(st)).Ok?
    ensures forall x :: x in Shifted(Attached(st), Offset(st)) ==> 0 <= x.timestampMs <= I64_MAX
  {
    ShiftIff(st.entries, Offset(st));
    var r := Shifted(Attached(st), Offset(st));
    forall x | x in r ensures 0 <= x.timestampMs <= I64_MAX {
      var k :| 0 <= k < |r| && r[k] == x;
      assert InRange(st.entries[k].raw, Offset(st)) && Attached(st)[k].raw == st.entries[k].raw;
    }
  }

  lemma SameMembers(a: seq<LyricsLine>, b: seq<LyricsLine>)
    requires multiset(a) == multiset(b)
    ensures forall k :: 0 <= k < |a| ==> a[k] in b
  {
    forall k | 0 <= k < |a| ensures a[k] in b {
      assert a[k] in multiset(b);
    }
  }
}
