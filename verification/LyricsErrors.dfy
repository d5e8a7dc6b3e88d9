/** Which error a rejected document gets: that of the first line, token or timestamp at fault. */
module LyricsErrors {
  import opened Wrappers
  import opened LyricsText
  import opened Lyrics
  import opened LyricsDocument

  ghost predicate FirstBadLine(lines: seq<string>, k: nat) {
    k < |lines| && !GoodLine(lines[k]) && forall j :: 0 <= j < k ==> GoodLine(lines[j])
  }

  ghost predicate FirstBadToken(tokens: seq<string>, i: nat) {
    i < |tokens| && !GoodToken(tokens[i]) && forall j :: 0 <= j < i ==> GoodToken(tokens[j])
  }

  ghost function TokenError(token: string, number: nat): LyricsError {
    if TimestampShaped(token) then MalformedTimestamp(number) else MalformedOffset(number)
  }

  /** The error of a bad line: its length, else its first bad token. */
  ghost predicate LineError(line: string, number: nat, e: LyricsError) {
    if Utf8Len(line) > MAX_LINE_BYTES then e == LineTooLong(number, Utf8Len(line))
    else exists i: nat :: FirstBadToken(PartsOf(line).tokens, i) && e == TokenError(PartsOf(line).tokens[i], number)
  }

  lemma BadTokenError(t: Tags, token: string, line: nat)
    requires !GoodToken(token)
    ensures TokenStep(t, token, line) == Err(TokenError(token, line))
  {
    hide ParseTimestamp, ParseOffset, Trim, Lower;
  }

  lemma BadTokensError(t: Tags, tokens: seq<string>, i: nat, line: nat)
    requires FirstBadToken(tokens, i)
    ensures TokenSteps(t, tokens, line) == Err(TokenError(tokens[i], line))
  {
    hide TokenStep, GoodToken, TimestampShaped;
    var done := tokens[..i + 1];
    assert done[..i] == tokens[..i] && done[|done| - 1] == tokens[i];
    TokensScan(t, tokens[..i], line);
    BadTokenError(TokenSteps(t, tokens[..i], line).value, tokens[i], line);
    StepsFail(t, tokens, i + 1, line);
  }

  lemma {:induction false} SomeBadToken(tokens: seq<string>, n: nat) returns (i: nat)
    requires n < |tokens| && !GoodToken(tokens[n])
    ensures FirstBadToken(tokens, i)
  {
    hide GoodToken;
    i := 0;
    while GoodToken(tokens[i])
      invariant i <= n && forall j :: 0 <= j < i ==> GoodToken(tokens[j])
      decreases n - i
    {
      i := i + 1;
    }
  }

  lemma BadLineError(st: Scan, line: string, number: nat)
    requires !GoodLine(line)
    ensures LineStep(st, line, number).Err? && LineError(line, number, LineStep(st, line, number).error)
  {
    hide PartsOf, TokenSteps, GoodToken, Scanned, Utf8Len;
    if Utf8Len(line) <= MAX_LINE_BYTES {
      var tokens := PartsOf(line).tokens;
      var n :| 0 <= n < |tokens| && !GoodToken(tokens[n]);
      var i := SomeBadToken(tokens, n);
      BadTokensError(Tags(st.metadata, st.offset, []), tokens, i, number);
    }
  }

  /** The first bad line decides. */
  lemma ScanError(lines: seq<string>, k: nat)
    requires FirstBadLine(lines, k) && forall j :: 0 <= j < |lines| ==> '\n' !in lines[j]
    ensures ScanLines(lines, |lines|).Err? && LineError(lines[k], k + 1, ScanLines(lines, |lines|).error)
  {
    hide ScanLines, LineStep, GoodLine, LineError, Kept;
    ScanKeeps(lines, k);
    hide *;
    ScanNext(lines, k);
    BadLineError(ScanLines(lines, k).value, lines[k], k + 1);
    ScanFails(lines, k + 1, |lines|);
  }

  lemma ScanNext(lines: seq<string>, k: nat)
    requires k < |lines| && ScanLines(lines, k).Ok?
    ensures ScanLines(lines, k + 1) == LineStep(ScanLines(lines, k).value, lines[k], k + 1)
  {
    hide LineStep;
  }

  // ---- the shift -------------------------------------------------------

  ghost predicate FirstOut(stamps: seq<Stamp>, shift: int, k: nat) {
    k < |stamps| && !InRange(stamps[k].raw, shift) && forall j :: 0 <= j < k ==> InRange(stamps[j].raw, shift)
  }

  ghost function OutError(s: Stamp, shift: int): LyricsError {
    if s.raw + shift < 0 then NegativeTimestamp(s.line) else MalformedTimestamp(s.line)
  }

  lemma ShiftError(entries: seq<Entry>, shift: int, k: nat)
    requires FirstOut(StampsOf(entries), shift, k)
    ensures ShiftAll(entries, shift) == Err(OutError(StampsOf(entries)[k], shift))
  {
    var done := entries[..k + 1];
    assert done[..k] == entries[..k] && done[k] == entries[k];
    ShiftIff(entries[..k], shift);
    forall j | 0 <= j < k ensures InRange(entries[..k][j].raw, shift) {
      assert InRange(StampsOf(entries)[j].raw, shift);
    }
    ShiftFails(entries, k + 1, shift);
  }

  // ---- documents -------------------------------------------------------

  lemma TooManyLinesError(text: string)
    requires |Lines(Prepared(text))| > MAX_LINES
    ensures ParseText(text) == Err(TooManyLines(|Lines(Prepared(text))|))
  {}

  /** Within the limit the first bad line decides. */
  lemma BadLineRejected(text: string, k: nat)
    requires |Lines(Prepared(text))| <= MAX_LINES && FirstBadLine(Lines(Prepared(text)), k)
    ensures ParseText(text).Err? && LineError(Lines(Prepared(text))[k], k + 1, ParseText(text).error)
  {
    hide ScanLines, Prepared, LineError, FirstBadLine, Finish;
    ScanError(Lines(Prepared(text)), k);
  }

  /** With good lines the first timestamp that the offset takes out of range decides. */
  lemma OutOfRangeRejected(text: string, k: nat)
    requires var lines := Lines(Prepared(text));
      && |lines| <= MAX_LINES && (forall j :: 0 <= j < |lines| ==> GoodLine(lines[j]))
      && FirstOut(AllStamps(lines, |lines|), ShiftOf(lines), k)
    ensures var lines := Lines(Prepared(text));
      ParseText(text) == Err(OutError(AllStamps(lines, |lines|)[k], ShiftOf(lines)))
  {
    hide ScanLines, Prepared, GoodLine, Finish, AllStamps;
    FinishError(Lines(Prepared(text)), k);
  }

  lemma FinishError(lines: seq<string>, k: nat)
    requires forall j :: 0 <= j < |lines| ==> '\n' !in lines[j]
    requires forall j :: 0 <= j < |lines| ==> GoodLine(lines[j])
    requires k < |AllStamps(lines, |lines|)| && FirstOut(AllStamps(lines, |lines|), ShiftOf(lines), k)
    ensures ScanLines(lines, |lines|).Ok?
    ensures Finish(ScanLines(lines, |lines|).value) == Err(OutError(AllStamps(lines, |lines|)[k], ShiftOf(lines)))
  {
    hide ScanLines, GoodLine, AllStamps, Kept, Finish, FirstOut, ShiftOf;
    ScanKeeps(lines, |lines|);
    hide *;
    EntriesFail(lines, ScanLines(lines, |lines|).value, k);
  }

  lemma EntriesFail(lines: seq<string>, st: Scan, k: nat)
    requires Kept(lines, |lines|, st)
    requires k < |AllStamps(lines, |lines|)| && FirstOut(AllStamps(lines, |lines|), ShiftOf(lines), k)
    ensures Finish(st) == Err(OutError(AllStamps(lines, |lines|)[k], ShiftOf(lines)))
  {
    hide *;
    KeptStamps(lines, st);
    ShiftError(st.entries, ShiftOf(lines), k);
    FinishFails(st, OutError(AllStamps(lines, |lines|)[k], ShiftOf(lines)));
  }

  lemma KeptStamps(lines: seq<string>, st: Scan)
    requires Kept(lines, |lines|, st)
    ensures StampsOf(st.entries) == AllStamps(lines, |lines|) && Offset(st) == ShiftOf(lines)
  {
    hide AllStamps, OffsetOf, Carried, LastTimed;
  }

  lemma FinishFails(st: Scan, e: LyricsError)
    requires st.entries != [] && ShiftAll(st.entries, Offset(st)) == Err(e)
    ensures Finish(st) == Err(e)
  {
    hide ShiftAll, StableSort, AttachTrailing;
  }
}
