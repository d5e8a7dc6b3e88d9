/** What a document's metadata comes from: the last tag of each kind, read off the leading tokens. */
module LyricsMetadata {
  import opened Wrappers
  import opened LyricsText
  import opened Lyrics
  import LyricsStrip

  // ---- tags by themselves ----------------------------------------------

  /** The same letters, in either case; `key` is in lower case. */
  ghost predicate Spelled(s: string, key: string) {
    |s| == |key| && forall k :: 0 <= k < |s| ==>
      s[k] == key[k] || ('a' <= key[k] <= 'z' && s[k] as int + 32 == key[k] as int)
  }

  /** A `key:value` token: a colon, no timestamp, and the trimmed text before the first colon is the key. */
  ghost predicate Tagged(token: string, key: string, value: string) {
    !TimestampShaped(token) && exists colon: nat :: TaggedAt(token, colon, key, value)
  }

  ghost predicate TaggedAt(token: string, colon: nat, key: string, value: string) {
    && colon < |token| && token[colon] == ':' && ':' !in token[..colon]
    && Spelled(Trim(token[..colon], Space), key) && Trim(token[colon + 1..], Space) == value
  }

  ghost predicate Untagged(token: string, key: string) {
    forall value :: !Tagged(token, key, value)
  }

  /** The value of the last token with the key; none when it is empty or there is no such token. */
  ghost predicate LastTag(tokens: seq<string>, key: string, v: Option<string>) {
    || (v == None && forall k :: 0 <= k < |tokens| ==> Untagged(tokens[k], key))
    || exists k, value :: LastTagAt(tokens, key, k, value) && v == (if value == "" then None else Some(value))
  }

  ghost predicate LastTagAt(tokens: seq<string>, key: string, k: int, value: string) {
    0 <= k < |tokens| && Tagged(tokens[k], key, value) && forall j :: k < j < |tokens| ==> Untagged(tokens[j], key)
  }

  /** Artist, title, album and author are the last `ar`, `ti`, `al` and `by` tags. */
  ghost predicate Describes(tokens: seq<string>, m: Metadata) {
    LastTag(tokens, "ar", m.artist) && LastTag(tokens, "ti", m.title) && LastTag(tokens, "al", m.album)
    && LastTag(tokens, "by", m.author)
  }

  /** The leading tokens of the first `n` lines, in document order. */
  function AllTokens(lines: seq<string>, n: nat): seq<string>
    requires n <= |lines|
  {
    if n == 0 then [] else AllTokens(lines, n - 1) + LeadingTokens(TrimStart(lines[n - 1], AsciiSpace)).tokens
  }

  /** The text of some line among the first `n`, after its leading tokens, has a word tag. */
  ghost predicate SomeWordTag(lines: seq<string>, n: nat)
    requires n <= |lines|
  {
    exists k :: 0 <= k < n && LyricsStrip.HasTag(LeadingTokens(TrimStart(lines[k], AsciiSpace)).rest)
  }

  // ---- one token -------------------------------------------------------

  lemma LowerSpells(s: string, key: string)
    requires forall k :: 0 <= k < |key| ==> 'a' <= key[k] <= 'z'
    ensures Spelled(s, key) <==> Lower(s) == key
  {
    if Spelled(s, key) {
      assert |Lower(s)| == |key| && forall k :: 0 <= k < |s| ==> Lower(s)[k] == key[k];
    }
    if Lower(s) == key {
      forall k | 0 <= k < |s| ensures s[k] == key[k] || s[k] as int + 32 == key[k] as int {
        assert Lower(s)[k] == key[k];
      }
    }
  }

  /** A token's key and value, as the parser splits it. */
  lemma SplitTag(token: string, key: string, value: string)
    requires forall k :: 0 <= k < |key| ==> 'a' <= key[k] <= 'z'
    ensures Tagged(token, key, value) <==>
      !TimestampShaped(token) && Find(token, ':').Some?
      && Lower(Trim(token[..Find(token, ':').value], Space)) == key
      && Trim(token[Find(token, ':').value + 1..], Space) == value
  {
    hide Trim, Spelled, Lower;
    var f := Find(token, ':');
    if f.Some? {
      LowerSpells(Trim(token[..f.value], Space), key);
      forall colon: nat | colon < |token| && token[colon] == ':' && ':' !in token[..colon] ensures colon == f.value {
        FirstColon(token, colon, f.value);
        FirstColon(token, f.value, colon);
      }
      assert TaggedAt(token, f.value, key, value) || !Tagged(token, key, value);
    }
  }

  lemma FirstColon(token: string, i: nat, j: nat)
    requires i < |token| && j < |token| && token[i] == ':' && ':' !in token[..j]
    ensures i >= j
  {}

  /** Tokens settle a key's value. */
  lemma LastTagUnique(tokens: seq<string>, key: string, v: Option<string>, w: Option<string>)
    requires forall k :: 0 <= k < |key| ==> 'a' <= key[k] <= 'z'
    requires LastTag(tokens, key, v) && LastTag(tokens, key, w)
    ensures v == w
  {
    hide Tagged;
    if i, a, j, b :|
        LastTagAt(tokens, key, i, a) && LastTagAt(tokens, key, j, b)
          && v == (if a == "" then None else Some(a)) && w == (if b == "" then None else Some(b)) {
      SplitTag(tokens[i], key, a);
      SplitTag(tokens[i], key, b);
    }
  }

  // ---- scanning --------------------------------------------------------

  lemma NoTags(key: string)
    ensures LastTag([], key, None)
  {}

  /** One more token: its own value if it has the key, else what was there. */
  lemma LastTagSnoc(tokens: seq<string>, token: string, key: string, v: Option<string>)
    requires LastTag(tokens, key, v)
    ensures Untagged(token, key) ==> LastTag(tokens + [token], key, v)
    ensures forall value :: Tagged(token, key, value) ==> LastTag(tokens + [token], key, Slot(value))
  {
    hide Tagged;
    var more := tokens + [token];
    forall value | Tagged(token, key, value) ensures LastTag(more, key, Slot(value)) {
      assert LastTagAt(more, key, |tokens|, value);
    }
    if Untagged(token, key) {
      if v == None && forall k :: 0 <= k < |tokens| ==> Untagged(tokens[k], key) {
        assert forall k :: 0 <= k < |more| ==> Untagged(more[k], key);
      } else {
        var k, value :| LastTagAt(tokens, key, k, value) && v == (if value == "" then None else Some(value));
        assert LastTagAt(more, key, k, value);
      }
    }
  }

  /** The value after one more token. */
  ghost function After(token: string, key: string, v: Option<string>): Option<string> {
    var colon := Find(token, ':');
    if !TimestampShaped(token) && colon.Some? && Lower(Trim(token[..colon.value], Space)) == key
    then Slot(Trim(token[colon.value + 1..], Space)) else v
  }

  lemma KeySnoc(tokens: seq<string>, token: string, key: string, v: Option<string>)
    requires LastTag(tokens, key, v) && forall k :: 0 <= k < |key| ==> 'a' <= key[k] <= 'z'
    ensures LastTag(tokens + [token], key, After(token, key, v))
  {
    hide LastTag, Tagged, Lower, Trim, TimestampShaped, Slot;
    LastTagSnoc(tokens, token, key, v);
    forall value ensures Tagged(token, key, value) <==>
      !TimestampShaped(token) && Find(token, ':').Some?
      && Lower(Trim(token[..Find(token, ':').value], Space)) == key
      && Trim(token[Find(token, ':').value + 1..], Space) == value
    {
      SplitTag(token, key, value);
    }
    var f := Find(token, ':');
    if f.Some? { assert Tagged(token, key, Trim(token[f.value + 1..], Space)) || After(token, key, v) == v; }
  }

  lemma TokenDescribes(tokens: seq<string>, t: Tags, token: string, line: nat)
    requires Describes(tokens, t.metadata) && TokenStep(t, token, line).Ok?
    ensures Describes(tokens + [token], TokenStep(t, token, line).value.metadata)
  {
    hide LastTag, Lower, Trim, TimestampShaped, ParseTimestamp, ParseOffset;
    KeySnoc(tokens, token, "ar", t.metadata.artist);
    KeySnoc(tokens, token, "ti", t.metadata.title);
    KeySnoc(tokens, token, "al", t.metadata.album);
    KeySnoc(tokens, token, "by", t.metadata.author);
  }

  lemma {:induction false} TokensDescribe(before: seq<string>, t: Tags, tokens: seq<string>, line: nat)
    requires Describes(before, t.metadata) && TokenSteps(t, tokens, line).Ok?
    ensures Describes(before + tokens, TokenSteps(t, tokens, line).value.metadata)
  {
    hide Describes, TokenStep;
    if tokens == [] {
      assert before + tokens == before;
    } else {
      var init, last := tokens[..|tokens| - 1], tokens[|tokens| - 1];
      TokensDescribe(before, t, init, line);
      TokenDescribes(before + init, TokenSteps(t, init, line).value, last, line);
      assert before + init + [last] == before + tokens;
    }
  }

  /** After any number of lines: the metadata is that of the tokens read, and the flag that of the texts. */
  lemma {:induction false} ScanDescribes(lines: seq<string>, n: nat)
    requires n <= |lines| && ScanLines(lines, n).Ok?
    ensures var st := ScanLines(lines, n).value;
      Describes(AllTokens(lines, n), st.metadata) && (st.stripped <==> SomeWordTag(lines, n))
  {
    hide Describes, TokenSteps, SomeWordTag;
    if n == 0 {
      NothingDescribed(lines);
    } else {
      ScanDescribes(lines, n - 1);
      var st := ScanLines(lines, n - 1).value;
      TokensDescribe(AllTokens(lines, n - 1), Tags(st.metadata, st.offset, []), PartsOf(lines[n - 1]).tokens, n);
      WordTagSnoc(lines, n);
    }
  }

  lemma NothingDescribed(lines: seq<string>)
    ensures Describes(AllTokens(lines, 0), EMPTY.metadata) && !SomeWordTag(lines, 0)
  {}

  lemma WordTagSnoc(lines: seq<string>, n: nat)
    requires 0 < n <= |lines|
    ensures SomeWordTag(lines, n) <==> SomeWordTag(lines, n - 1) || PartsOf(lines[n - 1]).stripped
  {
    hide LyricsStrip.HasTag, LeadingTokens, StripTags;
    var rest := LeadingTokens(TrimStart(lines[n - 1], AsciiSpace)).rest;
    LyricsStrip.StripsIff(rest);
    if LyricsStrip.HasTag(rest) { assert SomeWordTag(lines, n); }
  }

  /** A parsed document's metadata is that of all its tokens; its flag says whether a word tag was removed. */
  lemma ParseDescribes(text: string)
    requires ParseText(text).Ok?
    ensures var lines, doc := Lines(Prepared(text)), ParseText(text).value;
      Describes(AllTokens(lines, |lines|), doc.metadata) && (doc.wordTagsStripped <==> SomeWordTag(lines, |lines|))
  {
    hide Describes, SomeWordTag, ScanLines, Prepared, ShiftAll, StableSort;
    var lines := Lines(Prepared(text));
    ScanDescribes(lines, |lines|);
  }
}
