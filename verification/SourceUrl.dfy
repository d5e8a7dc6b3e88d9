/** The `mpak:` container-member source key, over the UTF-8 bytes of its strings. */
module SourceUrl {
  import opened Wrappers

  // The encoder pushes each byte as a character, so a byte past ASCII becomes two; the round trip is
  // exact for ASCII containers and otherwise returns the container read as Latin-1.

  type byte = x: int | 0 <= x < 256

  type Bytes = seq<byte>

  const PERCENT: byte := 37
  const SEPARATOR: byte := 35
  const PREFIX: Bytes := [109, 112, 97, 107, 58]

  datatype Source = Source(container: Bytes, member: Bytes)

  datatype SourceUrlError = MissingSeparator | EmptyContainer | EmptyMember | BadEscape

  datatype Parsed = Plain | Member(source: Source) | Malformed(error: SourceUrlError)

  // ---- UTF-8 -----------------------------------------------------------

  predicate Continuation(b: byte) {
    0x80 <= b < 0xC0
  }

  /** The length of the well-formed sequence that starts here, zero when there is none. */
  function SequenceLength(s: Bytes): (n: nat)
    ensures n <= |s|
  {
    if s == [] then 0
    else if s[0] < 0x80 then 1
    else if 0xC2 <= s[0] < 0xE0 then if |s| > 1 && Continuation(s[1]) then 2 else 0
    else if 0xE0 <= s[0] < 0xF0 then
      if |s| > 2 && Continuation(s[1]) && Continuation(s[2]) && (s[0] == 0xE0 ==> s[1] >= 0xA0)
        && (s[0] == 0xED ==> s[1] < 0xA0)
      then 3 else 0
    else if 0xF0 <= s[0] < 0xF5 then
      if |s| > 3 && Continuation(s[1]) && Continuation(s[2]) && Continuation(s[3]) &&
        (s[0] == 0xF0 ==> s[1] >= 0x90) && (s[0] == 0xF4 ==> s[1] < 0x90)
      then 4 else 0
    else 0
  }

  predicate Utf8(s: Bytes) {
    s == [] || (SequenceLength(s) > 0 && Utf8(s[SequenceLength(s)..]))
  }

  // ---- encoding --------------------------------------------------------

  /** A byte as the character of that number, in UTF-8. */
  function AsChar(b: byte): (r: Bytes)
    ensures 1 <= |r| <= 2
  {
    if b < 0x80 then [b] else [0xC0 + b / 64, 0x80 + b % 64]
  }

  function EncodeByte(b: byte): Bytes {
    if b == PERCENT then [PERCENT, 50, 53]
    else if b == SEPARATOR then [PERCENT, 50, 51]
    else AsChar(b)
  }

  function EncodeContainer(s: Bytes): Bytes {
    if s == [] then [] else EncodeByte(s[0]) + EncodeContainer(s[1..])
  }

  method PercentEncodeContainer(input: Bytes) returns (out: Bytes)
    ensures out == EncodeContainer(input)
  {
    out := [];
    for i := 0 to |input|
      invariant out + EncodeContainer(input[i..]) == EncodeContainer(input)
    {
      var b := input[i];
      assert input[i..][1..] == input[i + 1..];
      Regroup(out, EncodeByte(b), EncodeContainer(input[i + 1..]));
      var piece := EscapeByte(b);
      out := out + piece;
    }
    assert out + [] == out;
  }

  /** `%XX` for the structural bytes, the byte as a character otherwise. */
  method EscapeByte(b: byte) returns (piece: Bytes)
    ensures piece == EncodeByte(b)
  {
    if b == PERCENT || b == SEPARATOR {
      return [PERCENT, HexUpper(b / 16), HexUpper(b % 16)];
    }
    return AsChar(b);
  }

  lemma Regroup(a: Bytes, b: Bytes, c: Bytes)
    ensures a + (b + c) == a + b + c
  {}

  function HexUpper(n: nat): byte
    requires n < 16
  {
    if n < 10 then 48 + n else 55 + n
  }

  function FormatSource(container: Bytes, member: Bytes): Bytes {
    PREFIX + EncodeContainer(container) + [SEPARATOR] + member
  }

  // ---- decoding --------------------------------------------------------

  predicate HexDigit(b: byte) {
    48 <= b <= 57 || 65 <= b <= 70 || 97 <= b <= 102
  }

  function HexValue(b: byte): (n: nat)
    requires HexDigit(b)
    ensures n < 16
  {
    if b <= 57 then b - 48 else if b <= 70 then b - 55 else b - 87
  }

  /** Every `%XX` replaced by its byte; none when an escape is malformed. */
  function Unescape(s: Bytes): Option<Bytes> {
    if s == [] then Some([])
    else if s[0] == PERCENT then
      if |s| < 3 || !HexDigit(s[1]) || !HexDigit(s[2]) then None else
        var more := Unescape(s[3..]);
        if more.None? then None else Some([HexValue(s[1]) * 16 + HexValue(s[2])] + more.value)
    else
      var more := Unescape(s[1..]);
      if more.None? then None else Some([s[0]] + more.value)
  }

  /** Escapes decoded and checked to be UTF-8; a text without escapes is returned as it is. */
  function Decoded(s: Bytes): Option<Bytes> {
    if PERCENT !in s then Some(s) else
      var out := Unescape(s);
      if out.Some? && Utf8(out.value) then out else None
  }

  method PercentDecode(input: Bytes) returns (r: Option<Bytes>)
    ensures r == Decoded(input)
  {
    if PERCENT !in input {
      return Some(input);
    }
    var out: Bytes := [];
    var i := 0;
    assert input[0..] == input;
    PrefixedNothing(Unescape(input));
    while i < |input|
      invariant 0 <= i <= |input|
      invariant Unescape(input) == Prefixed(out, Unescape(input[i..]))
    {
      ghost var was := out;
      if input[i] == PERCENT {
        if i + 3 > |input| || !HexDigit(input[i + 1]) || !HexDigit(input[i + 2]) {
          return None;
        }
        out := out + [HexValue(input[i + 1]) * 16 + HexValue(input[i + 2])];
        assert input[i..][3..] == input[i + 3..];
        PrefixedTwice(was, out[|was|], Unescape(input[i + 3..]));
        i := i + 3;
      } else {
        out := out + [input[i]];
        assert input[i..][1..] == input[i + 1..];
        PrefixedTwice(was, input[i], Unescape(input[i + 1..]));
        i := i + 1;
      }
    }
    assert out + [] == out;
    return if Utf8(out) then Some(out) else None;
  }

  function Prefixed(out: Bytes, more: Option<Bytes>): Option<Bytes> {
    if more.None? then None else Some(out + more.value)
  }

  lemma PrefixedNothing(more: Option<Bytes>)
    ensures Prefixed([], more) == more
  {
    if more.Some? { assert [] + more.value == more.value; }
  }

  lemma PrefixedTwice(out: Bytes, b: byte, more: Option<Bytes>)
    ensures Prefixed(out + [b], more) == Prefixed(out, if more.None? then None else Some([b] + more.value))
  {
    if more.Some? { assert out + [b] + more.value == out + ([b] + more.value); }
  }

  // ---- parsing ---------------------------------------------------------

  function FirstSeparator(s: Bytes): (r: Option<nat>)
    ensures r.Some? ==> r.value < |s| && s[r.value] == SEPARATOR && SEPARATOR !in s[..r.value]
    ensures r.None? ==> SEPARATOR !in s
  {
    if s == [] then None
    else if s[0] == SEPARATOR then Some(0)
    else
      var r := FirstSeparator(s[1..]);
      assert s == [s[0]] + s[1..];
      if r.None? then None else
        assert s[..r.value + 1] == [s[0]] + s[1..][..r.value];
        Some(r.value + 1)
  }

  function ParseSource(url: Bytes): Parsed {
    if !(PREFIX <= url) then Plain else
      var rest := url[|PREFIX|..];
      var at := FirstSeparator(rest);
      if at.None? then Malformed(MissingSeparator)
      else if at.value == 0 then Malformed(EmptyContainer)
      else if at.value + 1 == |rest| then Malformed(EmptyMember)
      else
        var container := Decoded(rest[..at.value]);
        if container.None? then Malformed(BadEscape) else Member(Source(container.value, rest[at.value + 1..]))
  }

  function TransportUrl(url: Bytes): Bytes {
    var p := ParseSource(url);
    if p.Member? then p.source.container else url
  }

  // ---- results ---------------------------------------------------------

  /** Bytes read as Latin-1 characters. */
  function Latin1(s: Bytes): Bytes {
    if s == [] then [] else AsChar(s[0]) + Latin1(s[1..])
  }

  predicate Ascii(s: Bytes) {
    forall k :: 0 <= k < |s| ==> s[k] < 0x80
  }

  /** Reading as Latin-1 changes exactly the texts that are not ASCII. */
  lemma {:induction false} Latin1Iff(s: Bytes)
    ensures Latin1(s) == s <==> Ascii(s)
    ensures |Latin1(s)| >= |s| && (!Ascii(s) ==> |Latin1(s)| > |s|)
    decreases |s|
  {
    if s != [] {
      Latin1Iff(s[1..]);
      assert s == [s[0]] + s[1..];
      assert Ascii(s) <==> s[0] < 0x80 && Ascii(s[1..]);
    }
  }

  lemma {:induction false} Latin1Utf8(s: Bytes)
    ensures Utf8(Latin1(s))
    decreases |s|
  {
    if s != [] {
      Latin1Utf8(s[1..]);
      var c, more := AsChar(s[0]), Latin1(s[1..]);
      assert (c + more)[|c|..] == more;
    }
  }

  /** The encoder leaves no separator in the container. */
  lemma {:induction false} EncodedHasNoSeparator(s: Bytes)
    ensures SEPARATOR !in EncodeContainer(s)
    ensures s != [] ==> EncodeContainer(s) != []
    decreases |s|
  {
    if s != [] { EncodedHasNoSeparator(s[1..]); }
  }

  lemma UnescapeByte(b: byte, rest: Bytes)
    ensures Unescape(EncodeByte(b) + rest) == Prefixed(AsChar(b), Unescape(rest))
  {
    var s := EncodeByte(b) + rest;
    if b == PERCENT || b == SEPARATOR {
      assert s[3..] == rest;
    } else if b < 0x80 {
      assert s[1..] == rest;
    } else {
      var c := AsChar(b);
      assert s[1..] == [c[1]] + rest && s[1..][1..] == rest;
      if Unescape(rest).Some? { assert [c[0]] + ([c[1]] + Unescape(rest).value) == c + Unescape(rest).value; }
    }
  }

  /** Decoding undoes encoding, up to the Latin-1 reading. */
  lemma {:induction false} UnescapeEncoded(s: Bytes)
    ensures Unescape(EncodeContainer(s)) == Some(Latin1(s))
    decreases |s|
  {
    if s != [] {
      UnescapeEncoded(s[1..]);
      UnescapeByte(s[0], EncodeContainer(s[1..]));
    }
  }

  lemma {:induction false} UnescapePlain(s: Bytes)
    requires PERCENT !in s
    ensures Unescape(s) == Some(s)
    decreases |s|
  {
    if s != [] {
      UnescapePlain(s[1..]);
      assert s == [s[0]] + s[1..] && s[0] in s;
    }
  }

  lemma DecodeEncoded(s: Bytes)
    ensures Decoded(EncodeContainer(s)) == Some(Latin1(s))
  {
    UnescapeEncoded(s);
    Latin1Utf8(s);
    if PERCENT !in EncodeContainer(s) { UnescapePlain(EncodeContainer(s)); }
  }

  lemma {:induction false} FirstSeparatorAfter(a: Bytes, b: Bytes)
    requires SEPARATOR !in a
    ensures FirstSeparator(a + [SEPARATOR] + b) == Some(|a|)
    decreases |a|
  {
    var s := a + [SEPARATOR] + b;
    if a != [] {
      FirstSeparatorAfter(a[1..], b);
      assert s[1..] == a[1..] + [SEPARATOR] + b && a[0] in a;
    }
  }

  /** A formatted key parses to its member and the container's Latin-1 reading; empty parts are refused. */
  lemma ParseFormatted(container: Bytes, member: Bytes)
    ensures ParseSource(FormatSource(container, member)) ==
      if container == [] then Malformed(EmptyContainer)
      else if member == [] then Malformed(EmptyMember)
      else Member(Source(Latin1(container), member))
  {
    var e := EncodeContainer(container);
    var rest := e + [SEPARATOR] + member;
    var url := FormatSource(container, member);
    assert url == PREFIX + rest && url[|PREFIX|..] == rest;
    EncodedHasNoSeparator(container);
    FirstSeparatorAfter(e, member);
    assert rest[..|e|] == e && rest[|e| + 1..] == member;
    DecodeEncoded(container);
  }

  /** The round trip is exact for non-empty parts exactly when the container is ASCII. */
  lemma RoundTripIff(container: Bytes, member: Bytes)
    requires container != [] && member != []
    ensures ParseSource(FormatSource(container, member)) == Member(Source(container, member)) <==> Ascii(container)
    ensures TransportUrl(FormatSource(container, member)) == container <==> Ascii(container)
  {
    ParseFormatted(container, member);
    Latin1Iff(container);
  }

  /** A byte's character tells where it ends, so it is read off the front in one way. */
  lemma AsCharPrefix(a: byte, b: byte, s: Bytes, t: Bytes)
    requires AsChar(a) + s == AsChar(b) + t
    ensures a == b && s == t
  {
    var x := AsChar(a) + s;
    assert x[0] == AsChar(a)[0] == AsChar(b)[0];
    assert |AsChar(a)| == |AsChar(b)| == if x[0] < 0x80 then 1 else 2;
    assert x[|AsChar(a)|..] == s && x[|AsChar(b)|..] == t;
    assert a >= 0x80 ==> x[1] == 0x80 + a % 64 == 0x80 + b % 64;
  }

  /** Different bytes read differently as Latin-1. */
  lemma {:induction false} Latin1Injective(a: Bytes, b: Bytes)
    requires Latin1(a) == Latin1(b)
    ensures a == b
    decreases |a|
  {
    if a != [] && b != [] {
      AsCharPrefix(a[0], b[0], Latin1(a[1..]), Latin1(b[1..]));
      Latin1Injective(a[1..], b[1..]);
      assert a == [a[0]] + a[1..] && b == [b[0]] + b[1..];
    }
  }

  /** Different containers or members have different keys, whatever their bytes. */
  lemma FormatInjective(c1: Bytes, m1: Bytes, c2: Bytes, m2: Bytes)
    requires c1 != [] && m1 != [] && c2 != [] && m2 != []
    requires FormatSource(c1, m1) == FormatSource(c2, m2)
    ensures c1 == c2 && m1 == m2
  {
    ParseFormatted(c1, m1);
    ParseFormatted(c2, m2);
    Latin1Injective(c1, c2);
  }
}
