/**
 String literals, by how text can be written: an encoder apart from the parser's decoder. What the
 decoder reads is exactly what some writing of the text says, and every writing is read.
 */
module JsonEscapes {
  import opened Wrappers
  import opened Number
  import opened NumberText
  import opened Json
  import opened JsonPrint

  // ---- writing a character ---------------------------------------------

  /** The hexadecimal digit of `v`, in either case. */
  predicate SpellsDigit(h: char, v: nat)
    requires v < 16
  {
    h == "0123456789abcdef"[v] || h == "0123456789ABCDEF"[v]
  }

  predicate IsHex(h: char) {
    h in "0123456789abcdefABCDEF"
  }

  /** `\u` and four hexadecimal digits, most significant first. */
  predicate SpellsUnit(u: string, code: nat) {
    && code < 0x10000 && |u| == 6 && u[0] == '\\' && u[1] == 'u'
    && SpellsDigit(u[2], code / 0x1000) && SpellsDigit(u[3], code / 0x100 % 0x10)
    && SpellsDigit(u[4], code / 0x10 % 0x10) && SpellsDigit(u[5], code % 0x10)
  }

  /** The eight short escapes. */
  const SHORT: map<char, char> := map[
    '"' := '"', '\\' := '\\', '/' := '/',
    'b' := '\U{8}', 'f' := '\U{C}', 'n' := '\U{A}', 'r' := '\U{D}', 't' := '\U{9}']

  /** One way to write a character: as it is, by a short escape, or by its UTF-16 code units. */
  predicate Spells(u: string, c: char) {
    || (u == [c] && c != '"' && c != '\\')
    || (|u| == 2 && u[0] == '\\' && u[1] in SHORT && SHORT[u[1]] == c)
    || SpellsUnit(u, c as nat)
    || (c as nat >= 0x10000 && |u| == 12
        && SpellsUnit(u[..6], 0xD800 + (c as nat - 0x10000) / 0x400)
        && SpellsUnit(u[6..], 0xDC00 + (c as nat - 0x10000) % 0x400))
  }

  ghost predicate AllSpell(us: seq<string>, t: string) {
    |us| == |t| && forall i :: 0 <= i < |us| ==> Spells(us[i], t[i])
  }

  function Concat(us: seq<string>): string {
    if us == [] then "" else us[0] + Concat(us[1..])
  }

  /** A way to write a text. */
  ghost predicate Writes(l: string, t: string) {
    exists us :: AllSpell(us, t) && l == Concat(us)
  }

  // ---- one character ---------------------------------------------------

  lemma DigitRead(h: char, v: nat)
    requires v < 16
    ensures SpellsDigit(h, v) <==> HexValue(h) == Some(v)
  {}

  lemma HexRead(h: char)
    ensures IsHex(h) <==> HexValue(h).Some?
  {}

  lemma Places(a: nat, b: nat, c: nat, d: nat)
    requires a < 16 && b < 16 && c < 16 && d < 16
    ensures var n := ((a * 16 + b) * 16 + c) * 16 + d;
      n / 0x1000 == a && n / 0x100 % 0x10 == b && n / 0x10 % 0x10 == c && n % 0x10 == d
  {}

  /** Four digits read as a code unit exactly when they spell it. */
  lemma UnitRead(l: string, i: nat, code: nat)
    requires i + 6 <= |l| && l[i] == '\\' && l[i + 1] == 'u' && code < 0x10000
    ensures SpellsUnit(l[i..i + 6], code) <==> Hex4(l, i + 2) == Some(code)
  {
    var u := l[i..i + 6];
    DigitRead(l[i + 2], code / 0x1000);
    DigitRead(l[i + 3], code / 0x100 % 0x10);
    DigitRead(l[i + 4], code / 0x10 % 0x10);
    DigitRead(l[i + 5], code % 0x10);
    Hex4Of(l, i + 2, code);
  }

  lemma Hex4Of(l: string, i: nat, code: nat)
    requires i + 4 <= |l| && code < 0x10000
    ensures Hex4(l, i) == Some(code) <==>
      HexValue(l[i]) == Some(code / 0x1000) && HexValue(l[i + 1]) == Some(code / 0x100 % 0x10)
      && HexValue(l[i + 2]) == Some(code / 0x10 % 0x10) && HexValue(l[i + 3]) == Some(code % 0x10)
  {
    hide HexValue;
    var a, b, c, d := HexValue(l[i]), HexValue(l[i + 1]), HexValue(l[i + 2]), HexValue(l[i + 3]);
    if a.Some? && b.Some? && c.Some? && d.Some? { DigitsOf(a.value, b.value, c.value, d.value, code); }
  }

  lemma DigitsOf(a: nat, b: nat, c: nat, d: nat, code: nat)
    requires a < 16 && b < 16 && c < 16 && d < 16 && code < 0x10000
    ensures ((a * 16 + b) * 16 + c) * 16 + d == code <==>
      a == code / 0x1000 && b == code / 0x100 % 0x10 && c == code / 0x10 % 0x10 && d == code % 0x10
  {
    Places(a, b, c, d);
    Recomposed(code);
  }

  lemma Recomposed(code: nat)
    ensures ((code / 0x1000 * 16 + code / 0x100 % 0x10) * 16 + code / 0x10 % 0x10) * 16 + code % 0x10 == code
  {
    var x := code / 0x10;
    var y := x / 0x10;
    assert y == code / 0x100 && y / 0x10 == code / 0x1000;
  }

  // ---- the decoder reads every spelling --------------------------------

  lemma PlainRead(c: char, rest: string)
    requires c != '\\'
    ensures Decode([c] + rest) == Prepend(c, Decode(rest))
  {
    assert ([c] + rest)[1..] == rest;
  }

  lemma ShortRead(x: char, rest: string)
    ensures x in SHORT <==> x != 'u' && SimpleEscape(x).Some?
    ensures x in SHORT ==> Decode(['\\', x] + rest) == Prepend(SHORT[x], Decode(rest))
  {
    assert (['\\', x] + rest)[2..] == rest;
  }

  lemma UnitHex(l: string, i: nat, code: nat)
    requires i + 6 <= |l| && SpellsUnit(l[i..i + 6], code)
    ensures code < 0x10000 && l[i] == '\\' && l[i + 1] == 'u' && Hex4(l, i + 2) == Some(code)
  {
    hide Hex4;
    var u := l[i..i + 6];
    assert u[0] == l[i] && u[1] == l[i + 1];
    UnitRead(l, i, code);
  }

  lemma UnitEscape(l: string, c: char)
    requires |l| >= 6 && SpellsUnit(l[0..6], c as nat)
    ensures UnicodeEscape(l) == Some((c, 6))
  {
    hide SpellsUnit, Hex4;
    UnitHex(l, 0, c as nat);
  }

  /** A character past the basic plane as two code units, high before low. */
  lemma PairEscape(l: string, c: char)
    requires |l| >= 12 && c as nat >= 0x10000
    requires SpellsUnit(l[0..6], 0xD800 + (c as nat - 0x10000) / 0x400)
    requires SpellsUnit(l[6..12], 0xDC00 + (c as nat - 0x10000) % 0x400)
    ensures UnicodeEscape(l) == Some((c, 12))
  {
    hide SpellsUnit, Hex4;
    PairNumber(c as nat);
    UnitHex(l, 0, 0xD800 + (c as nat - 0x10000) / 0x400);
    UnitHex(l, 6, 0xDC00 + (c as nat - 0x10000) % 0x400);
  }

  lemma PairNumber(n: nat)
    requires 0x10000 <= n < 0x110000
    ensures var high, low := 0xD800 + (n - 0x10000) / 0x400, 0xDC00 + (n - 0x10000) % 0x400;
      0xD800 <= high <= 0xDBFF && 0xDC00 <= low <= 0xDFFF && 0x10000 + high % 0x400 * 0x400 + low % 0x400 == n
  {}

  lemma PairParts(high: nat, low: nat)
    requires 0xD800 <= high <= 0xDBFF && 0xDC00 <= low <= 0xDFFF
    ensures var n := 0x10000 + high % 0x400 * 0x400 + low % 0x400;
      n < 0x110000 && 0xD800 + (n - 0x10000) / 0x400 == high && 0xDC00 + (n - 0x10000) % 0x400 == low
  {}

  /** What a `\u` escape is read as is what it spells. */
  lemma EscapeSpells(l: string, c: char, n: nat)
    requires |l| >= 2 && l[0] == '\\' && l[1] == 'u' && UnicodeEscape(l) == Some((c, n))
    ensures n <= |l| && Spells(l[..n], c)
  {
    hide SpellsUnit, Hex4;
    var code := Hex4(l, 2).value;
    UnitRead(l, 0, code);
    assert l[..6] == l[0..6];
    if n == 12 {
      var low := Hex4(l, 8).value;
      UnitRead(l, 6, low);
      assert l[..12][..6] == l[0..6] && l[..12][6..] == l[6..12];
      PairParts(code, low);
    }
  }

  /** Every spelling of a character is read as the character. */
  lemma SpellingRead(u: string, c: char, rest: string)
    requires Spells(u, c)
    ensures Decode(u + rest) == Prepend(c, Decode(rest))
  {
    hide SpellsUnit, Decode, Prepend, SHORT;
    if u == [c] && c != '"' && c != '\\' {
      PlainRead(c, rest);
    } else if |u| == 2 && u[0] == '\\' && u[1] in SHORT && SHORT[u[1]] == c {
      ShortRead(u[1], rest);
      assert u == ['\\', u[1]];
    } else if SpellsUnit(u, c as nat) {
      SpelledUnit(u, c as nat);
      assert (u + rest)[0..6] == u;
      UnitEscape(u + rest, c);
      EscapeRead(u, c, rest);
    } else {
      SpelledUnit(u[..6], 0xD800 + (c as nat - 0x10000) / 0x400);
      assert (u + rest)[0..6] == u[..6] && (u + rest)[6..12] == u[6..];
      PairEscape(u + rest, c);
      EscapeRead(u, c, rest);
    }
  }

  lemma SpelledUnit(u: string, code: nat)
    requires SpellsUnit(u, code)
    ensures |u| == 6 && u[0] == '\\' && u[1] == 'u'
  {}

  lemma EscapeRead(u: string, c: char, rest: string)
    requires |u| >= 2 && u[0] == '\\' && u[1] == 'u' && UnicodeEscape(u + rest) == Some((c, |u|))
    ensures Decode(u + rest) == Prepend(c, Decode(rest))
  {
    hide UnicodeEscape;
    assert (u + rest)[|u|..] == rest;
  }

  // ---- whole literals --------------------------------------------------

  lemma {:induction false} WritingRead(us: seq<string>, t: string)
    requires AllSpell(us, t)
    ensures Decode(Concat(us)) == Some(t)
  {
    hide Spells, Decode;
    if us == [] {
      NothingRead();
    } else {
      WritingRead(us[1..], t[1..]);
      SpellingRead(us[0], t[0], Concat(us[1..]));
      assert [t[0]] + t[1..] == t;
    }
  }

  lemma NothingRead()
    ensures Decode("") == Some("")
  {}

  /** The quote scan steps over one spelling. */
  lemma SpellingScanned(u: string, c: char, s: string, i: nat)
    requires Spells(u, c) && i + |u| <= |s| && s[i..i + |u|] == u
    ensures ScanEnd(s, i) == ScanEnd(s, i + |u|)
  {
    hide SpellsUnit, SHORT, ScanEnd;
    assert u != "" ==> s[i] == u[0];
    if u == [c] && c != '"' && c != '\\' {
      PlainScanned(s, i);
    } else if |u| == 2 && u[0] == '\\' && u[1] in SHORT && SHORT[u[1]] == c {
      EscapeScanned(s, i);
    } else if SpellsUnit(u, c as nat) {
      SpelledUnit(u, c as nat);
      UnitScannedAt(u, c as nat, s, i);
    } else {
      PairScanned(u, 0xD800 + (c as nat - 0x10000) / 0x400, 0xDC00 + (c as nat - 0x10000) % 0x400, s, i);
    }
  }

  lemma PairScanned(u: string, high: nat, low: nat, s: string, i: nat)
    requires |u| == 12 && SpellsUnit(u[..6], high) && SpellsUnit(u[6..], low)
    requires i + 12 <= |s| && s[i..i + 12] == u
    ensures ScanEnd(s, i) == ScanEnd(s, i + 12)
  {
    hide SpellsUnit, ScanEnd;
    assert s[i..i + 6] == s[i..i + 12][..6] && s[i + 6..i + 12] == s[i..i + 12][6..];
    UnitScannedAt(u[..6], high, s, i);
    UnitScannedAt(u[6..], low, s, i + 6);
  }

  lemma UnitScannedAt(u: string, code: nat, s: string, i: nat)
    requires SpellsUnit(u, code) && i + 6 <= |s| && s[i..i + 6] == u
    ensures ScanEnd(s, i) == ScanEnd(s, i + 6)
  {
    UnitDigits(u, code);
    hide ScanEnd, SpellsUnit;
    assert forall k :: 0 <= k < 6 ==> s[i + k] == u[k];
    SixScanned(s, i);
  }

  lemma UnitDigits(u: string, code: nat)
    requires SpellsUnit(u, code)
    ensures |u| == 6 && u[0] == '\\' && forall k :: 2 <= k < 6 ==> u[k] != '"' && u[k] != '\\'
  {
    hide SpellsDigit;
    DigitNotQuote(u[2], code / 0x1000);
    DigitNotQuote(u[3], code / 0x100 % 0x10);
    DigitNotQuote(u[4], code / 0x10 % 0x10);
    DigitNotQuote(u[5], code % 0x10);
  }

  lemma DigitNotQuote(h: char, v: nat)
    requires v < 16 && SpellsDigit(h, v)
    ensures h != '"' && h != '\\'
  {}

  lemma {:induction false} WritingScanned(us: seq<string>, t: string, s: string, i: nat)
    requires AllSpell(us, t) && i + |Concat(us)| < |s| && s[i..i + |Concat(us)|] == Concat(us)
    requires s[i + |Concat(us)|] == '"'
    ensures ScanEnd(s, i) == Some(i + |Concat(us)|)
    decreases us
  {
    hide Spells;
    if us != [] {
      var u, rest := us[0], Concat(us[1..]);
      assert Concat(us) == u + rest;
      Subslice(s, i, u, rest);
      SpellingScanned(u, t[0], s, i);
      WritingScanned(us[1..], t[1..], s, i + |u|);
    }
  }

  /** A scanned and decoded literal is a writing of what it decodes to. */
  lemma {:induction false} ReadIsWritten(s: string, i: nat, end: nat) returns (us: seq<string>)
    requires i <= end <= |s| && ScanEnd(s, i) == Some(end) && Decode(s[i..end]).Some?
    ensures AllSpell(us, Decode(s[i..end]).value) && Concat(us) == s[i..end]
    decreases end - i
  {
    hide Decode, ScanEnd, Spells;
    if i == end {
      us := [];
      NothingRead();
    } else {
      var l := s[i..end];
      assert l[0] != '"' by { NotAtQuote(s, i, end); }
      var n := ReadSpelling(l);
      assert l[..n] == s[i..i + n] && l[n..] == s[i + n..end];
      SpellingScanned(l[..n], Decode(l).value[0], s, i);
      var more := ReadIsWritten(s, i + n, end);
      us := [l[..n]] + more;
      assert Concat(us) == l[..n] + Concat(more);
    }
  }

  lemma NotAtQuote(s: string, i: nat, end: nat)
    requires i < end <= |s| && ScanEnd(s, i) == Some(end)
    ensures s[i] != '"'
  {}

  /** What is read starts with a spelling of its first character. */
  lemma ReadSpelling(l: string) returns (n: nat)
    requires l != "" && l[0] != '"' && Decode(l).Some?
    ensures 0 < n <= |l| && Decode(l).value != "" && Spells(l[..n], Decode(l).value[0])
    ensures Decode(l[n..]) == Some(Decode(l).value[1..])
  {
    hide SpellsUnit, UnicodeEscape, SHORT;
    if l[0] != '\\' {
      n := 1;
    } else if l[1] != 'u' {
      n := 2;
      ShortRead(l[1], l[2..]);
      assert l == ['\\', l[1]] + l[2..];
    } else {
      n := UnicodeEscape(l).value.1;
      EscapeSpells(l, UnicodeEscape(l).value.0, n);
    }
  }

  // ---- string values ---------------------------------------------------

  /** A string value is read exactly when its literal is a writing of a text: that text, up to its first NUL. */
  lemma StringReadIff(s: string, r: string, post: string)
    ensures PString(s) == Got(r, post) <==>
      exists l, t :: Writes(l, t) && s == "\"" + l + "\"" + post && r == CString(t)
  {
    hide Decode, ScanEnd, AllSpell, Concat, CString;
    if PString(s) == Got(r, post) {
      var end := ScanEnd(s, 1).value;
      var us := ReadIsWritten(s, 1, end);
      var l, t := s[1..end], Decode(s[1..end]).value;
      assert Writes(l, t);
      assert s == "\"" + l + "\"" + post;
    }
    if l, t :| Writes(l, t) && s == "\"" + l + "\"" + post && r == CString(t) { WrittenRead(l, t, post); }
  }

  /** Every writing of a text, in quotes, is read as the text up to its first NUL. */
  lemma WrittenRead(l: string, t: string, post: string)
    requires Writes(l, t)
    ensures PString("\"" + l + "\"" + post) == Got(CString(t), post)
  {
    hide Decode, ScanEnd, AllSpell, Concat, CString;
    var us :| AllSpell(us, t) && l == Concat(us);
    var s := "\"" + l + "\"" + post;
    assert s[1..1 + |l|] == l && s[1 + |l|] == '"' && s[|l| + 2..] == post;
    WritingScanned(us, t, s, 1);
    WritingRead(us, t);
  }

  /** As a document. */
  lemma WrittenDocument(l: string, t: string, toDouble: string -> Double)
    requires Writes(l, t)
    ensures ParseDocument("\"" + l + "\"", toDouble) == Some(Value.String(CString(t)))
  {
    hide *;
    WrittenRead(l, t, "");
    var s := "\"" + l + "\"";
    assert s + "" == s && s[0] == '"';
    QuotedDocument(s, CString(t), toDouble);
  }

  lemma QuotedDocument(s: string, r: string, toDouble: string -> Double)
    requires s != "" && s[0] == '"' && PString(s) == Got(r, "")
    ensures ParseDocument(s, toDouble) == Some(Value.String(r))
  {
    hide PString, PValue;
    QuotedValue(s, toDouble);
  }

  lemma QuotedValue(s: string, toDouble: string -> Double)
    requires s != "" && s[0] == '"'
    ensures var r := PString(s);
      PValue(s, 0, toDouble) == if r.Fail? then Fail else Got(Value.String(r.value), r.rest)
  {
    hide PString;
    hide StartsWith;
    StartsDifferently(s, "null");
    StartsDifferently(s, "false");
    StartsDifferently(s, "true");
  }

  lemma StartsDifferently(s: string, p: string)
    requires s != "" && p != "" && s[0] != p[0]
    ensures !StartsWith(s, p)
  {}

  /** A text has one reading: no two texts share a writing. */
  lemma WritingDetermines(l: string, t: string, t': string)
    requires Writes(l, t) && Writes(l, t')
    ensures t == t'
  {
    hide Decode, AllSpell, Concat;
    var us :| AllSpell(us, t) && l == Concat(us);
    var us' :| AllSpell(us', t') && l == Concat(us');
    WritingRead(us, t);
    WritingRead(us', t');
  }

  // ---- refused escapes -------------------------------------------------

  /** `\u` and four hexadecimal digits from position `i`. */
  predicate UnitAt(l: string, i: nat) {
    i + 6 <= |l| && l[i] == '\\' && l[i + 1] == 'u' && forall k :: i + 2 <= k < i + 6 ==> IsHex(l[k])
  }

  /** Digits of a high surrogate, D800 to DBFF. */
  predicate HighAt(l: string, i: nat) {
    UnitAt(l, i) && l[i + 2] in "dD" && l[i + 3] in "89abAB"
  }

  /** Digits of a low surrogate, DC00 to DFFF. */
  predicate LowAt(l: string, i: nat) {
    UnitAt(l, i) && l[i + 2] in "dD" && l[i + 3] in "cdefCDEF"
  }

  lemma UnitCode(l: string, i: nat)
    requires i + 6 <= |l| && l[i] == '\\' && l[i + 1] == 'u'
    ensures UnitAt(l, i) <==> Hex4(l, i + 2).Some?
    ensures HighAt(l, i) <==> Hex4(l, i + 2).Some? && 0xD800 <= Hex4(l, i + 2).value <= 0xDBFF
    ensures LowAt(l, i) <==> Hex4(l, i + 2).Some? && 0xDC00 <= Hex4(l, i + 2).value <= 0xDFFF
  {
    hide IsHex, HexValue;
    HexRead(l[i + 2]);
    HexRead(l[i + 3]);
    HexRead(l[i + 4]);
    HexRead(l[i + 5]);
    LeadDigits(l[i + 2]);
    LeadDigits(l[i + 3]);
    if Hex4(l, i + 2).Some? {
      CodeRange(HexValue(l[i + 2]).value, HexValue(l[i + 3]).value, HexValue(l[i + 4]).value, HexValue(l[i + 5]).value);
    }
  }

  lemma LeadDigits(h: char)
    ensures h in "dD" <==> HexValue(h) == Some(13)
    ensures h in "89abAB" <==> HexValue(h).Some? && 8 <= HexValue(h).value <= 11
    ensures h in "cdefCDEF" <==> HexValue(h).Some? && 12 <= HexValue(h).value
  {}

  lemma CodeRange(a: nat, b: nat, c: nat, d: nat)
    requires a < 16 && b < 16 && c < 16 && d < 16
    ensures var n := ((a * 16 + b) * 16 + c) * 16 + d;
      && (0xD800 <= n <= 0xDBFF <==> a == 13 && 8 <= b <= 11)
      && (0xDC00 <= n <= 0xDFFF <==> a == 13 && 12 <= b)
  {}

  /** A `\u` escape is refused exactly when a digit is missing or bad, a low surrogate comes first, or a
      high one is not followed by a low one. */
  lemma EscapeRefusedIff(l: string)
    requires |l| >= 2 && l[0] == '\\' && l[1] == 'u'
    ensures UnicodeEscape(l) == None <==> !UnitAt(l, 0) || LowAt(l, 0) || (HighAt(l, 0) && !LowAt(l, 6))
  {
    hide Hex4, IsHex;
    if |l| >= 6 { UnitCode(l, 0); }
    if |l| >= 12 && l[6] == '\\' && l[7] == 'u' { UnitCode(l, 6); }
  }

  /** So is the literal it stands in, wherever. */
  lemma {:induction false} RefusedAfter(us: seq<string>, t: string, l: string)
    requires AllSpell(us, t)
    requires |l| >= 2 && l[0] == '\\' && l[1] == 'u' && UnicodeEscape(l) == None
    ensures Decode(Concat(us) + l) == None
  {
    hide Spells, UnicodeEscape;
    if us == [] {
      assert Concat(us) + l == l;
    } else {
      RefusedAfter(us[1..], t[1..], l);
      SpellingRead(us[0], t[0], Concat(us[1..]) + l);
      assert Concat(us) + l == us[0] + (Concat(us[1..]) + l);
    }
  }
}
