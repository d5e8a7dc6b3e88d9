/**
 The JSON value and the cJSON-compatible parser. The parser's specification maps the remaining
 text to a value and what is left; the `Parser` class, with its position and depth, refines it.
 */
module Json {
  import opened Wrappers
  import opened Number
  import opened NumberText
  import opened JsonNumber

  // Text is a string of Unicode scalar values: the program works on the UTF-8 bytes of a validated
  // string, and every byte it inspects is ASCII. Converting an accepted number token to a double
  // is the standard library's and is a parameter, `toDouble`.

  const NESTING_LIMIT: nat := 1000

  /** A number's text is cut here. */
  const TOKEN_LIMIT: nat := 63

  datatype Value =
    | Null
    | Bool(b: bool)
    | Number(n: Double)
    | String(s: string)
    | Array(items: seq<Value>)
    | Object(members: seq<Member>)

  datatype Member = Member(key: string, value: Value)

  /** A value and the text after it, or a parse error. */
  datatype Parsed<+T> = Fail | Got(value: T, rest: string)

  // ---- specification of the parser -------------------------------------

  function SkipWs(s: string): (r: string)
    ensures |r| <= |s|
    ensures r != "" ==> r[0] > ' '
  {
    if s != "" && s[0] <= ' ' then SkipWs(s[1..]) else s
  }

  predicate StartsWith(s: string, p: string) {
    |p| <= |s| && s[..|p|] == p
  }

  /** The index of the closing quote at or after `i`; a backslash hides the next character. */
  function ScanEnd(s: string, i: nat): (r: Option<nat>)
    ensures r.Some? ==> i <= r.value < |s| && s[r.value] == '"'
    decreases |s| - i
  {
    if i >= |s| then None
    else if s[i] == '"' then Some(i)
    else if s[i] == '\\' then (if i + 1 >= |s| then None else ScanEnd(s, i + 2))
    else ScanEnd(s, i + 1)
  }

  function HexValue(c: char): (r: Option<nat>)
    ensures r.Some? ==> r.value < 16
  {
    if '0' <= c <= '9' then Some(c as nat - '0' as nat)
    else if 'a' <= c <= 'f' then Some(c as nat - 'a' as nat + 10)
    else if 'A' <= c <= 'F' then Some(c as nat - 'A' as nat + 10)
    else None
  }

  /** Four hexadecimal digits from position `i`. */
  function Hex4(l: string, i: nat): (r: Option<nat>)
    requires i + 4 <= |l|
    ensures r.Some? ==> r.value < 0x10000
  {
    var a, b, c, d := HexValue(l[i]), HexValue(l[i + 1]), HexValue(l[i + 2]), HexValue(l[i + 3]);
    if a.Some? && b.Some? && c.Some? && d.Some? then
      Some(((a.value * 16 + b.value) * 16 + c.value) * 16 + d.value)
    else None
  }

  /** What the two-character escape `\c` stands for. */
  function SimpleEscape(c: char): Option<char> {
    match c
    case 'b' => Some(8 as char)
    case 'f' => Some(12 as char)
    case 'n' => Some('\n')
    case 'r' => Some('\r')
    case 't' => Some('\t')
    case '"' => Some('"')
    case '\\' => Some('\\')
    case '/' => Some('/')
    case _ => None
  }

  /** The character of a `\u` escape (or surrogate pair of escapes) at the start of `l`, and its length. */
  function UnicodeEscape(l: string): (r: Option<(char, nat)>)
    requires |l| >= 2
    ensures r.Some? ==> 0 < r.value.1 <= |l|
  {
    if |l| < 6 then None else
      match Hex4(l, 2)
      case None => None
      case Some(code) =>
        if 0xDC00 <= code <= 0xDFFF then None
        else if 0xD800 <= code <= 0xDBFF then
          if |l| < 12 || l[6] != '\\' || l[7] != 'u' then None else
            match Hex4(l, 8)
            case None => None
            case Some(low) =>
              if !(0xDC00 <= low <= 0xDFFF) then None
              else Some(((0x10000 + code % 0x400 * 0x400 + low % 0x400) as char, 12))
        else Some((code as char, 6))
  }

  /** Decodes a literal's escapes. */
  function Decode(l: string): (r: Option<string>)
    decreases |l|
  {
    if l == "" then Some("")
    else if l[0] != '\\' then Prepend(l[0], Decode(l[1..]))
    else if |l| < 2 then None
    else if l[1] == 'u' then
      match UnicodeEscape(l)
      case None => None
      case Some((c, n)) => Prepend(c, Decode(l[n..]))
    else
      match SimpleEscape(l[1])
      case None => None
      case Some(c) => Prepend(c, Decode(l[2..]))
  }

  function Prepend(c: char, r: Option<string>): Option<string> {
    match r
    case None => None
    case Some(t) => Some([c] + t)
  }

  /** The text before the first NUL. */
  function CString(s: string): (r: string)
    ensures |r| <= |s|
  {
    s[..IndexOf(s, 0 as char)]
  }

  function PString(s: string): (r: Parsed<string>)
    ensures r.Got? ==> |r.rest| < |s|
  {
    if s == "" || s[0] != '"' then Fail else
      match ScanEnd(s, 1)
      case None => Fail
      case Some(end) =>
        match Decode(s[1..end])
        case None => Fail
        case Some(t) => Got(CString(t), s[end + 1..])
  }

  /** Length of the leading run of number characters, at most `limit`. */
  function CharsetRun(s: string, limit: nat): (n: nat)
    ensures n <= limit && n <= |s|
    ensures forall i :: 0 <= i < n ==> InNumberCharset(s[i])
    ensures n < limit && n < |s| ==> !InNumberCharset(s[n])
  {
    if limit == 0 || s == "" || !InNumberCharset(s[0]) then 0 else
      var n := CharsetRun(s[1..], limit - 1);
      assert forall i :: 0 < i < n + 1 ==> s[i] == s[1..][i - 1];
      n + 1
  }

  function PNumber(s: string, toDouble: string -> Double): (r: Parsed<Value>)
    ensures r.Got? ==> |r.rest| < |s|
  {
    var consumed := ScanLength(s[..CharsetRun(s, TOKEN_LIMIT)]);
    if consumed == 0 then Fail else Got(Number(toDouble(s[..consumed])), s[consumed..])
  }

  function PValue(s: string, depth: nat, toDouble: string -> Double): (r: Parsed<Value>)
    ensures r.Got? ==> |r.rest| < |s|
    decreases |s|, 2
  {
    if s == "" then Fail
    else if StartsWith(s, "null") then Got(Null, s[4..])
    else if StartsWith(s, "false") then Got(Bool(false), s[5..])
    else if StartsWith(s, "true") then Got(Bool(true), s[4..])
    else if s[0] == '"' then
      var r := PString(s);
      if r.Fail? then Fail else Got(String(r.value), r.rest)
    else if s[0] == '-' || IsDigit(s[0]) then PNumber(s, toDouble)
    else if s[0] == '[' then
      if depth >= NESTING_LIMIT then Fail else
        var t := SkipWs(s[1..]);
        if t != "" && t[0] == ']' then Got(Array([]), t[1..])
        else PItems(t, depth + 1, [], toDouble)
    else if s[0] == '{' then
      if depth >= NESTING_LIMIT then Fail else
        var t := SkipWs(s[1..]);
        if t != "" && t[0] == '}' then Got(Object([]), t[1..])
        else PMembers(t, depth + 1, [], toDouble)
    else Fail
  }

  /** Array items from here to the closing bracket, after those already read. */
  function PItems(s: string, depth: nat, read: seq<Value>, toDouble: string -> Double): (r: Parsed<Value>)
    ensures r.Got? ==> |r.rest| < |s|
    decreases |s|, 4
  {
    var v := PItem(s, depth, toDouble);
    if v.Fail? || v.rest == "" then Fail
    else if v.rest[0] == ',' then PItems(v.rest[1..], depth, read + [v.value], toDouble)
    else if v.rest[0] == ']' then Got(Array(read + [v.value]), v.rest[1..])
    else Fail
  }

  /** One item and the whitespace around it. */
  function PItem(s: string, depth: nat, toDouble: string -> Double): (r: Parsed<Value>)
    ensures r.Got? ==> |r.rest| < |s|
    decreases |s|, 3
  {
    var v := PValue(SkipWs(s), depth, toDouble);
    if v.Fail? then Fail else Got(v.value, SkipWs(v.rest))
  }

  /** One `key: value` pair and the whitespace around it. */
  function PMember(s: string, depth: nat, toDouble: string -> Double): (r: Parsed<Member>)
    ensures r.Got? ==> |r.rest| < |s|
    decreases |s|, 3
  {
    var k := PString(SkipWs(s));
    if k.Fail? then Fail else
      var t := SkipWs(k.rest);
      if t == "" || t[0] != ':' then Fail else
        var v := PValue(SkipWs(t[1..]), depth, toDouble);
        if v.Fail? then Fail else Got(Member(k.value, v.value), SkipWs(v.rest))
  }

  function PMembers(s: string, depth: nat, read: seq<Member>, toDouble: string -> Double): (r: Parsed<Value>)
    ensures r.Got? ==> |r.rest| < |s|
    decreases |s|, 4
  {
    var m := PMember(s, depth, toDouble);
    if m.Fail? || m.rest == "" then Fail
    else if m.rest[0] == ',' then PMembers(m.rest[1..], depth, read + [m.value], toDouble)
    else if m.rest[0] == '}' then Got(Object(read + [m.value]), m.rest[1..])
    else Fail
  }

  const BOM: char := '\U{FEFF}'

  /** A whole document: one value, then only whitespace. */
  function ParseDocument(text: string, toDouble: string -> Double): Option<Value> {
    var body := if text != "" && text[0] == BOM then text[1..] else text;
    var r := PValue(SkipWs(body), 0, toDouble);
    if r.Fail? || SkipWs(r.rest) != "" then None else Some(r.value)
  }

  // ---- the parser ------------------------------------------------------

  class Parser {
    const text: string
    const toDouble: string -> Double
    var pos: nat
    var depth: nat

    ghost predicate Valid()
      reads this
    {
      pos <= |text|
    }

    function Rest(): string
      requires Valid()
      reads this
    {
      text[pos..]
    }

    constructor (text: string, toDouble: string -> Double)
      ensures Valid() && this.text == text && this.toDouble == toDouble && pos == 0 && depth == 0
    {
      this.text := text;
      this.toDouble := toDouble;
      pos, depth := 0, 0;
    }

    method Peek() returns (c: Option<char>)
      requires Valid()
      ensures c == if Rest() == "" then None else Some(Rest()[0])
    {
      c := if pos < |text| then Some(text[pos]) else None;
    }

    method Skip()
      requires Valid()
      modifies `pos
      ensures Valid() && Rest() == SkipWs(old(Rest())) && pos >= old(pos)
    {
      while pos < |text| && text[pos] <= ' '
        invariant Valid() && pos >= old(pos)
        invariant SkipWs(Rest()) == SkipWs(old(Rest()))
      {
        assert text[pos..][1..] == text[pos + 1..];
        pos := pos + 1;
      }
    }

    /** The outcome of a parse, in terms of position and depth. */
    ghost predicate Outcome<T>(r: Option<T>, expected: Parsed<T>, d: nat)
      reads this
    {
      match expected
      case Fail => r.None?
      case Got(v, rest) => r == Some(v) && Valid() && Rest() == rest && depth == d
    }

    method ParseValue() returns (r: Option<Value>)
      requires Valid()
      modifies this
      ensures Outcome(r, old(PValue(Rest(), depth, toDouble)), old(depth))
      decreases |text| - pos, 2
    {
      ghost var s := Rest();
      var c := Peek();
      if c.None? {
        return None;
      }
      if StartsWith(text[pos..], "null") {
        assert s[4..] == text[pos + 4..];
        pos := pos + 4;
        return Some(Null);
      }
      if StartsWith(text[pos..], "false") {
        assert s[5..] == text[pos + 5..];
        pos := pos + 5;
        return Some(Bool(false));
      }
      if StartsWith(text[pos..], "true") {
        assert s[4..] == text[pos + 4..];
        pos := pos + 4;
        return Some(Bool(true));
      }
      if c.value == '"' {
        var t := ParseString();
        return if t.None? then None else Some(String(t.value));
      }
      if c.value == '-' || IsDigit(c.value) {
        r := ParseNumber();
        return;
      }
      if c.value == '[' {
        r := ParseArray();
        return;
      }
      if c.value == '{' {
        r := ParseObject();
        return;
      }
      return None;
    }

    method ParseArray() returns (r: Option<Value>)
      requires Valid() && Rest() != "" && Rest()[0] == '['
      modifies this
      ensures Outcome(r, old(PValue(Rest(), depth, toDouble)), old(depth))
      decreases |text| - pos, 1
    {
      hide PItems, PMembers, PString, SkipWs, PNumber;
      if depth >= NESTING_LIMIT {
        return None;
      }
      assert text[pos..][1..] == text[pos + 1..];
      depth := depth + 1;
      pos := pos + 1;
      Skip();
      var c := Peek();
      if c == Some(']') {
        assert text[pos..][1..] == text[pos + 1..];
        pos := pos + 1;
        depth := depth - 1;
        return Some(Array([]));
      }
      r := ParseItems();
    }

    method ParseObject() returns (r: Option<Value>)
      requires Valid() && Rest() != "" && Rest()[0] == '{'
      modifies this
      ensures Outcome(r, old(PValue(Rest(), depth, toDouble)), old(depth))
      decreases |text| - pos, 1
    {
      hide PItems, PMembers, PString, SkipWs, PNumber;
      if depth >= NESTING_LIMIT {
        return None;
      }
      assert text[pos..][1..] == text[pos + 1..];
      depth := depth + 1;
      pos := pos + 1;
      Skip();
      var c := Peek();
      if c == Some('}') {
        assert text[pos..][1..] == text[pos + 1..];
        pos := pos + 1;
        depth := depth - 1;
        return Some(Object([]));
      }
      r := ParseMembers();
    }

    /** The loop over the items, up to and including the closing bracket. */
    method ParseItems() returns (r: Option<Value>)
      requires Valid() && depth > 0
      modifies this
      ensures Outcome(r, old(PItems(Rest(), depth, [], toDouble)), old(depth) - 1)
      decreases |text| - pos, 4
    {
      hide PItem, PValue, SkipWs, StartsWith;
      var items: seq<Value> := [];
      ghost var expected, d := PItems(Rest(), depth, [], toDouble), depth;
      while true
        invariant Valid() && pos >= old(pos) && depth == d
        invariant expected == PItems(Rest(), d, items, toDouble)
        decreases |text| - pos
      {
        var v := ParseItem();
        if v.None? {
          return None;
        }
        items := items + [v.value];
        var c := Peek();
        if c != Some(',') && c != Some(']') {
          return None;
        }
        assert text[pos..][1..] == text[pos + 1..];
        pos := pos + 1;
        if c == Some(']') {
          depth := depth - 1;
          return Some(Array(items));
        }
      }
    }

    method ParseItem() returns (r: Option<Value>)
      requires Valid()
      modifies this
      ensures Outcome(r, old(PItem(Rest(), depth, toDouble)), old(depth))
      decreases |text| - pos, 3
    {
      Skip();
      r := ParseValue();
      if r.Some? {
        Skip();
      }
    }

    /** The loop over the members, up to and including the closing bracket. */
    method ParseMembers() returns (r: Option<Value>)
      requires Valid() && depth > 0
      modifies this
      ensures Outcome(r, old(PMembers(Rest(), depth, [], toDouble)), old(depth) - 1)
      decreases |text| - pos, 4
    {
      hide PMember, PValue, PString, SkipWs, StartsWith;
      var members: seq<Member> := [];
      ghost var expected, d := PMembers(Rest(), depth, [], toDouble), depth;
      while true
        invariant Valid() && pos >= old(pos) && depth == d
        invariant expected == PMembers(Rest(), d, members, toDouble)
        decreases |text| - pos
      {
        var m := ParseMember();
        if m.None? {
          return None;
        }
        members := members + [m.value];
        var c := Peek();
        if c != Some(',') && c != Some('}') {
          return None;
        }
        assert text[pos..][1..] == text[pos + 1..];
        pos := pos + 1;
        if c == Some('}') {
          depth := depth - 1;
          return Some(Object(members));
        }
      }
    }

    /** One `key: value` pair. */
    method ParseMember() returns (r: Option<Member>)
      requires Valid()
      modifies this
      ensures Outcome(r, old(PMember(Rest(), depth, toDouble)), old(depth))
      decreases |text| - pos, 3
    {
      hide PValue, PString, PItems, PMembers, SkipWs, StartsWith;
      Skip();
      var key := ParseString();
      if key.None? {
        return None;
      }
      Skip();
      var c := Peek();
      if c != Some(':') {
        return None;
      }
      assert text[pos..][1..] == text[pos + 1..];
      pos := pos + 1;
      Skip();
      var v := ParseValue();
      if v.None? {
        return None;
      }
      Skip();
      return Some(Member(key.value, v.value));
    }

    method ParseString() returns (r: Option<string>)
      requires Valid()
      modifies `pos
      ensures Outcome(r, old(PString(Rest())), old(depth))
    {
      ghost var s := Rest();
      var c := Peek();
      if c != Some('"') {
        return None;
      }
      var start := pos + 1;
      var end := start;
      while end < |text| && text[end] != '"'
        invariant start <= end
        invariant end - pos <= |s| + 1
        invariant ScanEnd(s, end - pos) == ScanEnd(s, 1)
        decreases |text| - end
      {
        if text[end] == '\\' {
          if end + 1 >= |text| {
            return None;
          }
          end := end + 2;
        } else {
          end := end + 1;
        }
      }
      if end >= |text| {
        return None;
      }
      var literal := text[start..end];
      assert literal == s[1..end - pos];
      var out := DecodeLiteral(literal);
      if out.None? {
        return None;
      }
      assert text[end + 1..] == s[end - pos + 1..];
      pos := end + 1;
      return Some(CString(out.value));
    }

    /** Counts the number characters from here, at most `TOKEN_LIMIT`. */
    method NumberRun() returns (len: nat)
      requires Valid()
      ensures len == CharsetRun(Rest(), TOKEN_LIMIT)
    {
      ghost var s := Rest();
      assert s[0..] == s;
      len := 0;
      while len < TOKEN_LIMIT && pos + len < |text| && InNumberCharset(text[pos + len])
        invariant 0 <= len <= TOKEN_LIMIT && pos + len <= |text|
        invariant len + CharsetRun(s[len..], TOKEN_LIMIT - len) == CharsetRun(s, TOKEN_LIMIT)
      {
        assert s[len..][1..] == s[len + 1..];
        assert s[len..][0] == text[pos + len];
        len := len + 1;
      }
    }

    method ParseNumber() returns (r: Option<Value>)
      requires Valid()
      modifies `pos
      ensures Outcome(r, old(PNumber(Rest(), toDouble)), old(depth))
    {
      ghost var s := Rest();
      var start := pos;
      var len := NumberRun();
      var prefix := text[start..start + len];
      assert prefix == s[..len];
      var consumed := StrtodScan(prefix);
      if consumed == 0 {
        return None;
      }
      assert prefix[..consumed] == s[..consumed];
      assert text[start + consumed..] == s[consumed..];
      pos := start + consumed;
      return Some(Number(toDouble(prefix[..consumed])));
    }
  }

  /** Copies raw runs and decodes escapes, left to right. */
  method DecodeLiteral(literal: string) returns (r: Option<string>)
    ensures r == Decode(literal)
  {
    var out := "";
    var i := 0;
    assert literal[0..] == literal;
    AfterNothing(Decode(literal));
    while i < |literal|
      invariant i <= |literal|
      invariant Decode(literal) == After(out, Decode(literal[i..]))
    {
      ghost var l := literal[i..];
      if literal[i] != '\\' {
        assert l[1..] == literal[i + 1..];
        AfterPrepend(out, l[0], Decode(l[1..]));
        out := out + [literal[i]];
        i := i + 1;
        continue;
      }
      if i + 1 >= |literal| {
        return None;
      }
      if literal[i + 1] == 'u' {
        var e := UnicodeEscape(literal[i..]);
        if e.None? {
          return None;
        }
        assert l[e.value.1..] == literal[i + e.value.1..];
        AfterPrepend(out, e.value.0, Decode(l[e.value.1..]));
        out := out + [e.value.0];
        i := i + e.value.1;
      } else {
        var e := SimpleEscape(literal[i + 1]);
        if e.None? {
          return None;
        }
        assert l[2..] == literal[i + 2..];
        AfterPrepend(out, e.value, Decode(l[2..]));
        out := out + [e.value];
        i := i + 2;
      }
    }
    assert literal[i..] == "";
    assert out + "" == out;
    return Some(out);
  }

  function After(out: string, r: Option<string>): Option<string> {
    match r
    case None => None
    case Some(t) => Some(out + t)
  }

  lemma AfterNothing(r: Option<string>)
    ensures After("", r) == r
  {
    if r.Some? { assert "" + r.value == r.value; }
  }

  lemma AfterPrepend(out: string, c: char, r: Option<string>)
    ensures After(out, Prepend(c, r)) == After(out + [c], r)
  {
    if r.Some? { assert out + ([c] + r.value) == out + [c] + r.value; }
  }

  method Parse(text: string, toDouble: string -> Double) returns (r: Option<Value>)
    ensures r == ParseDocument(text, toDouble)
  {
    var p := new Parser(text, toDouble);
    assert text[0..] == text;
    if text != "" && text[0] == BOM {
      p.pos := 1;
    }
    p.Skip();
    r := p.ParseValue();
    if r.None? {
      return;
    }
    p.Skip();
    if p.pos < |text| {
      return None;
    }
  }
}
