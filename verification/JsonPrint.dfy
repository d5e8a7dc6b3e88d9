/**
 The canonical (indented) and the compact printer, and what parsing their output yields.
 The standard library's shortest float formatting is the parameter `show` of the compact style.
 */
module JsonPrint {
  import opened Wrappers
  import opened Number
  import opened NumberText
  import opened JsonNumber
  import opened Json

  datatype Style = Canonical | Compact(show: Double -> string)

  // ---- what the printers write -----------------------------------------

  function HexDigit(d: nat): (c: char)
    requires d < 16
    ensures HexValue(c) == Some(d)
    ensures c != '"' && c != '\\'
  {
    if d < 10 then ('0' as int + d) as char else ('a' as int + d - 10) as char
  }

  function ControlEscape(c: char): string
    requires c < ' '
  {
    ['\\', 'u', '0', '0', HexDigit(c as nat / 16), HexDigit(c as nat % 16)]
  }

  function EscapeChar(st: Style, c: char): string {
    if c == '"' then ['\\', '"']
    else if c == '\\' then ['\\', '\\']
    else if st.Compact? && c == '\n' then ['\\', 'n']
    else if st.Compact? && c == '\r' then ['\\', 'r']
    else if st.Compact? && c == '\t' then ['\\', 't']
    else if st.Compact? && c == 8 as char then ['\\', 'b']
    else if st.Compact? && c == 12 as char then ['\\', 'f']
    else if c < ' ' then ControlEscape(c)
    else [c]
  }

  function Escaped(st: Style, s: string): string {
    if s == "" then "" else EscapeChar(st, s[0]) + Escaped(st, s[1..])
  }

  function Quoted(st: Style, s: string): string {
    ['"'] + (Escaped(st, s) + ['"'])
  }

  function Indent(d: nat): (t: string)
    ensures forall i :: 0 <= i < |t| ==> t[i] == ' '
  {
    if d == 0 then "" else "  " + Indent(d - 1)
  }

  /** What separates an item or a closing bracket from what precedes it. */
  function Break(st: Style, d: nat): (t: string)
    ensures forall i :: 0 <= i < |t| ==> t[i] <= ' '
  {
    if st.Canonical? then ['\n'] + Indent(d) else ""
  }

  function Colon(st: Style): string {
    if st.Canonical? then ": " else ":"
  }

  ghost function NumberOut(st: Style, n: Double): string {
    if st.Canonical? then JsonNumberText(n) else if n.Finite? then st.show(n) else "null"
  }

  ghost function Print(st: Style, v: Value, d: nat): string
    decreases v, 0
  {
    match v
    case Null => "null"
    case Bool(b) => if b then "true" else "false"
    case Number(n) => NumberOut(st, n)
    case String(s) => Quoted(st, s)
    case Array(items) =>
      if items == [] then "[]" else "[" + (Break(st, d + 1) + PrintItems(st, items, d + 1))
    case Object(members) =>
      if members == [] then "{}" else "{" + (Break(st, d + 1) + PrintMembers(st, members, d + 1))
  }

  /** The items, separated, and the closing bracket. */
  ghost function PrintItems(st: Style, items: seq<Value>, d: nat): string
    requires items != [] && d > 0
    decreases items, 1
  {
    Print(st, items[0], d) + ItemsAfter(st, items, d)
  }

  /** What follows the first item. */
  ghost function ItemsAfter(st: Style, items: seq<Value>, d: nat): string
    requires items != [] && d > 0
    decreases items, 0
  {
    if |items| == 1 then Break(st, d - 1) + "]"
    else "," + (Break(st, d) + PrintItems(st, items[1..], d))
  }

  ghost function PrintMembers(st: Style, members: seq<Member>, d: nat): string
    requires members != [] && d > 0
    decreases members, 2
  {
    PrintMember(st, members[0], d) + MembersAfter(st, members, d)
  }

  ghost function PrintMember(st: Style, m: Member, d: nat): string
    decreases m, 1
  {
    Quoted(st, m.key) + (Colon(st) + Print(st, m.value, d))
  }

  ghost function MembersAfter(st: Style, members: seq<Member>, d: nat): string
    requires members != [] && d > 0
    decreases members, 1
  {
    if |members| == 1 then Break(st, d - 1) + "}"
    else "," + (Break(st, d) + PrintMembers(st, members[1..], d))
  }

  ghost function CanonicalText(v: Value): string {
    Print(Canonical, v, 0) + "\n"
  }

  // ---- what parsing the output yields ----------------------------------

  /** A number text, of any length, that a value can start with. */
  ghost predicate Numeric(t: string) {
    IsNumberText(t) && (t[0] == '-' || IsDigit(t[0]))
  }

  /** Shortest formatting shows every finite double as a number text, however long. */
  ghost predicate ShowsNumbers(show: Double -> string) {
    forall n: Double :: n.Finite? ==> Numeric(show(n))
  }

  ghost predicate Shows(st: Style) {
    st.Compact? ==> ShowsNumbers(st.show)
  }

  lemma Shown(st: Style, n: Double)
    requires Shows(st) && n.Finite?
    ensures NumberOut(st, n) != "" && Numeric(NumberOut(st, n)) && (st.Canonical? ==> |NumberOut(st, n)| <= TOKEN_LIMIT)
  {
    if st.Canonical? { JsonNumberIsToken(n); }
  }

  /** The value read back, or none when the parser rejects the output. */
  ghost function Back(st: Style, v: Value, depth: nat, toDouble: string -> Double): Option<Value>
    decreases v, 0
  {
    match v
    case Null => Some(Null)
    case Bool(b) => Some(Bool(b))
    case String(s) => Some(String(CString(s)))
    case Number(n) =>
      var t := NumberOut(st, n);
      if n.Finite? then if |t| <= TOKEN_LIMIT then Some(Number(toDouble(t))) else None
      else if st.Canonical? then None
      else Some(Null)
    case Array(items) =>
      var vs := BackItems(st, items, depth + 1, toDouble);
      if depth >= NESTING_LIMIT || vs.None? then None else Some(Array(vs.value))
    case Object(members) =>
      var ms := BackMembers(st, members, depth + 1, toDouble);
      if depth >= NESTING_LIMIT || ms.None? then None else Some(Object(ms.value))
  }

  ghost function BackItems(st: Style, items: seq<Value>, depth: nat, toDouble: string -> Double): Option<seq<Value>>
    decreases items, 0
  {
    if items == [] then Some([]) else
      var v := Back(st, items[0], depth, toDouble);
      var rest := BackItems(st, items[1..], depth, toDouble);
      if v.Some? && rest.Some? then Some([v.value] + rest.value) else None
  }

  ghost function BackMembers(st: Style, members: seq<Member>, depth: nat,
      toDouble: string -> Double): Option<seq<Member>>
    decreases members, 0
  {
    if members == [] then Some([]) else
      var v := Back(st, members[0].value, depth, toDouble);
      var rest := BackMembers(st, members[1..], depth, toDouble);
      if v.Some? && rest.Some? then Some([Member(CString(members[0].key), v.value)] + rest.value) else None
  }

  ghost function Expected<T>(r: Option<T>, post: string): Parsed<T> {
    match r
    case None => Fail
    case Some(v) => Got(v, post)
  }

  /** A failed parse, or one that stopped in the middle of a number. */
  ghost predicate Stopped<T>(p: Parsed<T>) {
    p.Fail? || (p.rest != "" && InNumberCharset(p.rest[0]))
  }

  /** The value was read up to `post`, or nothing that can be used was. */
  ghost predicate Reads<T>(p: Parsed<T>, r: Option<T>, post: string) {
    if r.Some? then p == Got(r.value, post) else Stopped(p)
  }

  // ---- strings ---------------------------------------------------------

  lemma UnitDecodes(st: Style, c: char, l: string)
    ensures Decode(EscapeChar(st, c) + l) == Prepend(c, Decode(l))
  {
    var u := EscapeChar(st, c);
    var t := u + l;
    assert t[|u|..] == l;
    assert |u| <= |t| && forall i :: 0 <= i < |u| ==> t[i] == u[i];
    if |u| == 6 {
      assert Hex4(t, 2) == Some(c as nat);
      assert UnicodeEscape(t) == Some((c, 6));
    }
  }

  lemma {:induction false} EscapedDecodes(st: Style, s: string)
    ensures Decode(Escaped(st, s)) == Some(s)
  {
    if s != "" {
      EscapedDecodes(st, s[1..]);
      UnitDecodes(st, s[0], Escaped(st, s[1..]));
      assert [s[0]] + s[1..] == s;
    }
  }

  /** An escape is the character itself, a backslash and a letter, or a `\\u` escape. */
  lemma EscapeShapes(st: Style, c: char)
    ensures var u := EscapeChar(st, c);
      && (|u| == 1 ==> u[0] != '"' && u[0] != '\\')
      && (|u| != 1 ==> u != "" && u[0] == '\\' && (|u| == 2 || (c < ' ' && u == ControlEscape(c))))
  {}

  /** The quote scan steps over one escaped character. */
  lemma UnitScanned(st: Style, c: char, s: string, i: nat)
    requires i + |EscapeChar(st, c)| <= |s| && s[i..i + |EscapeChar(st, c)|] == EscapeChar(st, c)
    ensures ScanEnd(s, i) == ScanEnd(s, i + |EscapeChar(st, c)|)
  {
    EscapeShapes(st, c);
    hide *;
    var u := EscapeChar(st, c);
    assert s[i] == s[i..i + |u|][0];
    if |u| == 1 {
      PlainScanned(s, i);
    } else if |u| == 2 {
      EscapeScanned(s, i);
    } else {
      ControlScanned(c, s, i);
    }
  }

  lemma EscapeScanned(s: string, i: nat)
    requires i + 2 <= |s| && s[i] == '\\'
    ensures ScanEnd(s, i) == ScanEnd(s, i + 2)
  {}

  lemma ControlScanned(c: char, s: string, i: nat)
    requires c < ' ' && i + |ControlEscape(c)| <= |s| && s[i..i + |ControlEscape(c)|] == ControlEscape(c)
    ensures ScanEnd(s, i) == ScanEnd(s, i + |ControlEscape(c)|)
  {
    var w := s[i..i + 6];
    assert forall k :: 0 <= k < 6 ==> w[k] == s[i + k];
    assert s[i] == w[0] && s[i + 2] == w[2] && s[i + 3] == w[3] && s[i + 4] == w[4] && s[i + 5] == w[5];
    SixScanned(s, i);
  }

  lemma PlainScanned(s: string, i: nat)
    requires i < |s| && s[i] != '"' && s[i] != '\\'
    ensures ScanEnd(s, i) == ScanEnd(s, i + 1)
  {}

  lemma SixScanned(s: string, i: nat)
    requires i + 6 <= |s| && s[i] == '\\'
    requires forall k :: i + 2 <= k < i + 6 ==> s[k] != '"' && s[k] != '\\'
    ensures ScanEnd(s, i) == ScanEnd(s, i + 6)
  {
    assert ScanEnd(s, i) == ScanEnd(s, i + 2);
    hide ScanEnd;
    PlainScanned(s, i + 2);
    PlainScanned(s, i + 3);
    PlainScanned(s, i + 4);
    PlainScanned(s, i + 5);
  }

  lemma {:induction false} EscapedScanned(st: Style, t: string, s: string, i: nat)
    requires i + |Escaped(st, t)| < |s| && s[i..i + |Escaped(st, t)|] == Escaped(st, t)
    requires s[i + |Escaped(st, t)|] == '"'
    ensures ScanEnd(s, i) == Some(i + |Escaped(st, t)|)
    decreases t
  {
    hide EscapeChar;
    if t != "" {
      var u, rest := EscapeChar(st, t[0]), Escaped(st, t[1..]);
      assert Escaped(st, t) == u + rest;
      Subslice(s, i, u, rest);
      UnitScanned(st, t[0], s, i);
      EscapedScanned(st, t[1..], s, i + |u|);
    }
  }

  lemma Subslice(s: string, i: nat, u: string, rest: string)
    requires i + |u + rest| <= |s| && s[i..i + |u + rest|] == u + rest
    ensures s[i..i + |u|] == u && s[i + |u|..i + |u| + |rest|] == rest
  {
    var w := s[i..i + |u + rest|];
    assert w[..|u|] == s[i..i + |u|];
    assert w[|u|..] == s[i + |u|..i + |u| + |rest|];
    assert (u + rest)[..|u|] == u && (u + rest)[|u|..] == rest;
  }

  /** A printed string reads back as its text up to the first NUL. */
  lemma StringBack(st: Style, t: string, post: string)
    ensures PString(Quoted(st, t) + post) == Got(CString(t), post)
  {
    var e := Escaped(st, t);
    var s := Quoted(st, t) + post;
    assert s[1..1 + |e|] == e && s[1 + |e|] == '"' && s[|e| + 2..] == post;
    EscapedScanned(st, t, s, 1);
    EscapedDecodes(st, t);
  }

  // ---- numbers ---------------------------------------------------------

  ghost predicate EndsToken(post: string) {
    post == "" || !InNumberCharset(post[0])
  }

  lemma {:induction false} CharsetStops(t: string, post: string, limit: nat)
    requires forall i :: 0 <= i < |t| ==> InNumberCharset(t[i])
    requires |t| <= limit && EndsToken(post)
    ensures CharsetRun(t + post, limit) == |t|
  {
    if t == "" {
      assert t + post == post;
    } else {
      assert (t + post)[1..] == t[1..] + post;
      CharsetStops(t[1..], post, limit - 1);
    }
  }

  lemma NumberBack(t: string, post: string, toDouble: string -> Double)
    requires Numeric(t) && |t| <= TOKEN_LIMIT && EndsToken(post)
    ensures PNumber(t + post, toDouble) == Got(Number(toDouble(t)), post)
  {
    NumberCharset(t);
    CharsetStops(t, post, TOKEN_LIMIT);
    ScanWhole(t);
    assert (t + post)[..|t|] == t && (t + post)[|t|..] == post;
    assert t[..|t|] == t;
  }

  /** A longer number is cut, so what follows the number read is more of it. */
  lemma LongNumber(t: string, post: string, toDouble: string -> Double)
    requires Numeric(t) && |t| > TOKEN_LIMIT
    ensures Stopped(PNumber(t + post, toDouble))
  {
    NumberCharset(t);
    var s := t + post;
    var consumed := ScanLength(s[..CharsetRun(s, TOKEN_LIMIT)]);
    assert s[consumed..][0] == t[consumed];
  }

  /** A non-finite number prints as a word the parser rejects. */
  lemma NonFiniteRejected(n: Double, post: string, depth: nat, toDouble: string -> Double)
    requires !n.Finite? && EndsToken(post)
    ensures PValue(JsonNumberText(n) + post, depth, toDouble) == Fail
  {
    var t := JsonNumberText(n);
    var s := t + post;
    if n.neg {
      assert t[0] == '-' && s[0] == '-' && !InNumberCharset(s[1]);
      assert CharsetRun(s, 63) == 1 by { assert CharsetRun(s[1..], 62) == 0; }
      assert s[..1] == "-";
      MinusAlone();
    } else {
      assert s[0] == t[0] && s[1] == t[1];
      assert s[1] != "null"[1];
    }
  }

  lemma MinusAlone()
    ensures ScanLength("-") == 0
  {}

  // ---- values ----------------------------------------------------------

  lemma {:induction false} SkipLead(lead: string, s: string)
    requires forall i :: 0 <= i < |lead| ==> lead[i] <= ' '
    requires s == "" || s[0] > ' '
    ensures SkipWs(lead + s) == s
  {
    if lead == "" {
      assert lead + s == s;
    } else {
      assert (lead + s)[1..] == lead[1..] + s;
      SkipLead(lead[1..], s);
    }
  }

  lemma Regroup(a: string, b: string, c: string)
    ensures (a + b) + c == a + (b + c)
  {}

  lemma Uncons(c: char, a: string)
    ensures ([c] + a) != "" && ([c] + a)[0] == c && ([c] + a)[1..] == a
  {}

  /** A separator and what follows it. */
  lemma CommaThen(br: string, more: string, post: string)
    ensures var after := "," + (br + more) + post;
      after != "" && after[0] == ',' && SkipWs(after) == after && after[1..] == br + (more + post)
  {
    Regroup(",", br + more, post);
    Regroup(br, more, post);
    Uncons(',', br + (more + post));
  }

  /** An opening bracket, whitespace, and a body. */
  lemma OpenThen(c: char, br: string, body: string, post: string)
    requires forall i :: 0 <= i < |br| ==> br[i] <= ' '
    requires body != "" && body[0] > ' '
    ensures var s := [c] + (br + body) + post;
      s != "" && s[0] == c && SkipWs(s[1..]) == body + post && (body + post)[0] == body[0]
  {
    Regroup([c], br + body, post);
    Regroup(br, body, post);
    Uncons(c, br + (body + post));
    SkipLead(br, body + post);
  }

  lemma NonFiniteWord(n: Double)
    requires !n.Finite?
    ensures JsonNumberText(n) in {"nan", "-nan", "inf", "-inf"}
  {}

  /** Output starts with a character that is neither whitespace nor a closing bracket. */
  lemma FirstChar(st: Style, v: Value, d: nat)
    requires Shows(st)
    ensures Print(st, v, d) != "" && Print(st, v, d)[0] > ' '
    ensures Print(st, v, d)[0] != ']' && Print(st, v, d)[0] != '}' && Print(st, v, d)[0] != BOM
  {
    hide IsNumberText, FormatGText, PrintsAsInteger, Shows;
    if v.Number? {
      if v.n.Finite? { Shown(st, v.n); } else { NonFiniteWord(v.n); }
    }
  }

  /** Printing and parsing one value, whatever follows it. */
  lemma {:induction false} ValueBack(st: Style, v: Value, d: nat, post: string, depth: nat, toDouble: string -> Double)
    requires Shows(st) && EndsToken(post)
    ensures Reads(PValue(Print(st, v, d) + post, depth, toDouble), Back(st, v, depth, toDouble), post)
    decreases v, 4
  {
    hide PValue, Shows;
    match v
    case Null => WordBack(post, depth, toDouble);
    case Bool(b) => WordBack(post, depth, toDouble);
    case Number(n) => NumberValueBack(st, n, d, post, depth, toDouble);
    case String(t) =>
      StringValueBack(st, t, post, depth, toDouble);
    case Array(items) => ArrayBack(st, items, d, post, depth, toDouble);
    case Object(members) => ObjectBack(st, members, d, post, depth, toDouble);
  }

  lemma {:induction false} ArrayBack(st: Style, items: seq<Value>, d: nat, post: string, depth: nat,
      toDouble: string -> Double)
    requires Shows(st) && EndsToken(post)
    ensures PValue(Print(st, Array(items), d) + post, depth, toDouble)
      == Expected(Back(st, Array(items), depth, toDouble), post)
    decreases items, 3
  {
    hide PValue, PItems, Print, PrintItems;
    ArrayHead(st, items, d, post, depth, toDouble);
    if items != [] && depth < NESTING_LIMIT {
      ItemsBack(st, items, d + 1, post, depth + 1, [], "", toDouble);
      var vs := BackItems(st, items, depth + 1, toDouble);
      assert vs.Some? ==> [] + vs.value == vs.value;
    }
  }

  lemma {:induction false} ObjectBack(st: Style, members: seq<Member>, d: nat, post: string, depth: nat,
      toDouble: string -> Double)
    requires Shows(st) && EndsToken(post)
    ensures PValue(Print(st, Object(members), d) + post, depth, toDouble)
      == Expected(Back(st, Object(members), depth, toDouble), post)
    decreases members, 3
  {
    hide PValue, PMembers, Print, PrintMembers;
    ObjectHead(st, members, d, post, depth, toDouble);
    if members != [] && depth < NESTING_LIMIT {
      MembersBack(st, members, d + 1, post, depth + 1, [], "", toDouble);
      var ms := BackMembers(st, members, depth + 1, toDouble);
      assert ms.Some? ==> [] + ms.value == ms.value;
    }
  }

  lemma StringValueBack(st: Style, t: string, post: string, depth: nat, toDouble: string -> Double)
    ensures PValue(Quoted(st, t) + post, depth, toDouble) == Got(String(CString(t)), post)
  {
    StringBack(st, t, post);
    assert (Quoted(st, t) + post)[0] == '"';
    NotAWord(Quoted(st, t) + post);
  }

  lemma WordBack(post: string, depth: nat, toDouble: string -> Double)
    ensures PValue("null" + post, depth, toDouble) == Got(Null, post)
    ensures PValue("true" + post, depth, toDouble) == Got(Bool(true), post)
    ensures PValue("false" + post, depth, toDouble) == Got(Bool(false), post)
  {
    assert ("null" + post)[..4] == "null" && ("null" + post)[4..] == post;
    assert ("true" + post)[..4] == "true" && ("true" + post)[4..] == post;
    assert ("false" + post)[..5] == "false" && ("false" + post)[5..] == post;
    assert ("true" + post)[0] == 't' && ("false" + post)[0] == 'f';
  }

  lemma NumberValueBack(st: Style, n: Double, d: nat, post: string, depth: nat, toDouble: string -> Double)
    requires Shows(st) && EndsToken(post)
    ensures Reads(PValue(NumberOut(st, n) + post, depth, toDouble), Back(st, Number(n), depth, toDouble), post)
  {
    hide PValue, PNumber, JsonNumberText, IsNumberText, Shows;
    var t := NumberOut(st, n);
    if n.Finite? {
      Shown(st, n);
      TokenValue(t, post, depth, toDouble);
      if |t| <= TOKEN_LIMIT { NumberBack(t, post, toDouble); } else { LongNumber(t, post, toDouble); }
    } else if st.Canonical? {
      NonFiniteRejected(n, post, depth, toDouble);
    } else {
      WordBack(post, depth, toDouble);
    }
  }

  lemma TokenValue(t: string, post: string, depth: nat, toDouble: string -> Double)
    requires t != "" && (t[0] == '-' || IsDigit(t[0]))
    ensures PValue(t + post, depth, toDouble) == PNumber(t + post, toDouble)
  {
    assert (t + post)[0] == t[0];
    NotAWord(t + post);
  }

  lemma ArrayHead(st: Style, items: seq<Value>, d: nat, post: string, depth: nat, toDouble: string -> Double)
    requires Shows(st)
    ensures depth >= NESTING_LIMIT ==> PValue(Print(st, Array(items), d) + post, depth, toDouble) == Fail
    ensures depth < NESTING_LIMIT && items == [] ==>
      PValue(Print(st, Array(items), d) + post, depth, toDouble) == Got(Array([]), post)
    ensures depth < NESTING_LIMIT && items != [] ==>
      PValue(Print(st, Array(items), d) + post, depth, toDouble)
        == PItems("" + (PrintItems(st, items, d + 1) + post), depth + 1, [], toDouble)
  {
    if items == [] {
      Regroup("[", "]", post);
      Uncons('[', "]" + post);
      Uncons(']', post);
      assert Print(st, Array(items), d) == "[" + "]";
    } else {
      FirstChar(st, items[0], d + 1);
      OpenThen('[', Break(st, d + 1), PrintItems(st, items, d + 1), post);
      assert "" + (PrintItems(st, items, d + 1) + post) == PrintItems(st, items, d + 1) + post;
    }
    OpensArray(Print(st, Array(items), d) + post, depth, toDouble);
  }

  lemma OpensArray(s: string, depth: nat, toDouble: string -> Double)
    requires s != "" && s[0] == '['
    ensures PValue(s, depth, toDouble) ==
      if depth >= NESTING_LIMIT then Fail
      else if SkipWs(s[1..]) != "" && SkipWs(s[1..])[0] == ']' then Got(Array([]), SkipWs(s[1..])[1..])
      else PItems(SkipWs(s[1..]), depth + 1, [], toDouble)
  {
    NotAWord(s);
  }

  lemma OpensObject(s: string, depth: nat, toDouble: string -> Double)
    requires s != "" && s[0] == '{'
    ensures PValue(s, depth, toDouble) ==
      if depth >= NESTING_LIMIT then Fail
      else if SkipWs(s[1..]) != "" && SkipWs(s[1..])[0] == '}' then Got(Object([]), SkipWs(s[1..])[1..])
      else PMembers(SkipWs(s[1..]), depth + 1, [], toDouble)
  {
    NotAWord(s);
  }

  lemma NotAWord(s: string)
    requires s != "" && s[0] != 'n' && s[0] != 't' && s[0] != 'f'
    ensures !StartsWith(s, "null") && !StartsWith(s, "true") && !StartsWith(s, "false")
  {
    assert "null"[0] == 'n' && "false"[0] == 'f' && "true"[0] == 't';
  }

  lemma ObjectHead(st: Style, members: seq<Member>, d: nat, post: string, depth: nat, toDouble: string -> Double)
    ensures depth >= NESTING_LIMIT ==> PValue(Print(st, Object(members), d) + post, depth, toDouble) == Fail
    ensures depth < NESTING_LIMIT && members == [] ==>
      PValue(Print(st, Object(members), d) + post, depth, toDouble) == Got(Object([]), post)
    ensures depth < NESTING_LIMIT && members != [] ==>
      PValue(Print(st, Object(members), d) + post, depth, toDouble)
        == PMembers("" + (PrintMembers(st, members, d + 1) + post), depth + 1, [], toDouble)
  {
    if members == [] {
      Regroup("{", "}", post);
      Uncons('{', "}" + post);
      Uncons('}', post);
      assert Print(st, Object(members), d) == "{" + "}";
    } else {
      MembersFirst(st, members, d + 1);
      OpenThen('{', Break(st, d + 1), PrintMembers(st, members, d + 1), post);
      assert "" + (PrintMembers(st, members, d + 1) + post) == PrintMembers(st, members, d + 1) + post;
    }
    OpensObject(Print(st, Object(members), d) + post, depth, toDouble);
  }

  lemma MembersFirst(st: Style, members: seq<Member>, d: nat)
    requires members != [] && d > 0
    ensures PrintMembers(st, members, d) != "" && PrintMembers(st, members, d)[0] == '"'
  {
    assert PrintMember(st, members[0], d)[0] == Quoted(st, members[0].key)[0];
  }

  ghost function ExpectedArray(read: seq<Value>, vs: Option<seq<Value>>, post: string): Parsed<Value> {
    match vs
    case None => Fail
    case Some(vs) => Got(Array(read + vs), post)
  }

  ghost function ExpectedObject(read: seq<Member>, ms: Option<seq<Member>>, post: string): Parsed<Value> {
    match ms
    case None => Fail
    case Some(ms) => Got(Object(read + ms), post)
  }

  /** The items after an opening bracket or a comma. */
  lemma {:induction false} ItemsBack(st: Style, items: seq<Value>, d: nat, post: string, depth: nat,
      read: seq<Value>, lead: string, toDouble: string -> Double)
    requires items != [] && d > 0 && Shows(st)
    requires forall i :: 0 <= i < |lead| ==> lead[i] <= ' '
    ensures PItems(lead + (PrintItems(st, items, d) + post), depth, read, toDouble)
      == ExpectedArray(read, BackItems(st, items, depth, toDouble), post)
    decreases items, 1
  {
    hide PItem, SkipWs, Print, Shows;
    var after := ItemsAfter(st, items, d) + post;
    var s := lead + (PrintItems(st, items, d) + post);
    Regroup(Print(st, items[0], d), ItemsAfter(st, items, d), post);
    assert s == lead + (Print(st, items[0], d) + after);
    AfterEnds(st, items, d, post);
    ItemBack(st, items[0], d, after, depth, lead, toDouble);
    var v := Back(st, items[0], depth, toDouble);
    if v.Some? {
      assert PItem(s, depth, toDouble) == Got(v.value, SkipWs(after));
      GroupArray(read, v.value, BackItems(st, items[1..], depth, toDouble), post);
      if |items| == 1 {
        LastItem(st, d, post);
        assert items[1..] == [];
        assert read + [v.value] == read + [v.value] + [];
      } else {
        MoreItems(st, items, d, post);
        ItemsBack(st, items[1..], d, post, depth, read + [v.value], Break(st, d), toDouble);
      }
    }
  }

  /** One item, before what follows it. */
  lemma {:induction false} ItemBack(st: Style, v: Value, d: nat, after: string, depth: nat,
      lead: string, toDouble: string -> Double)
    requires Shows(st) && EndsToken(after)
    requires forall i :: 0 <= i < |lead| ==> lead[i] <= ' '
    ensures Reads(PItem(lead + (Print(st, v, d) + after), depth, toDouble), Back(st, v, depth, toDouble), SkipWs(after))
    decreases v, 5
  {
    hide PValue, Print, Back, Shows;
    var s := Print(st, v, d) + after;
    FirstChar(st, v, d);
    assert s[0] == Print(st, v, d)[0];
    SkipLead(lead, s);
    ValueBack(st, v, d, after, depth, toDouble);
  }

  lemma GroupArray(read: seq<Value>, v: Value, vs: Option<seq<Value>>, post: string)
    ensures vs.Some? ==> ExpectedArray(read + [v], vs, post) == ExpectedArray(read, Some([v] + vs.value), post)
  {
    if vs.Some? { assert read + [v] + vs.value == read + ([v] + vs.value); }
  }

  lemma AfterEnds(st: Style, items: seq<Value>, d: nat, post: string)
    requires items != [] && d > 0
    ensures EndsToken(ItemsAfter(st, items, d) + post)
  {
    var t := ItemsAfter(st, items, d);
    assert (t + post)[0] == t[0];
  }

  lemma LastItem(st: Style, d: nat, post: string)
    requires d > 0
    ensures SkipWs(Break(st, d - 1) + "]" + post) == "]" + post
    ensures ("]" + post)[0] == ']' && ("]" + post)[1..] == post
  {
    Uncons(']', post);
    Regroup(Break(st, d - 1), "]", post);
    SkipLead(Break(st, d - 1), "]" + post);
  }

  lemma MoreItems(st: Style, items: seq<Value>, d: nat, post: string)
    requires |items| > 1 && d > 0
    ensures var after := ItemsAfter(st, items, d) + post;
      after != "" && SkipWs(after) == after && after[0] == ','
      && after[1..] == Break(st, d) + (PrintItems(st, items[1..], d) + post)
  {
    CommaThen(Break(st, d), PrintItems(st, items[1..], d), post);
  }

  /** One member, before what follows it. */
  lemma {:induction false} MemberBack(st: Style, m: Member, d: nat, after: string, depth: nat,
      lead: string, toDouble: string -> Double)
    requires Shows(st) && EndsToken(after)
    requires forall i :: 0 <= i < |lead| ==> lead[i] <= ' '
    ensures var v := Back(st, m.value, depth, toDouble);
      Reads(PMember(lead + (PrintMember(st, m, d) + after), depth, toDouble),
        if v.None? then None else Some(Member(CString(m.key), v.value)), SkipWs(after))
    decreases m, 1
  {
    hide Print, Back, PValue, PString, Quoted, PMember, PrintMember, Shows, Reads;
    var value := Print(st, m.value, d) + after;
    var tail := Colon(st) + value;
    MemberShape(st, m, d, after, lead);
    StringBack(st, m.key, tail);
    FirstChar(st, m.value, d);
    assert value[0] > ' ';
    ColonSkipped(st, value);
    ValueBack(st, m.value, d, after, depth, toDouble);
    var s := lead + (PrintMember(st, m, d) + after);
    MemberReads(s, CString(m.key), tail, value, Back(st, m.value, depth, toDouble), after, depth, toDouble);
  }

  lemma ColonSkipped(st: Style, value: string)
    requires value != "" && value[0] > ' '
    ensures var tail := Colon(st) + value; SkipWs(tail) == tail && tail[0] == ':' && SkipWs(tail[1..]) == value
  {
    SkipLead(" ", value);
    SkipLead("", value);
    var tail := Colon(st) + value;
    assert SkipWs(tail[1..]) == value by {
      assert st.Canonical? ==> tail[1..] == " " + value;
      assert st.Compact? ==> tail[1..] == "" + value;
    }
  }

  /** Reading a member from its key's and its value's readings. */
  lemma MemberReads(s: string, key: string, tail: string, value: string, v: Option<Value>, after: string, depth: nat,
      toDouble: string -> Double)
    requires PString(SkipWs(s)) == Got(key, tail) && SkipWs(tail) == tail && tail != "" && tail[0] == ':'
    requires SkipWs(tail[1..]) == value && Reads(PValue(value, depth, toDouble), v, after)
    ensures Reads(PMember(s, depth, toDouble), if v.None? then None else Some(Member(key, v.value)), SkipWs(after))
  {
    hide PValue, PString;
  }

  lemma MemberShape(st: Style, m: Member, d: nat, after: string, lead: string)
    requires forall i :: 0 <= i < |lead| ==> lead[i] <= ' '
    ensures SkipWs(lead + (PrintMember(st, m, d) + after))
      == Quoted(st, m.key) + (Colon(st) + (Print(st, m.value, d) + after))
  {
    var q, v := Quoted(st, m.key), Print(st, m.value, d);
    Regroup(q, Colon(st) + v, after);
    Regroup(Colon(st), v, after);
    var s := q + (Colon(st) + (v + after));
    assert s[0] == '"';
    SkipLead(lead, s);
  }

  lemma {:induction false} MembersBack(st: Style, members: seq<Member>, d: nat, post: string, depth: nat,
      read: seq<Member>, lead: string, toDouble: string -> Double)
    requires members != [] && d > 0 && Shows(st)
    requires forall i :: 0 <= i < |lead| ==> lead[i] <= ' '
    ensures PMembers(lead + (PrintMembers(st, members, d) + post), depth, read, toDouble)
      == ExpectedObject(read, BackMembers(st, members, depth, toDouble), post)
    decreases members, 1
  {
    hide PMember, SkipWs, PrintMember, Shows;
    var after := MembersAfter(st, members, d) + post;
    var s := lead + (PrintMembers(st, members, d) + post);
    Regroup(PrintMember(st, members[0], d), MembersAfter(st, members, d), post);
    assert s == lead + (PrintMember(st, members[0], d) + after);
    MembersAfterEnds(st, members, d, post);
    MemberBack(st, members[0], d, after, depth, lead, toDouble);
    var v := Back(st, members[0].value, depth, toDouble);
    if v.Some? {
      var m := Member(CString(members[0].key), v.value);
      assert PMember(s, depth, toDouble) == Got(m, SkipWs(after));
      GroupObject(read, m, BackMembers(st, members[1..], depth, toDouble), post);
      if |members| == 1 {
        LastMember(st, d, post);
        assert members[1..] == [];
        assert read + [m] == read + [m] + [];
      } else {
        MoreMembers(st, members, d, post);
        MembersBack(st, members[1..], d, post, depth, read + [m], Break(st, d), toDouble);
      }
    }
  }

  lemma GroupObject(read: seq<Member>, m: Member, ms: Option<seq<Member>>, post: string)
    ensures ms.Some? ==> ExpectedObject(read + [m], ms, post) == ExpectedObject(read, Some([m] + ms.value), post)
  {
    if ms.Some? { assert read + [m] + ms.value == read + ([m] + ms.value); }
  }

  lemma MembersAfterEnds(st: Style, members: seq<Member>, d: nat, post: string)
    requires members != [] && d > 0
    ensures EndsToken(MembersAfter(st, members, d) + post)
  {
    var t := MembersAfter(st, members, d);
    assert (t + post)[0] == t[0];
  }

  lemma LastMember(st: Style, d: nat, post: string)
    requires d > 0
    ensures SkipWs(Break(st, d - 1) + "}" + post) == "}" + post
    ensures ("}" + post)[0] == '}' && ("}" + post)[1..] == post
  {
    Uncons('}', post);
    Regroup(Break(st, d - 1), "}", post);
    SkipLead(Break(st, d - 1), "}" + post);
  }

  lemma MoreMembers(st: Style, members: seq<Member>, d: nat, post: string)
    requires |members| > 1 && d > 0
    ensures var after := MembersAfter(st, members, d) + post;
      after != "" && SkipWs(after) == after && after[0] == ','
      && after[1..] == Break(st, d) + (PrintMembers(st, members[1..], d) + post)
  {
    CommaThen(Break(st, d), PrintMembers(st, members[1..], d), post);
  }
}
