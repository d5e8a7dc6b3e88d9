/**
 The language the parser accepts, as a grammar apart from the parser: which value stands at the start
 of a text, and what is left. The parser reads exactly that, so it accepts exactly the grammar.
 */
module JsonGrammar {
  import opened Wrappers
  import opened Number
  import opened NumberText
  import opened JsonNumber
  import opened Json
  import JsonEscapes

  // ---- the grammar -----------------------------------------------------

  /** `s` is white space, then `r`, which does not start with any. */
  ghost predicate Gap(s: string, r: string) {
    && |r| <= |s| && s[|s| - |r|..] == r && (r == "" || r[0] > ' ')
    && forall k :: 0 <= k < |s| - |r| ==> s[k] <= ' '
  }

  /** The first `n` characters are a number, and no more up to the limit are. */
  ghost predicate NumberAt(s: string, n: nat) {
    && n <= |s| && n <= TOKEN_LIMIT && IsNumberText(s[..n]) && (s[0] == '-' || IsDigit(s[0]))
    && forall k :: n < k <= |s| && k <= TOKEN_LIMIT ==> !IsNumberText(s[..k])
  }

  /** A quoted writing of `x`, then `rest`; `x` is what stands before the first NUL. */
  ghost predicate StringAt(s: string, x: string, rest: string) {
    exists l, t :: JsonEscapes.Writes(l, t) && s == "\"" + l + "\"" + rest && x == CString(t)
  }

  /** `s` is a text of `v`, then `rest`, with `depth` brackets around it. */
  ghost predicate Reads(s: string, v: Value, rest: string, depth: nat, toDouble: string -> Double)
    decreases v, 0
  {
    match v
    case Null => s == "null" + rest
    case Bool(b) => s == (if b then "true" else "false") + rest
    case Number(x) => exists n: nat :: n <= |s| && NumberAt(s, n) && x == toDouble(s[..n]) && rest == s[n..]
    case String(x) => StringAt(s, x, rest)
    case Array(items) =>
      depth < NESTING_LIMIT && s != "" && s[0] == '[' && exists t ::
        Gap(s[1..], t) && if items == [] then t == "]" + rest else ReadsItems(t, items, rest, depth + 1, toDouble)
    case Object(members) =>
      depth < NESTING_LIMIT && s != "" && s[0] == '{' && exists t ::
        Gap(s[1..], t) && if members == [] then t == "}" + rest
          else ReadsMembers(t, members, rest, depth + 1, toDouble)
  }

  /** An item, white space around it, then a comma and the other items, or the closing bracket. */
  ghost predicate ReadsItems(s: string, items: seq<Value>, rest: string, depth: nat, toDouble: string -> Double)
    requires items != []
    decreases items, 1
  {
    exists t, after, u ::
      Gap(s, t) && Reads(t, items[0], after, depth, toDouble) && Gap(after, u) && u != "" && if |items| == 1
        then u == "]" + rest else u[0] == ',' && ReadsItems(u[1..], items[1..], rest, depth, toDouble)
  }

  /** A key, a colon, a value, white space around each, then a comma and the other members, or the bracket. */
  ghost predicate ReadsMembers(s: string, members: seq<Member>, rest: string, depth: nat, toDouble: string -> Double)
    requires members != []
    decreases members, 1
  {
    exists t, after, u ::
      Gap(s, t) && ReadsMember(t, members[0], after, depth, toDouble) && Gap(after, u) && u != "" && if |members| == 1
        then u == "}" + rest else u[0] == ',' && ReadsMembers(u[1..], members[1..], rest, depth, toDouble)
  }

  ghost predicate ReadsMember(s: string, m: Member, rest: string, depth: nat, toDouble: string -> Double)
    decreases m, 0
  {
    exists colon, t, u ::
      StringAt(s, m.key, colon) && Gap(colon, t) && t != "" && t[0] == ':' && Gap(t[1..], u)
        && Reads(u, m.value, rest, depth, toDouble)
  }

  // ---- pieces ----------------------------------------------------------

  lemma {:induction false} GapIs(s: string, r: string)
    ensures Gap(s, r) <==> r == SkipWs(s)
  {
    SkipIsGap(s);
    if Gap(s, r) { GapUnique(s, r, SkipWs(s)); }
  }

  lemma {:induction false} SkipIsGap(s: string)
    ensures Gap(s, SkipWs(s))
  {
    if s != "" && s[0] <= ' ' {
      SkipIsGap(s[1..]);
      var r := SkipWs(s[1..]);
      assert s[|s| - |r|..] == s[1..][|s| - 1 - |r|..];
      assert forall k :: 0 < k < |s| - |r| ==> s[k] == s[1..][k - 1];
    }
  }

  lemma GapUnique(s: string, r: string, t: string)
    requires Gap(s, r) && Gap(s, t)
    ensures r == t
  {
    if |r| < |t| { GapLonger(s, r, t); } else if |t| < |r| { GapLonger(s, t, r); }
  }

  lemma GapLonger(s: string, r: string, t: string)
    requires Gap(s, r) && Gap(s, t)
    ensures |r| >= |t|
  {}

  /** What the number reader consumes is the number there. */
  lemma NumberIs(s: string, n: nat)
    requires s != "" && (s[0] == '-' || IsDigit(s[0]))
    ensures NumberAt(s, n) <==> n > 0 && n == ScanLength(s[..CharsetRun(s, TOKEN_LIMIT)])
  {
    hide ScanLength, IsNumberText, CharsetRun;
    var run := s[..CharsetRun(s, TOKEN_LIMIT)];
    forall k | 0 <= k <= |s| && k <= TOKEN_LIMIT && IsNumberText(s[..k]) ensures 0 < k <= ScanLength(run) {
      NumberCharset(s[..k]);
      WithinRun(s, k);
      assert run[..k] == s[..k];
      ScanIsLongest(run, k);
    }
    if ScanLength(run) > 0 {
      ScanIsNumber(run);
      assert run[..ScanLength(run)] == s[..ScanLength(run)];
    }
  }

  lemma WithinRun(s: string, k: nat)
    requires k <= |s| && k <= TOKEN_LIMIT && forall i :: 0 <= i < k ==> InNumberCharset(s[..k][i])
    ensures k <= CharsetRun(s, TOKEN_LIMIT)
  {
    assert forall i :: 0 <= i < k ==> s[..k][i] == s[i];
  }

  // ---- how a value starts ----------------------------------------------

  lemma StringIs(s: string, x: string, rest: string)
    ensures StringAt(s, x, rest) <==> PString(s) == Got(x, rest)
  {
    hide PString, CString, JsonEscapes.Writes;
    JsonEscapes.StringReadIff(s, x, rest);
  }

  lemma StringStarts(s: string, x: string, rest: string)
    requires StringAt(s, x, rest)
    ensures s != "" && s[0] == '"'
  {
    hide JsonEscapes.Writes, CString;
  }

  /** The first character says which kind of value follows. */
  predicate StartsAs(v: Value, c: char) {
    match v
    case Null => c == 'n'
    case Bool(b) => c == if b then 't' else 'f'
    case Number(_) => c == '-' || IsDigit(c)
    case String(_) => c == '"'
    case Array(_) => c == '['
    case Object(_) => c == '{'
  }

  lemma ReadsStarts(s: string, v: Value, rest: string, depth: nat, toDouble: string -> Double)
    requires Reads(s, v, rest, depth, toDouble)
    ensures s != "" && StartsAs(v, s[0])
  {
    hide StringAt, NumberAt, ReadsItems, ReadsMembers, Gap;
    match v
    case Number(x) =>
      var n: nat :| n <= |s| && NumberAt(s, n) && x == toDouble(s[..n]) && rest == s[n..];
      NumberStarts(s, n);
    case String(x) => StringStarts(s, x, rest);
    case _ =>
  }

  lemma NumberStarts(s: string, n: nat)
    requires NumberAt(s, n)
    ensures s != "" && (s[0] == '-' || IsDigit(s[0]))
  {}

  /** The parser by the first character. */
  lemma PByStart(s: string, depth: nat, toDouble: string -> Double)
    requires s != ""
    ensures s[0] == '"' ==>
      PValue(s, depth, toDouble) == if PString(s).Fail? then Fail
        else Got(Value.String(PString(s).value), PString(s).rest)
    ensures s[0] == '-' || IsDigit(s[0]) ==> PValue(s, depth, toDouble) == PNumber(s, toDouble)
    ensures s[0] == 'n' ==> PValue(s, depth, toDouble) == if StartsWith(s, "null") then Got(Null, s[4..]) else Fail
    ensures s[0] == 'f' ==>
      PValue(s, depth, toDouble) == if StartsWith(s, "false") then Got(Value.Bool(false), s[5..]) else Fail
    ensures s[0] == 't' ==>
      PValue(s, depth, toDouble) == if StartsWith(s, "true") then Got(Value.Bool(true), s[4..]) else Fail
    ensures s[0] == '[' ==>
      PValue(s, depth, toDouble) == if depth >= NESTING_LIMIT then Fail else PArrayRest(SkipWs(s[1..]), depth, toDouble)
    ensures s[0] == '{' ==>
      PValue(s, depth, toDouble) == if depth >= NESTING_LIMIT then Fail
        else PObjectRest(SkipWs(s[1..]), depth, toDouble)
    ensures s[0] !in {'"', '-', 'n', 'f', 't', '[', '{'} && !IsDigit(s[0]) ==> PValue(s, depth, toDouble) == Fail
  {
    hide PString, PNumber, PItems, PMembers;
    hide StartsWith;
    if s[0] != 'n' { JsonEscapes.StartsDifferently(s, "null"); }
    if s[0] != 'f' { JsonEscapes.StartsDifferently(s, "false"); }
    if s[0] != 't' { JsonEscapes.StartsDifferently(s, "true"); }
  }

  /** What follows an opening bracket and white space. */
  function PArrayRest(t: string, depth: nat, toDouble: string -> Double): Parsed<Value> {
    if t != "" && t[0] == ']' then Got(Array([]), t[1..]) else PItems(t, depth + 1, [], toDouble)
  }

  function PObjectRest(t: string, depth: nat, toDouble: string -> Double): Parsed<Value> {
    if t != "" && t[0] == '}' then Got(Object([]), t[1..]) else PMembers(t, depth + 1, [], toDouble)
  }

  lemma LiteralIs(s: string, p: string, rest: string)
    ensures s == p + rest <==> StartsWith(s, p) && rest == s[|p|..]
  {
    if StartsWith(s, p) { assert s == s[..|p|] + s[|p|..]; }
  }

  /** Values without brackets. */
  lemma ScalarIs(s: string, v: Value, rest: string, depth: nat, toDouble: string -> Double)
    requires !v.Array? && !v.Object?
    ensures Reads(s, v, rest, depth, toDouble) <==> PValue(s, depth, toDouble) == Got(v, rest)
  {
    hide PValue, PString, StringAt, StartsWith, NumberAt, PNumber;
    if s == "" {
      NothingRead(v, rest, depth, toDouble);
    } else {
      if Reads(s, v, rest, depth, toDouble) { ReadsStarts(s, v, rest, depth, toDouble); }
      PByStart(s, depth, toDouble);
      GotStarts(s, v, rest, depth, toDouble);
      match v
      case Null => LiteralIs(s, "null", rest);
      case Bool(b) => LiteralIs(s, if b then "true" else "false", rest);
      case String(x) => StringIs(s, x, rest);
      case Number(_) => NumberReads(s, v, rest, toDouble);
    }
  }

  /** The kind of value parsed is that of the first character. */
  lemma GotStarts(s: string, v: Value, rest: string, depth: nat, toDouble: string -> Double)
    requires s != ""
    ensures PValue(s, depth, toDouble) == Got(v, rest) ==> StartsAs(v, s[0])
  {
    hide PValue, PString, StartsWith, PItems, PMembers, PNumber;
    PByStart(s, depth, toDouble);
    NumberKind(s, toDouble);
    if PValue(s, depth, toDouble) == Got(v, rest) {
      if s[0] == '[' { ItemsKind(SkipWs(s[1..]), depth + 1, [], toDouble); }
      if s[0] == '{' { MembersKind(SkipWs(s[1..]), depth + 1, [], toDouble); }
    }
  }

  lemma NumberKind(s: string, toDouble: string -> Double)
    ensures PNumber(s, toDouble).Got? ==> PNumber(s, toDouble).value.Number?
  {}

  lemma {:induction false} ItemsKind(t: string, depth: nat, read: seq<Value>, toDouble: string -> Double)
    ensures var r := PItems(t, depth, read, toDouble); r.Got? ==> r.value.Array?
    decreases |t|
  {
    hide PItem;
    var v := PItem(t, depth, toDouble);
    if v.Got? && v.rest != "" && v.rest[0] == ',' { ItemsKind(v.rest[1..], depth, read + [v.value], toDouble); }
  }

  lemma {:induction false} MembersKind(t: string, depth: nat, read: seq<Member>, toDouble: string -> Double)
    ensures var r := PMembers(t, depth, read, toDouble); r.Got? ==> r.value.Object?
    decreases |t|
  {
    hide PMember;
    var m := PMember(t, depth, toDouble);
    if m.Got? && m.rest != "" && m.rest[0] == ',' { MembersKind(m.rest[1..], depth, read + [m.value], toDouble); }
  }

  lemma NothingRead(v: Value, rest: string, depth: nat, toDouble: string -> Double)
    ensures !Reads("", v, rest, depth, toDouble) && PValue("", depth, toDouble) == Fail
  {
    if Reads("", v, rest, depth, toDouble) { ReadsStarts("", v, rest, depth, toDouble); }
  }

  lemma NumberReads(s: string, v: Value, rest: string, toDouble: string -> Double)
    requires s != ""
    ensures v.Number? ==>
      ((exists n: nat :: n <= |s| && NumberAt(s, n) && v.n == toDouble(s[..n]) && rest == s[n..]) <==>
        (s[0] == '-' || IsDigit(s[0])) && PNumber(s, toDouble) == Got(v, rest))
  {
    hide ScanLength, NumberAt;
    var m := ScanLength(s[..CharsetRun(s, TOKEN_LIMIT)]);
    if s[0] == '-' || IsDigit(s[0]) {
      forall n: nat ensures NumberAt(s, n) <==> n > 0 && n == m { NumberIs(s, n); }
    } else {
      forall n: nat ensures !NumberAt(s, n) { if NumberAt(s, n) { NumberStarts(s, n); } }
    }
  }

  // ---- what stands there is read ---------------------------------------

  lemma GapDone(s: string)
    requires s == "" || s[0] > ' '
    ensures SkipWs(s) == s
  {}

  lemma {:induction false} ReadsParsed(s: string, v: Value, rest: string, depth: nat, toDouble: string -> Double)
    requires Reads(s, v, rest, depth, toDouble)
    ensures PValue(s, depth, toDouble) == Got(v, rest)
    decreases v, 1
  {
    hide PValue, PItems, PMembers, ReadsItems, ReadsMembers, Gap, StringAt, NumberAt;
    match v
    case Array(items) =>
      PByStart(s, depth, toDouble);
      var t :| Gap(s[1..], t) &&
        if items == [] then t == "]" + rest else ReadsItems(t, items, rest, depth + 1, toDouble);
      GapIs(s[1..], t);
      if items == [] {
        assert t[1..] == rest;
      } else {
        ItemsParsed(t, items, rest, depth + 1, [], toDouble);
        ItemsNotClosed(t, items, rest, depth + 1, toDouble);
        assert [] + items == items;
      }
    case Object(members) =>
      PByStart(s, depth, toDouble);
      var t :| Gap(s[1..], t) &&
        if members == [] then t == "}" + rest else ReadsMembers(t, members, rest, depth + 1, toDouble);
      GapIs(s[1..], t);
      if members == [] {
        assert t[1..] == rest;
      } else {
        MembersParsed(t, members, rest, depth + 1, [], toDouble);
        MembersNotClosed(t, members, rest, depth + 1, toDouble);
        assert [] + members == members;
      }
    case _ => ScalarIs(s, v, rest, depth, toDouble);
  }

  lemma ItemsNotClosed(s: string, items: seq<Value>, rest: string, depth: nat, toDouble: string -> Double)
    requires items != [] && ReadsItems(s, items, rest, depth, toDouble) && (s == "" || s[0] > ' ')
    ensures s != "" && s[0] != ']'
  {
    hide Reads, Gap;
    var t, after, u :|
      Gap(s, t) && Reads(t, items[0], after, depth, toDouble) && Gap(after, u) && u != "" && if |items| == 1
        then u == "]" + rest else u[0] == ',' && ReadsItems(u[1..], items[1..], rest, depth, toDouble);
    GapIs(s, t);
    GapDone(s);
    ReadsStarts(t, items[0], after, depth, toDouble);
  }

  lemma MembersNotClosed(s: string, members: seq<Member>, rest: string, depth: nat, toDouble: string -> Double)
    requires members != [] && ReadsMembers(s, members, rest, depth, toDouble) && (s == "" || s[0] > ' ')
    ensures s != "" && s[0] != '}'
  {
    hide Reads, Gap, StringAt;
    var t, after, u :|
      Gap(s, t) && ReadsMember(t, members[0], after, depth, toDouble) && Gap(after, u) && u != "" && if |members| == 1
        then u == "}" + rest else u[0] == ',' && ReadsMembers(u[1..], members[1..], rest, depth, toDouble);
    GapIs(s, t);
    GapDone(s);
    MemberStarts(t, members[0], after, depth, toDouble);
  }

  lemma MemberStarts(s: string, m: Member, rest: string, depth: nat, toDouble: string -> Double)
    requires ReadsMember(s, m, rest, depth, toDouble)
    ensures s != "" && s[0] == '"'
  {
    hide Reads, Gap, StringAt;
    var colon, t, u :|
      StringAt(s, m.key, colon) && Gap(colon, t) && t != "" && t[0] == ':' && Gap(t[1..], u)
        && Reads(u, m.value, rest, depth, toDouble);
    StringStarts(s, m.key, colon);
  }

  lemma {:induction false} ItemsParsed(s: string, items: seq<Value>, rest: string, depth: nat, read: seq<Value>,
      toDouble: string -> Double)
    requires items != [] && ReadsItems(s, items, rest, depth, toDouble)
    ensures PItems(s, depth, read, toDouble) == Got(Array(read + items), rest)
    decreases items, 2
  {
    hide PValue, Reads, Gap;
    var t, after, u :|
      Gap(s, t) && Reads(t, items[0], after, depth, toDouble) && Gap(after, u) && u != "" && if |items| == 1
        then u == "]" + rest else u[0] == ',' && ReadsItems(u[1..], items[1..], rest, depth, toDouble);
    GapIs(s, t);
    GapIs(after, u);
    ReadsParsed(t, items[0], after, depth, toDouble);
    assert PItem(s, depth, toDouble) == Got(items[0], u);
    if |items| == 1 {
      assert u[1..] == rest && read + items == read + [items[0]];
    } else {
      ItemsParsed(u[1..], items[1..], rest, depth, read + [items[0]], toDouble);
      assert read + [items[0]] + items[1..] == read + items;
    }
  }

  lemma {:induction false} MembersParsed(s: string, members: seq<Member>, rest: string, depth: nat, read: seq<Member>,
      toDouble: string -> Double)
    requires members != [] && ReadsMembers(s, members, rest, depth, toDouble)
    ensures PMembers(s, depth, read, toDouble) == Got(Object(read + members), rest)
    decreases members, 2
  {
    hide PValue, Reads, Gap, ReadsMember, PMember;
    var t, after, u :|
      Gap(s, t) && ReadsMember(t, members[0], after, depth, toDouble) && Gap(after, u) && u != "" && if |members| == 1
        then u == "}" + rest else u[0] == ',' && ReadsMembers(u[1..], members[1..], rest, depth, toDouble);
    GapIs(s, t);
    GapIs(after, u);
    MemberParsed(s, t, members[0], after, u, depth, toDouble);
    if |members| == 1 {
      assert u[1..] == rest && read + members == read + [members[0]];
    } else {
      MembersParsed(u[1..], members[1..], rest, depth, read + [members[0]], toDouble);
      assert read + [members[0]] + members[1..] == read + members;
    }
  }

  lemma {:induction false} MemberParsed(s: string, t: string, m: Member, after: string, u: string, depth: nat,
      toDouble: string -> Double)
    requires t == SkipWs(s) && ReadsMember(t, m, after, depth, toDouble) && u == SkipWs(after)
    ensures PMember(s, depth, toDouble) == Got(m, u)
    decreases m, 1
  {
    hide PValue, PString, Reads, Gap, StringAt;
    var colon, c, w :|
      StringAt(t, m.key, colon) && Gap(colon, c) && c != "" && c[0] == ':' && Gap(c[1..], w)
        && Reads(w, m.value, after, depth, toDouble);
    StringIs(t, m.key, colon);
    GapIs(colon, c);
    GapIs(c[1..], w);
    ReadsParsed(w, m.value, after, depth, toDouble);
  }

  // ---- and what is read stands there -----------------------------------

  lemma {:induction false} ParsedReads(s: string, v: Value, rest: string, depth: nat, toDouble: string -> Double)
    requires PValue(s, depth, toDouble) == Got(v, rest)
    ensures Reads(s, v, rest, depth, toDouble)
    decreases |s|, 2
  {
    hide PValue, PItems, PMembers, ReadsItems, ReadsMembers, Gap, StringAt, NumberAt;
    if s == "" {
      NothingRead(v, rest, depth, toDouble);
    } else {
      GotStarts(s, v, rest, depth, toDouble);
      PByStart(s, depth, toDouble);
      var t := SkipWs(s[1..]);
      GapIs(s[1..], t);
      if v.Array? {
        if t != "" && t[0] == ']' {
          assert t == "]" + t[1..];
        } else {
          var items := ItemsRead(t, rest, depth + 1, [], v, toDouble);
          assert [] + items == items;
        }
      } else if v.Object? {
        if t != "" && t[0] == '}' {
          assert t == "}" + t[1..];
        } else {
          var members := MembersRead(t, rest, depth + 1, [], v, toDouble);
          assert [] + members == members;
        }
      } else {
        ScalarIs(s, v, rest, depth, toDouble);
      }
    }
  }

  lemma {:induction false} ItemsRead(s: string, rest: string, depth: nat, read: seq<Value>, w: Value,
      toDouble: string -> Double) returns (items: seq<Value>)
    requires PItems(s, depth, read, toDouble) == Got(w, rest)
    ensures items != [] && w == Array(read + items) && ReadsItems(s, items, rest, depth, toDouble)
    decreases |s|, 4
  {
    hide PValue, Reads, Gap;
    var t := SkipWs(s);
    var p := PValue(t, depth, toDouble);
    var u := SkipWs(p.rest);
    GapIs(s, t);
    GapIs(p.rest, u);
    ParsedReads(t, p.value, p.rest, depth, toDouble);
    if u[0] == ',' {
      var more := ItemsRead(u[1..], rest, depth, read + [p.value], w, toDouble);
      items := [p.value] + more;
      assert read + [p.value] + more == read + items && items[1..] == more;
    } else {
      items := [p.value];
      assert u == "]" + rest;
    }
  }

  lemma {:induction false} MembersRead(s: string, rest: string, depth: nat, read: seq<Member>, w: Value,
      toDouble: string -> Double) returns (members: seq<Member>)
    requires PMembers(s, depth, read, toDouble) == Got(w, rest)
    ensures members != [] && w == Object(read + members) && ReadsMembers(s, members, rest, depth, toDouble)
    decreases |s|, 4
  {
    hide PMember, ReadsMember, Gap;
    var p := PMember(s, depth, toDouble);
    var u := p.rest;
    var t := SkipWs(s);
    GapIs(s, t);
    var after := MemberRead(s, p.value, u, depth, toDouble);
    GapIs(after, u);
    if u[0] == ',' {
      var more := MembersRead(u[1..], rest, depth, read + [p.value], w, toDouble);
      members := [p.value] + more;
      assert read + [p.value] + more == read + members && members[1..] == more;
    } else {
      members := [p.value];
      assert u == "}" + rest;
    }
  }

  lemma {:induction false} MemberRead(s: string, m: Member, u: string, depth: nat, toDouble: string -> Double)
    returns (after: string)
    requires PMember(s, depth, toDouble) == Got(m, u)
    ensures ReadsMember(SkipWs(s), m, after, depth, toDouble) && u == SkipWs(after)
    decreases |s|, 3
  {
    hide PValue, PString, Reads, Gap, StringAt;
    var t := SkipWs(s);
    var k := PString(t);
    var c := SkipWs(k.rest);
    var w := SkipWs(c[1..]);
    var p := PValue(w, depth, toDouble);
    StringIs(t, m.key, k.rest);
    GapIs(k.rest, c);
    GapIs(c[1..], w);
    ParsedReads(w, m.value, p.rest, depth, toDouble);
    after := p.rest;
  }

  // ---- documents -------------------------------------------------------

  /** The parser reads a value exactly when the grammar has it there. */
  lemma ValueIff(s: string, v: Value, rest: string, depth: nat, toDouble: string -> Double)
    ensures PValue(s, depth, toDouble) == Got(v, rest) <==> Reads(s, v, rest, depth, toDouble)
  {
    hide PValue, Reads;
    if PValue(s, depth, toDouble) == Got(v, rest) { ParsedReads(s, v, rest, depth, toDouble); }
    if Reads(s, v, rest, depth, toDouble) { ReadsParsed(s, v, rest, depth, toDouble); }
  }

  /** An optional byte-order mark, white space, a value, white space. */
  ghost predicate IsDocument(text: string, v: Value, toDouble: string -> Double) {
    exists t, rest ::
      Gap(if text != "" && text[0] == '\U{FEFF}' then text[1..] else text, t) && Reads(t, v, rest, 0, toDouble)
        && Gap(rest, "")
  }

  /** A text is accepted exactly when it is a document of the grammar, as that document's value. */
  lemma DocumentIff(text: string, v: Value, toDouble: string -> Double)
    ensures ParseDocument(text, toDouble) == Some(v) <==> IsDocument(text, v, toDouble)
  {
    hide PValue, Reads, Gap;
    var body := if text != "" && text[0] == '\U{FEFF}' then text[1..] else text;
    var t := SkipWs(body);
    var r := PValue(t, 0, toDouble);
    GapIs(body, t);
    if r.Got? {
      ValueIff(t, r.value, r.rest, 0, toDouble);
      GapIs(r.rest, "");
    }
    if IsDocument(text, v, toDouble) {
      var t', rest :| Gap(body, t') && Reads(t', v, rest, 0, toDouble) && Gap(rest, "");
      GapIs(body, t');
      ValueIff(t', v, rest, 0, toDouble);
      GapIs(rest, "");
    }
  }
}
