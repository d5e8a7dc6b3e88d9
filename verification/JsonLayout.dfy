/**
 The canonical printer's layout, on its characters: where lines break, how far each is indented,
 which blanks there are, and which characters are escaped.
 */
module JsonLayout {
  import opened Wrappers
  import opened Number
  import opened NumberText
  import opened JsonNumber
  import opened Json
  import opened JsonPrint
  import JsonEscapes

  // ---- the layout of a text --------------------------------------------

  datatype Mode = Outside | Inside | Escape

  function Blanks(n: nat): string {
    seq(n, _ => ' ')
  }

  predicate Opens(c: char) {
    c == '[' || c == '{'
  }

  predicate Closes(c: char) {
    c == ']' || c == '}'
  }

  /** A line break, two blanks for each of `open` brackets, and something else. */
  predicate LineOf(t: string, open: nat) {
    |t| > 1 + 2 * open && t[..1 + 2 * open] == "\n" + Blanks(2 * open) && t[1 + 2 * open] > ' '
  }

  /**
   Read on with `open` brackets open. After an opening bracket and after a comma a line starts,
   indented for the brackets open there; a closing bracket is on a line of its own, indented for the
   brackets left open, or directly after its opening one; a colon has one blank after it; there are
   no other blanks or line breaks outside strings.
   */
  predicate Laid(t: string, open: nat, mode: Mode)
    decreases |t|
  {
    if t == "" then mode == Outside && open == 0
    else match mode
      case Escape => Laid(t[1..], open, Inside)
      case Inside => Laid(t[1..], open, if t[0] == '"' then Outside else if t[0] == '\\' then Escape else Inside)
      case Outside =>
        if t[0] == '"' then Laid(t[1..], open, Inside)
        else if Opens(t[0]) && t[1..] != "" && Closes(t[1]) then Laid(t[2..], open, Outside)
        else if Opens(t[0]) then
          LineOf(t[1..], open + 1) && !Closes(t[2 + 2 * (open + 1)]) && Laid(t[2 + 2 * (open + 1)..], open + 1, Outside)
        else if t[0] == ',' then
          LineOf(t[1..], open) && !Closes(t[2 + 2 * open]) && Laid(t[2 + 2 * open..], open, Outside)
        else if t[0] == ':' then
          |t| > 2 && t[1] == ' ' && t[2] > ' ' && Laid(t[2..], open, Outside)
        else if t[0] == '\n' then
          open > 0 && LineOf(t, open - 1) && Closes(t[1 + 2 * (open - 1)])
          && Laid(t[2 + 2 * (open - 1)..], open - 1, Outside)
        else t[0] > ' ' && !Closes(t[0]) && Laid(t[1..], open, Outside)
  }

  // ---- pieces ----------------------------------------------------------

  lemma {:induction false} IndentIs(d: nat)
    ensures Indent(d) == Blanks(2 * d)
  {
    if d > 0 { IndentIs(d - 1); }
  }

  /** Characters with no part in the layout. */
  predicate Ordinary(c: char) {
    c > ' ' && c != '"' && !Opens(c) && !Closes(c) && c != ',' && c != ':'
  }

  lemma {:induction false} OrdinaryLaid(u: string, post: string, open: nat)
    requires forall k :: 0 <= k < |u| ==> Ordinary(u[k])
    requires Laid(post, open, Outside)
    ensures Laid(u + post, open, Outside)
  {
    if u == "" {
      assert u + post == post;
    } else {
      OrdinaryLaid(u[1..], post, open);
      assert (u + post)[1..] == u[1..] + post;
    }
  }

  /** An escaped character leaves the string open. */
  lemma CharLaid(st: Style, c: char, post: string, open: nat)
    requires Laid(post, open, Inside)
    ensures Laid(EscapeChar(st, c) + post, open, Inside)
  {
    EscapeShapes(st, c);
    var u := EscapeChar(st, c);
    var t := u + post;
    assert t[|u|..] == post;
    if |u| == 1 {
      assert t[1..] == post;
    } else {
      assert t[0] == '\\' && t[1..][1..] == t[2..];
      if |u| == 6 { SixLaid(u, post, open); }
    }
  }

  lemma SixLaid(u: string, post: string, open: nat)
    requires |u| == 6 && u[0] == '\\' && forall k :: 2 <= k < 6 ==> u[k] != '"' && u[k] != '\\'
    requires Laid(post, open, Inside)
    ensures Laid(u + post, open, Inside)
  {
    var t := u + post;
    assert t[6..] == post;
    StepInside(t[5..], open);
    StepInside(t[4..], open);
    StepInside(t[3..], open);
    StepInside(t[2..], open);
    assert t[1..][1..] == t[2..];
  }

  lemma StepInside(t: string, open: nat)
    requires t != "" && t[0] != '"' && t[0] != '\\' && Laid(t[1..], open, Inside)
    ensures Laid(t, open, Inside)
  {}

  lemma {:induction false} EscapedLaid(st: Style, s: string, post: string, open: nat)
    requires Laid(post, open, Inside)
    ensures Laid(Escaped(st, s) + post, open, Inside)
  {
    hide EscapeChar, Laid;
    if s == "" {
      assert Escaped(st, s) + post == post;
    } else {
      EscapedLaid(st, s[1..], post, open);
      CharLaid(st, s[0], Escaped(st, s[1..]) + post, open);
      assert Escaped(st, s) + post == EscapeChar(st, s[0]) + (Escaped(st, s[1..]) + post);
    }
  }

  lemma QuotedLaid(st: Style, s: string, post: string, open: nat)
    requires Laid(post, open, Outside)
    ensures Laid(Quoted(st, s) + post, open, Outside)
  {
    hide Escaped;
    assert ("\"" + post)[1..] == post;
    EscapedLaid(st, s, "\"" + post, open);
    var t := Quoted(st, s) + post;
    assert t[1..] == Escaped(st, s) + ("\"" + post);
  }

  // ---- values ----------------------------------------------------------

  /** A text that can start a line or follow a colon. */
  predicate Starts(t: string) {
    t != "" && t[0] > ' ' && !Closes(t[0])
  }

  lemma LineStarts(body: string, d: nat)
    requires body != "" && body[0] > ' '
    ensures var t := Break(Canonical, d) + body;
      LineOf(t, d) && t[1 + 2 * d..] == body && t[1 + 2 * d] == body[0] && t[0] == '\n'
  {
    IndentIs(d);
    hide Indent;
    var t := Break(Canonical, d) + body;
    assert t == "\n" + Blanks(2 * d) + body;
  }

  /** An opening bracket and a comma start a line. */
  lemma OpenLaid(c: char, body: string, d: nat)
    requires Opens(c) && Starts(body) && Laid(body, d + 1, Outside)
    ensures Laid([c] + (Break(Canonical, d + 1) + body), d, Outside)
  {
    LineStarts(body, d + 1);
    hide LineOf, Break;
    var line := Break(Canonical, d + 1) + body;
    var t := [c] + line;
    assert t[1..] == line && t[2 + 2 * (d + 1)..] == line[1 + 2 * (d + 1)..];
    assert t[2 + 2 * (d + 1)] == line[1 + 2 * (d + 1)];
  }

  lemma CommaLaid(body: string, d: nat)
    requires Starts(body) && Laid(body, d, Outside)
    ensures Laid("," + (Break(Canonical, d) + body), d, Outside)
  {
    LineStarts(body, d);
    hide LineOf, Break;
    var line := Break(Canonical, d) + body;
    var t := "," + line;
    assert t[1..] == line && t[2 + 2 * d..] == line[1 + 2 * d..];
    assert t[2 + 2 * d] == line[1 + 2 * d];
  }

  lemma CloseLaid(c: char, post: string, d: nat)
    requires Closes(c) && Laid(post, d, Outside)
    ensures Laid(Break(Canonical, d) + [c] + post, d + 1, Outside)
  {
    var body := [c] + post;
    LineStarts(body, d);
    hide LineOf, Break;
    var t := Break(Canonical, d) + body;
    assert Break(Canonical, d) + [c] + post == t;
    assert t[2 + 2 * d..] == t[1 + 2 * d..][1..] == post;
  }

  lemma EmptyLaid(o: char, c: char, post: string, d: nat)
    requires Opens(o) && Closes(c) && Laid(post, d, Outside)
    ensures Laid([o, c] + post, d, Outside)
  {
    var t := [o, c] + post;
    assert t[2..] == post && t[1..] != "";
  }

  lemma ColonLaid(body: string, d: nat)
    requires Starts(body) && Laid(body, d, Outside)
    ensures Laid(": " + body, d, Outside)
  {
    var t := ": " + body;
    assert t[2..] == body;
  }

  lemma NumberOrdinary(n: Double)
    ensures var t := JsonNumberText(n); t != "" && Starts(t) && forall k :: 0 <= k < |t| ==> Ordinary(t[k])
  {
    hide JsonNumberText, IsNumberText;
    if n.Finite? {
      JsonNumberIsToken(n);
      NumberCharset(JsonNumberText(n));
      NotEmpty(JsonNumberText(n));
    } else {
      Unfinite(n);
    }
  }

  lemma NotEmpty(t: string)
    requires IsNumberText(t)
    ensures t != ""
  {}

  lemma Unfinite(n: Double)
    requires !n.Finite?
    ensures JsonNumberText(n) in {"nan", "-nan", "inf", "-inf"}
  {}

  lemma {:induction false} PrintStarts(v: Value, d: nat)
    ensures Starts(Print(Canonical, v, d))
  {
    hide JsonNumberText;
    if v.Number? { NumberOrdinary(v.n); }
  }

  lemma ScalarLaid(v: Value, d: nat, post: string)
    requires (v.Null? || v.Bool? || v.Number?) && Laid(post, d, Outside)
    ensures Laid(Print(Canonical, v, d) + post, d, Outside)
  {
    hide JsonNumberText, Laid;
    if v.Number? { NumberOrdinary(v.n); }
    OrdinaryLaid(Print(Canonical, v, d), post, d);
  }

  lemma {:induction false} ValueLaid(v: Value, d: nat, post: string)
    requires Laid(post, d, Outside)
    ensures Laid(Print(Canonical, v, d) + post, d, Outside)
    decreases v, 0
  {
    hide Laid, Quoted, PrintItems, PrintMembers, Break;
    match v
    case String(s) => QuotedLaid(Canonical, s, post, d);
    case Array(items) =>
      if items == [] {
        EmptyLaid('[', ']', post, d);
      } else {
        ItemsLaid(items, d + 1, post);
        ItemsStart(items, d + 1, post);
        OpenLaid('[', PrintItems(Canonical, items, d + 1) + post, d);
        Regroup("[", Break(Canonical, d + 1), PrintItems(Canonical, items, d + 1), post);
      }
    case Object(members) =>
      if members == [] {
        EmptyLaid('{', '}', post, d);
      } else {
        MembersLaid(members, d + 1, post);
        MembersStart(members, d + 1, post);
        OpenLaid('{', PrintMembers(Canonical, members, d + 1) + post, d);
        Regroup("{", Break(Canonical, d + 1), PrintMembers(Canonical, members, d + 1), post);
      }
    case _ => ScalarLaid(v, d, post);
  }

  lemma Regroup(a: string, b: string, c: string, post: string)
    ensures a + (b + c) + post == a + (b + (c + post))
  {}

  lemma ItemsStart(items: seq<Value>, d: nat, post: string)
    requires items != [] && d > 0
    ensures Starts(PrintItems(Canonical, items, d) + post)
  {
    hide Print;
    PrintStarts(items[0], d);
  }

  lemma MembersStart(members: seq<Member>, d: nat, post: string)
    requires members != [] && d > 0
    ensures Starts(PrintMembers(Canonical, members, d) + post)
  {
    hide Print;
  }

  lemma {:induction false} ItemsLaid(items: seq<Value>, d: nat, post: string)
    requires items != [] && d > 0 && Laid(post, d - 1, Outside)
    ensures Laid(PrintItems(Canonical, items, d) + post, d, Outside)
    decreases items, 2
  {
    hide Laid, Print, Break;
    var after := ItemsAfter(Canonical, items, d);
    if |items| == 1 {
      CloseLaid(']', post, d - 1);
    } else {
      ItemsLaid(items[1..], d, post);
      ItemsStart(items[1..], d, post);
      CommaLaid(PrintItems(Canonical, items[1..], d) + post, d);
      Regroup(",", Break(Canonical, d), PrintItems(Canonical, items[1..], d), post);
    }
    ValueLaid(items[0], d, after + post);
    assert Print(Canonical, items[0], d) + after + post == Print(Canonical, items[0], d) + (after + post);
  }

  lemma {:induction false} MembersLaid(members: seq<Member>, d: nat, post: string)
    requires members != [] && d > 0 && Laid(post, d - 1, Outside)
    ensures Laid(PrintMembers(Canonical, members, d) + post, d, Outside)
    decreases members, 2
  {
    hide Laid, Print, Break, PrintMember;
    var after := MembersAfter(Canonical, members, d);
    if |members| == 1 {
      CloseLaid('}', post, d - 1);
    } else {
      MembersLaid(members[1..], d, post);
      MembersStart(members[1..], d, post);
      CommaLaid(PrintMembers(Canonical, members[1..], d) + post, d);
      Regroup(",", Break(Canonical, d), PrintMembers(Canonical, members[1..], d), post);
    }
    MemberLaid(members[0], d, after + post);
    var first := PrintMember(Canonical, members[0], d);
    assert first + after + post == first + (after + post);
  }

  lemma {:induction false} MemberLaid(m: Member, d: nat, post: string)
    requires Laid(post, d, Outside)
    ensures Laid(PrintMember(Canonical, m, d) + post, d, Outside)
    decreases m, 1
  {
    hide Laid, Print, Quoted;
    ValueLaid(m.value, d, post);
    PrintStarts(m.value, d);
    ColonLaid(Print(Canonical, m.value, d) + post, d);
    QuotedLaid(Canonical, m.key, ": " + (Print(Canonical, m.value, d) + post), d);
    Regroup(Quoted(Canonical, m.key), ": ", Print(Canonical, m.value, d), post);
  }

  /** Canonical text is laid out line by line, and ends with one line feed. */
  lemma CanonicalLaid(v: Value)
    ensures var t := CanonicalText(v);
      t != "" && t[|t| - 1] == '\n' && Laid(t[..|t| - 1], 0, Outside)
  {
    hide Print;
    ValueLaid(v, 0, "");
    var p := Print(Canonical, v, 0);
    assert p + "" == p && (p + "\n")[..|p|] == p;
  }

  // ---- escapes ---------------------------------------------------------

  /** Either printer writes a character in one of the ways a parser reads it. */
  lemma EscapeIsSpelling(st: Style, c: char)
    ensures JsonEscapes.Spells(EscapeChar(st, c), c)
  {
    if c < ' ' { ControlSpelled(c); }
  }

  lemma ControlSpelled(c: char)
    requires c < ' '
    ensures JsonEscapes.SpellsUnit(ControlEscape(c), c as nat)
  {
    JsonEscapes.DigitRead(HexDigit(c as nat / 16), c as nat / 0x10 % 0x10);
    JsonEscapes.DigitRead(HexDigit(c as nat % 16), c as nat % 0x10);
  }

  /** Compact: no way to write it without a raw control character is shorter. */
  lemma CompactShortest(st: Style, c: char, u: string)
    requires st.Compact? && JsonEscapes.Spells(u, c) && (c < ' ' ==> u != [c])
    ensures |EscapeChar(st, c)| <= |u|
  {
    if c < ' ' && |u| == 2 { ControlsAreLong(c, u); }
  }

  lemma ControlsAreLong(c: char, u: string)
    requires c < ' ' && |u| == 2 && JsonEscapes.Spells(u, c)
    ensures c in {'\n', '\r', '\t', '\U{8}', '\U{C}'}
  {}

  /** Canonical: a quote and a backslash by two characters, a control character by six, any other as it is. */
  lemma CanonicalEscapes(c: char)
    ensures |EscapeChar(Canonical, c)| == if c < ' ' then 6 else if c == '"' || c == '\\' then 2 else 1
  {}
}
