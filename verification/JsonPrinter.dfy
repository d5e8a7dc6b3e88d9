/**
 The printing methods: the canonical printer and the snapshot's compact writer. Both push into a
 growing buffer, by recursion over the value; the canonical one puts every element and member on a
 line of its own, indented by two spaces a level, and the compact one writes no white space at all. Each is
 proved to append exactly the text that the printing function gives.
 */
module JsonPrinter {
  import opened Wrappers
  import opened Number
  import opened NumberText
  import opened JsonNumber
  import opened Json
  import opened JsonPrint

  method PushString(st: Style, s: string, out: string) returns (r: string)
    ensures r == out + Quoted(st, s)
  {
    r := out + ['"'];
    assert s[0..] == s;
    ghost var target := out + Quoted(st, s);
    Regroup(out, ['"'], Escaped(st, s) + ['"']);
    for i := 0 to |s|
      invariant target == r + (Escaped(st, s[i..]) + ['"'])
    {
      ghost var e, rest := EscapeChar(st, s[i]), Escaped(st, s[i + 1..]);
      assert s[i..][1..] == s[i + 1..];
      Regroup(e, rest, ['"']);
      Regroup(r, e, rest + ['"']);
      r := r + EscapeChar(st, s[i]);
    }
    assert s[|s|..] == "";
    assert "" + ['"'] == ['"'];
    r := r + ['"'];
  }

  method PushIndent(depth: nat, out: string) returns (r: string)
    ensures r == out + Indent(depth)
  {
    r := out;
    assert out + Indent(depth) == r + Indent(depth);
    for i := 0 to depth
      invariant out + Indent(depth) == r + Indent(depth - i)
    {
      Regroup(r, "  ", Indent(depth - i - 1));
      r := r + "  ";
    }
    assert r + "" == r;
  }

  method PrintValue(v: Value, depth: nat, out: string) returns (r: string)
    ensures r == out + Print(Canonical, v, depth)
    decreases v, 1
  {
    match v
    case Null => r := out + "null";
    case Bool(b) => r := out + if b then "true" else "false";
    case Number(n) =>
      var t := FormatJsonNumber(n);
      r := out + t;
    case String(s) => r := PushString(Canonical, s, out);
    case Array(items) => r := PrintArray(items, depth, out);
    case Object(members) => r := PrintObject(members, depth, out);
  }

  /** What the array loop has still to push before item `i`. */
  ghost function ItemsLeft(items: seq<Value>, i: nat, d: nat): string
    requires i <= |items|
  {
    if i < |items| then Indent(d + 1) + PrintItems(Canonical, items[i..], d + 1) else Indent(d) + "]"
  }

  ghost function MembersLeft(members: seq<Member>, i: nat, d: nat): string
    requires i <= |members|
  {
    if i < |members| then Indent(d + 1) + PrintMembers(Canonical, members[i..], d + 1) else Indent(d) + "}"
  }

  method PrintArray(items: seq<Value>, depth: nat, out: string) returns (r: string)
    ensures r == out + Print(Canonical, Array(items), depth)
    decreases items, 2
  {
    if |items| == 0 {
      r := out + "[]";
      return;
    }
    r := out + "[\n";
    ghost var target := out + Print(Canonical, Array(items), depth);
    ItemsOpened(items, depth, out);
    for i := 0 to |items|
      invariant target == r + ItemsLeft(items, i, depth)
    {
      ghost var before := r;
      r := PushIndent(depth + 1, r);
      r := PrintValue(items[i], depth + 1, r);
      r := r + if i + 1 < |items| then ",\n" else "\n";
      ItemPushed(items, i, depth, before);
    }
    Regroup(r, Indent(depth), "]");
    r := PushIndent(depth, r);
    r := r + "]";
  }

  method PrintObject(members: seq<Member>, depth: nat, out: string) returns (r: string)
    ensures r == out + Print(Canonical, Object(members), depth)
    decreases members, 2
  {
    if |members| == 0 {
      r := out + "{}";
      return;
    }
    r := out + "{\n";
    ghost var target := out + Print(Canonical, Object(members), depth);
    MembersOpened(members, depth, out);
    for i := 0 to |members|
      invariant target == r + MembersLeft(members, i, depth)
    {
      ghost var before := r;
      r := PushIndent(depth + 1, r);
      r := PushString(Canonical, members[i].key, r);
      r := r + ": ";
      r := PrintValue(members[i].value, depth + 1, r);
      r := r + if i + 1 < |members| then ",\n" else "\n";
      MemberPushed(members, i, depth, before);
    }
    Regroup(r, Indent(depth), "}");
    r := PushIndent(depth, r);
    r := r + "}";
  }

  method PrintCanonical(v: Value) returns (out: string)
    ensures out == CanonicalText(v)
  {
    out := PrintValue(v, 0, "");
    assert "" + Print(Canonical, v, 0) == Print(Canonical, v, 0);
    out := out + "\n";
  }

  lemma ItemsOpened(items: seq<Value>, d: nat, out: string)
    requires items != []
    ensures out + Print(Canonical, Array(items), d) == out + "[\n" + ItemsLeft(items, 0, d)
  {
    assert items[0..] == items;
    OpenedText(out, '[', Indent(d + 1), PrintItems(Canonical, items, d + 1));
  }

  lemma MembersOpened(members: seq<Member>, d: nat, out: string)
    requires members != []
    ensures out + Print(Canonical, Object(members), d) == out + "{\n" + MembersLeft(members, 0, d)
  {
    assert members[0..] == members;
    OpenedText(out, '{', Indent(d + 1), PrintMembers(Canonical, members, d + 1));
  }

  lemma OpenedText(out: string, c: char, ind: string, body: string)
    ensures out + ([c] + (['\n'] + ind + body)) == out + [c, '\n'] + (ind + body)
  {}

  /** One loop iteration of the array printer. */
  lemma ItemPushed(items: seq<Value>, i: nat, d: nat, r: string)
    requires i < |items|
    ensures r + ItemsLeft(items, i, d) == r + Indent(d + 1) + Print(Canonical, items[i], d + 1)
      + (if i + 1 < |items| then ",\n" else "\n") + ItemsLeft(items, i + 1, d)
  {
    assert items[i..][1..] == items[i + 1..];
    var p := Print(Canonical, items[i], d + 1);
    if i + 1 < |items| {
      var more := PrintItems(Canonical, items[i + 1..], d + 1);
      MoreText(r, Indent(d + 1), p, more);
      assert ItemsAfter(Canonical, items[i..], d + 1) == "," + (['\n'] + Indent(d + 1) + more);
      assert ItemsLeft(items, i, d) == Indent(d + 1) + (p + ("," + (['\n'] + Indent(d + 1) + more)));
      assert ItemsLeft(items, i + 1, d) == Indent(d + 1) + more;
    } else {
      LastText(r, Indent(d + 1), p, Indent(d), "]");
      assert ItemsAfter(Canonical, items[i..], d + 1) == ['\n'] + Indent(d) + "]";
      assert ItemsLeft(items, i, d) == Indent(d + 1) + (p + (['\n'] + Indent(d) + "]"));
      assert ItemsLeft(items, i + 1, d) == Indent(d) + "]";
    }
  }

  lemma MoreText(r: string, ind: string, p: string, more: string)
    ensures r + (ind + (p + ("," + (['\n'] + ind + more)))) == r + ind + p + ",\n" + (ind + more)
  {}

  lemma LastText(r: string, ind: string, p: string, outer: string, close: string)
    ensures r + (ind + (p + (['\n'] + outer + close))) == r + ind + p + "\n" + (outer + close)
  {}

  lemma MemberPushed(members: seq<Member>, i: nat, d: nat, r: string)
    requires i < |members|
    ensures r + MembersLeft(members, i, d)
      == r + Indent(d + 1) + Quoted(Canonical, members[i].key) + ": " + Print(Canonical, members[i].value, d + 1)
      + (if i + 1 < |members| then ",\n" else "\n") + MembersLeft(members, i + 1, d)
  {
    assert members[i..][1..] == members[i + 1..];
    var q, v := Quoted(Canonical, members[i].key), Print(Canonical, members[i].value, d + 1);
    var p := PrintMember(Canonical, members[i], d + 1);
    MemberText(r + Indent(d + 1), q, v);
    if i + 1 < |members| {
      var more := PrintMembers(Canonical, members[i + 1..], d + 1);
      MoreText(r, Indent(d + 1), p, more);
      assert MembersAfter(Canonical, members[i..], d + 1) == "," + (['\n'] + Indent(d + 1) + more);
      assert MembersLeft(members, i, d) == Indent(d + 1) + (p + ("," + (['\n'] + Indent(d + 1) + more)));
      assert MembersLeft(members, i + 1, d) == Indent(d + 1) + more;
    } else {
      LastText(r, Indent(d + 1), p, Indent(d), "}");
      assert MembersAfter(Canonical, members[i..], d + 1) == ['\n'] + Indent(d) + "}";
      assert MembersLeft(members, i, d) == Indent(d + 1) + (p + (['\n'] + Indent(d) + "}"));
      assert MembersLeft(members, i + 1, d) == Indent(d) + "}";
    }
  }

  lemma MemberText(r: string, q: string, v: string)
    ensures r + (q + (": " + v)) == r + q + ": " + v
  {}

  // ---- the compact writer ----------------------------------------------

  method WriteValue(v: Value, show: Double -> string, out: string) returns (r: string)
    ensures r == out + Print(Compact(show), v, 0)
    decreases v, 1
  {
    var st := Compact(show);
    match v
    case Null => r := out + "null";
    case Bool(b) => r := out + if b then "true" else "false";
    case Number(n) => r := out + if n.Finite? then show(n) else "null";
    case String(s) => r := PushString(st, s, out);
    case Array(items) =>
      r := out + "[";
      CompactOpened(st, items, out);
      for i := 0 to |items|
        invariant out + Print(st, v, 0) == r + CompactItemsLeft(st, items, i)
      {
        ghost var before := r;
        r := r + if i > 0 then "," else "";
        r := WriteValue(items[i], show, r);
        CompactItem(st, items, i, before);
      }
      r := r + "]";
    case Object(members) =>
      r := out + "{";
      CompactMembersOpened(st, members, out);
      for i := 0 to |members|
        invariant out + Print(st, v, 0) == r + CompactMembersLeft(st, members, i)
      {
        ghost var before := r;
        r := r + if i > 0 then "," else "";
        r := PushString(st, members[i].key, r);
        r := r + ":";
        r := WriteValue(members[i].value, show, r);
        CompactMember(st, members, i, before);
      }
      r := r + "}";
  }

  ghost function CompactItemsLeft(st: Style, items: seq<Value>, i: nat): string
    requires i <= |items|
  {
    if i == |items| then "]" else (if i > 0 then "," else "") + PrintItems(st, items[i..], 1)
  }

  ghost function CompactMembersLeft(st: Style, members: seq<Member>, i: nat): string
    requires i <= |members|
  {
    if i == |members| then "}" else (if i > 0 then "," else "") + PrintMembers(st, members[i..], 1)
  }

  /** Compact output does not depend on the depth. */
  lemma {:induction false} DepthIrrelevant(st: Style, v: Value, d: nat)
    requires st.Compact?
    ensures Print(st, v, d) == Print(st, v, 0)
    decreases v, 1
  {
    match v
    case Array(items) => if items != [] { ItemsDepth(st, items, d + 1); }
    case Object(members) => if members != [] { MembersDepth(st, members, d + 1); }
    case _ =>
  }

  lemma {:induction false} ItemsDepth(st: Style, items: seq<Value>, d: nat)
    requires st.Compact? && items != [] && d > 0
    ensures PrintItems(st, items, d) == PrintItems(st, items, 1)
    decreases items, 0
  {
    DepthIrrelevant(st, items[0], d);
    DepthIrrelevant(st, items[0], 1);
    if |items| > 1 { ItemsDepth(st, items[1..], d); }
  }

  lemma {:induction false} MembersDepth(st: Style, members: seq<Member>, d: nat)
    requires st.Compact? && members != [] && d > 0
    ensures PrintMembers(st, members, d) == PrintMembers(st, members, 1)
    decreases members, 0
  {
    DepthIrrelevant(st, members[0].value, d);
    DepthIrrelevant(st, members[0].value, 1);
    if |members| > 1 { MembersDepth(st, members[1..], d); }
  }

  lemma CompactOpened(st: Style, items: seq<Value>, out: string)
    requires st.Compact?
    ensures out + Print(st, Array(items), 0) == out + "[" + CompactItemsLeft(st, items, 0)
  {
    assert items[0..] == items;
    if items != [] { Regroup(out, "[", "" + PrintItems(st, items, 1)); }
  }

  lemma CompactMembersOpened(st: Style, members: seq<Member>, out: string)
    requires st.Compact?
    ensures out + Print(st, Object(members), 0) == out + "{" + CompactMembersLeft(st, members, 0)
  {
    assert members[0..] == members;
    if members != [] { Regroup(out, "{", "" + PrintMembers(st, members, 1)); }
  }

  lemma CompactItem(st: Style, items: seq<Value>, i: nat, r: string)
    requires st.Compact? && i < |items|
    ensures r + CompactItemsLeft(st, items, i)
      == r + (if i > 0 then "," else "") + Print(st, items[i], 0) + CompactItemsLeft(st, items, i + 1)
  {
    var c := if i > 0 then "," else "";
    assert items[i..][1..] == items[i + 1..];
    DepthIrrelevant(st, items[i], 1);
    var after := CompactItemsLeft(st, items, i + 1);
    CompactText(r, c, Print(st, items[i], 0), after);
    assert ItemsAfter(st, items[i..], 1) == after by {
      if i + 1 < |items| {
        assert "" + PrintItems(st, items[i + 1..], 1) == PrintItems(st, items[i + 1..], 1);
      }
    }
    assert CompactItemsLeft(st, items, i) == c + (Print(st, items[i], 0) + after);
  }

  lemma CompactText(r: string, c: string, p: string, after: string)
    ensures r + (c + (p + after)) == r + c + p + after
  {}

  lemma CompactMember(st: Style, members: seq<Member>, i: nat, r: string)
    requires st.Compact? && i < |members|
    ensures r + CompactMembersLeft(st, members, i)
      == r + (if i > 0 then "," else "") + Quoted(st, members[i].key) + ":" + Print(st, members[i].value, 0)
      + CompactMembersLeft(st, members, i + 1)
  {
    var c := if i > 0 then "," else "";
    assert members[i..][1..] == members[i + 1..];
    DepthIrrelevant(st, members[i].value, 1);
    var q, v := Quoted(st, members[i].key), Print(st, members[i].value, 0);
    ColonText(r + c, q, v);
    var after := CompactMembersLeft(st, members, i + 1);
    CompactText(r, c, q + (":" + v), after);
    assert MembersAfter(st, members[i..], 1) == after by {
      if i + 1 < |members| {
        assert "" + PrintMembers(st, members[i + 1..], 1) == PrintMembers(st, members[i + 1..], 1);
      }
    }
    assert PrintMember(st, members[i], 1) == q + (":" + v);
    assert CompactMembersLeft(st, members, i) == c + (q + (":" + v) + after);
  }

  lemma ColonText(r: string, q: string, v: string)
    ensures r + (q + (":" + v)) == r + q + ":" + v
  {}
}
