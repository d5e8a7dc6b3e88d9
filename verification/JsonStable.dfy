/**
 When canonical text is a fixed point of printing after parsing. `NumberStable` says which numbers
 print the same again; this is the question for whole values.
 */
module JsonStable {
  import opened Wrappers
  import opened Number
  import opened NumberText
  import opened JsonNumber
  import opened Json
  import opened JsonPrint
  import opened JsonResults
  import opened NumberStable

  /** Numbers that print the same text again once it has been converted. */
  ghost function Stable(toDouble: string -> Double): Double -> bool {
    (n: Double) => n.Finite? && PrintsSame(n, toDouble)
  }

  // ---- the same numbers, the same texts --------------------------------

  /** Some double that prints as the text; a conversion that confuses no two printed texts. */
  ghost function Named(t: string): Double {
    if n: Double :| JsonNumberText(n) == t then n else Finite(false, 0, 0)
  }

  ghost function Names(): string -> Double {
    (t: string) => Named(t)
  }

  lemma NamesDiffer(a: Double, b: Double)
    requires Named(JsonNumberText(a)) == Named(JsonNumberText(b))
    ensures JsonNumberText(a) == JsonNumberText(b)
  {
    hide JsonNumberText;
  }

  /** Whatever converts the numbers, acceptance is the same. */
  lemma SameAcceptance(v: Value, depth: nat, toDouble: string -> Double)
    requires depth <= NESTING_LIMIT && Back(Canonical, v, depth, toDouble).Some?
    ensures Back(Canonical, v, depth, Names()).Some?
  {
    AcceptedIff(Canonical, v, depth, toDouble);
    AcceptedIff(Canonical, v, depth, Names());
  }

  /** A value and what is read back print alike only when their numbers do. */
  lemma {:induction false} NumbersStable(v: Value, depth: nat, toDouble: string -> Double)
    requires depth <= NESTING_LIMIT && Back(Canonical, v, depth, toDouble).Some?
    requires Back(Canonical, v, depth, Names()) ==
      Back(Canonical, Back(Canonical, v, depth, toDouble).value, depth, Names())
    ensures Numbers(v, Stable(toDouble))
    decreases v, 0
  {
    hide JsonNumberText, Named;
    SameAcceptance(v, depth, toDouble);
    match v
    case Number(n) => NamesDiffer(n, toDouble(JsonNumberText(n)));
    case Array(items) => ItemsStable(items, depth + 1, toDouble);
    case Object(members) => MembersStable(members, depth + 1, toDouble);
    case _ =>
  }

  lemma {:induction false} ItemsStable(items: seq<Value>, depth: nat, toDouble: string -> Double)
    requires depth <= NESTING_LIMIT && BackItems(Canonical, items, depth, toDouble).Some?
    requires BackItems(Canonical, items, depth, Names()).Some?
    requires BackItems(Canonical, items, depth, Names())
      == BackItems(Canonical, BackItems(Canonical, items, depth, toDouble).value, depth, Names())
    ensures forall i :: 0 <= i < |items| ==> Numbers(items[i], Stable(toDouble))
    decreases items, 0
  {
    hide Back, Numbers;
    if items != [] {
      var w := Back(Canonical, items[0], depth, toDouble).value;
      var ws := BackItems(Canonical, items[1..], depth, toDouble).value;
      var a, as' := Back(Canonical, items[0], depth, Names()), BackItems(Canonical, items[1..], depth, Names());
      assert ([w] + ws)[1..] == ws;
      var b, bs := Back(Canonical, w, depth, Names()), BackItems(Canonical, ws, depth, Names());
      assert [a.value] + as'.value == [b.value] + bs.value;
      Heads(a.value, as'.value, b.value, bs.value);
      NumbersStable(items[0], depth, toDouble);
      ItemsStable(items[1..], depth, toDouble);
      assert forall i :: 1 <= i < |items| ==> items[i] == items[1..][i - 1];
    }
  }

  lemma Heads<T>(a: T, s: seq<T>, b: T, t: seq<T>)
    requires [a] + s == [b] + t
    ensures a == b && s == t
  {
    assert ([a] + s)[0] == a && ([b] + t)[0] == b;
    assert ([a] + s)[1..] == s && ([b] + t)[1..] == t;
  }

  lemma {:induction false} MembersStable(members: seq<Member>, depth: nat, toDouble: string -> Double)
    requires depth <= NESTING_LIMIT && BackMembers(Canonical, members, depth, toDouble).Some?
    requires BackMembers(Canonical, members, depth, Names()).Some?
    requires BackMembers(Canonical, members, depth, Names())
      == BackMembers(Canonical, BackMembers(Canonical, members, depth, toDouble).value, depth, Names())
    ensures forall i :: 0 <= i < |members| ==> Numbers(members[i].value, Stable(toDouble))
    decreases members, 0
  {
    hide Back, Numbers, CString;
    if members != [] {
      var key := CString(members[0].key);
      var w := Back(Canonical, members[0].value, depth, toDouble).value;
      var ws := BackMembers(Canonical, members[1..], depth, toDouble).value;
      var a, as' := Back(Canonical, members[0].value, depth, Names()),
        BackMembers(Canonical, members[1..], depth, Names());
      assert ([Member(key, w)] + ws)[1..] == ws;
      var b, bs := Back(Canonical, w, depth, Names()), BackMembers(Canonical, ws, depth, Names());
      Heads(Member(key, a.value), as'.value, Member(CString(key), b.value), bs.value);
      NumbersStable(members[0].value, depth, toDouble);
      MembersStable(members[1..], depth, toDouble);
      assert forall i :: 1 <= i < |members| ==> members[i] == members[1..][i - 1];
    }
  }

  // ---- a cut string is shorter -----------------------------------------

  /** The text again, or a shorter one. */
  ghost predicate Again(same: bool, t: string, u: string) {
    if same then u == t else |u| < |t|
  }

  lemma {:induction false} EscapedPrefix(s: string, n: nat)
    requires n <= |s|
    ensures |Escaped(Canonical, s[..n])| <= |Escaped(Canonical, s)|
    ensures n < |s| ==> |Escaped(Canonical, s[..n])| < |Escaped(Canonical, s)|
    decreases n
  {
    if s != "" && n > 0 {
      assert s[..n][1..] == s[1..][..n - 1];
      EscapedPrefix(s[1..], n - 1);
    }
  }

  lemma StringAgain(s: string)
    ensures Again(HasNoNul(s), Quoted(Canonical, s), Quoted(Canonical, CString(s)))
  {
    CStringKeeps(s);
    var n := IndexOf(s, 0 as char);
    EscapedPrefix(s, n);
    if n == |s| { assert s[..n] == s; }
  }

  lemma AgainBoth(a: bool, t: string, u: string, b: bool, x: string, y: string)
    requires Again(a, t, u) && Again(b, x, y)
    ensures Again(a && b, t + x, u + y)
  {}

  lemma AgainSame(t: string)
    ensures Again(true, t, t)
  {}

  /** With stable numbers a value prints again as it did, or shorter when a string was cut. */
  lemma {:induction false} PrintsAgain(v: Value, d: nat, depth: nat, toDouble: string -> Double)
    requires Back(Canonical, v, depth, toDouble).Some? && Numbers(v, Stable(toDouble))
    ensures Again(NulFree(v), Print(Canonical, v, d), Print(Canonical, Back(Canonical, v, depth, toDouble).value, d))
    decreases v, 0
  {
    hide JsonNumberText, Quoted, CString, Again, PrintItems, PrintMembers, IsNumberText;
    AgainSame(Print(Canonical, v, d));
    match v
    case String(s) => StringAgain(s);
    case Array(items) =>
      if items != [] {
        ItemsAgain(items, d + 1, depth + 1, toDouble);
        var vs := BackItems(Canonical, items, depth + 1, toDouble).value;
        var lead := Break(Canonical, d + 1);
        Wrapped(ItemsNulFree(items), "[", lead, PrintItems(Canonical, items, d + 1), PrintItems(Canonical, vs, d + 1));
      }
    case Object(members) =>
      if members != [] {
        MembersAgain(members, d + 1, depth + 1, toDouble);
        var ms := BackMembers(Canonical, members, depth + 1, toDouble).value;
        var lead := Break(Canonical, d + 1);
        Wrapped(MembersNulFree(members), "{", lead, PrintMembers(Canonical, members, d + 1),
          PrintMembers(Canonical, ms, d + 1));
      }
    case _ =>
  }

  lemma Wrapped(same: bool, open: string, lead: string, t: string, u: string)
    requires Again(same, t, u)
    ensures Again(same, open + (lead + t), open + (lead + u))
  {}

  ghost predicate ItemsNulFree(items: seq<Value>) {
    forall i :: 0 <= i < |items| ==> NulFree(items[i])
  }

  ghost predicate MembersNulFree(members: seq<Member>) {
    forall i :: 0 <= i < |members| ==> HasNoNul(members[i].key) && NulFree(members[i].value)
  }

  lemma {:induction false} ItemsAgain(items: seq<Value>, d: nat, depth: nat, toDouble: string -> Double)
    requires items != [] && d > 0 && BackItems(Canonical, items, depth, toDouble).Some?
    requires forall i :: 0 <= i < |items| ==> Numbers(items[i], Stable(toDouble))
    ensures var vs := BackItems(Canonical, items, depth, toDouble).value;
      |vs| == |items| && Again(ItemsNulFree(items), PrintItems(Canonical, items, d), PrintItems(Canonical, vs, d))
    decreases items, 0
  {
    hide Print, Back, Again, Numbers, NulFree;
    var v := Back(Canonical, items[0], depth, toDouble).value;
    var rest := BackItems(Canonical, items[1..], depth, toDouble).value;
    var vs := [v] + rest;
    assert vs[1..] == rest && vs[0] == v;
    PrintsAgain(items[0], d, depth, toDouble);
    var tail := items[1..];
    assert forall i :: 1 <= i < |items| ==> items[i] == tail[i - 1];
    assert ItemsNulFree(items) <==> NulFree(items[0]) && ItemsNulFree(tail);
    if tail == [] {
      AgainSame(ItemsAfter(Canonical, items, d));
      assert rest == [];
      AgainBoth(NulFree(items[0]), Print(Canonical, items[0], d), Print(Canonical, v, d),
        true, ItemsAfter(Canonical, items, d), ItemsAfter(Canonical, vs, d));
    } else {
      ItemsAgain(tail, d, depth, toDouble);
      Wrapped(ItemsNulFree(tail), ",", Break(Canonical, d), PrintItems(Canonical, tail, d),
        PrintItems(Canonical, rest, d));
      AgainBoth(NulFree(items[0]), Print(Canonical, items[0], d), Print(Canonical, v, d),
        ItemsNulFree(tail), ItemsAfter(Canonical, items, d), ItemsAfter(Canonical, vs, d));
    }
  }

  lemma {:induction false} MembersAgain(members: seq<Member>, d: nat, depth: nat, toDouble: string -> Double)
    requires members != [] && d > 0 && BackMembers(Canonical, members, depth, toDouble).Some?
    requires forall i :: 0 <= i < |members| ==> Numbers(members[i].value, Stable(toDouble))
    ensures var ms := BackMembers(Canonical, members, depth, toDouble).value;
      |ms| == |members|
      && Again(MembersNulFree(members), PrintMembers(Canonical, members, d), PrintMembers(Canonical, ms, d))
    decreases members, 0
  {
    hide PrintMember, Back, Again, Numbers, NulFree, HasNoNul, CString;
    var m := Member(CString(members[0].key), Back(Canonical, members[0].value, depth, toDouble).value);
    var rest := BackMembers(Canonical, members[1..], depth, toDouble).value;
    var ms := [m] + rest;
    assert ms[1..] == rest && ms[0] == m;
    var same := HasNoNul(members[0].key) && NulFree(members[0].value);
    PrintsAgain(members[0].value, d, depth, toDouble);
    MemberAgain(members[0], m, d);
    var tail := members[1..];
    assert forall i :: 1 <= i < |members| ==> members[i] == tail[i - 1];
    assert MembersNulFree(members) <==> same && MembersNulFree(tail);
    if tail == [] {
      AgainSame(MembersAfter(Canonical, members, d));
      assert rest == [];
      AgainBoth(same, PrintMember(Canonical, members[0], d), PrintMember(Canonical, m, d),
        true, MembersAfter(Canonical, members, d), MembersAfter(Canonical, ms, d));
    } else {
      MembersAgain(tail, d, depth, toDouble);
      Wrapped(MembersNulFree(tail), ",", Break(Canonical, d), PrintMembers(Canonical, tail, d),
        PrintMembers(Canonical, rest, d));
      AgainBoth(same, PrintMember(Canonical, members[0], d), PrintMember(Canonical, m, d),
        MembersNulFree(tail), MembersAfter(Canonical, members, d), MembersAfter(Canonical, ms, d));
    }
  }

  lemma MemberAgain(m: Member, w: Member, d: nat)
    requires w.key == CString(m.key)
      && Again(NulFree(m.value), Print(Canonical, m.value, d), Print(Canonical, w.value, d))
    ensures Again(HasNoNul(m.key) && NulFree(m.value), PrintMember(Canonical, m, d), PrintMember(Canonical, w, d))
  {
    hide Quoted, CString, HasNoNul, NulFree, Print, Again;
    StringAgain(m.key);
    AgainSame(Colon(Canonical));
    AgainBoth(true, Colon(Canonical), Colon(Canonical),
      NulFree(m.value), Print(Canonical, m.value, d), Print(Canonical, w.value, d));
    AgainBoth(HasNoNul(m.key), Quoted(Canonical, m.key), Quoted(Canonical, w.key), NulFree(m.value),
      Colon(Canonical) + Print(Canonical, m.value, d), Colon(Canonical) + Print(Canonical, w.value, d));
  }

  // ---- the document ----------------------------------------------------

  /**
   Canonical text is a fixed point: parsing it and printing the result gives the text again,
   exactly when nesting is at most 1000, no string has a NUL, and every number is finite and prints
   the same text again.
   */
  lemma FixedPointIff(v: Value, toDouble: string -> Double)
    ensures var back := ParseDocument(CanonicalText(v), toDouble);
      (back.Some? && CanonicalText(back.value) == CanonicalText(v)) <==>
        Nesting(v) <= NESTING_LIMIT && NulFree(v) && Numbers(v, Stable(toDouble))
  {
    hide Print, ParseDocument, Numbers, NulFree, Nesting, Back, Stable, Again, Readable;
    DocumentBack(Canonical, v, "\n", toDouble);
    AcceptedIff(Canonical, v, 0, toDouble);
    ReadableCanonical(v);
    StableFinite(v, toDouble);
    var back := Back(Canonical, v, 0, toDouble);
    if back.Some? {
      if CanonicalText(back.value) == CanonicalText(v) {
        DocumentBack(Canonical, v, "\n", Names());
        DocumentBack(Canonical, back.value, "\n", Names());
        NumbersStable(v, 0, toDouble);
      }
      if Numbers(v, Stable(toDouble)) {
        PrintsAgain(v, 0, 0, toDouble);
        Newline(NulFree(v), Print(Canonical, v, 0), Print(Canonical, back.value, 0));
      }
    }
  }

  lemma Newline(same: bool, t: string, u: string)
    requires Again(same, t, u)
    ensures u + "\n" == t + "\n" <==> same
  {
    assert |u + "\n"| == |u| + 1;
  }

  lemma StableFinite(v: Value, toDouble: string -> Double)
    ensures Numbers(v, Stable(toDouble)) ==> Numbers(v, FiniteOnly())
  {
    hide Numbers, JsonNumberText;
    NumbersImply(v, Stable(toDouble), FiniteOnly());
  }

  /** Finite numbers that print as integers or outside the gap, and do not slip below a power of ten. */
  ghost function Regular(toDouble: string -> Double): Double -> bool {
    (n: Double) => n.Finite? && var m := toDouble(JsonNumberText(n));
      m.Finite? && (PrintsAsInteger(n) || (!InGap(n) && !Slips(n, m)))
  }

  /** The fixed point, with correctly rounded conversion and the numbers' condition spelled out. */
  lemma CanonicalFixedPoint(v: Value, toDouble: string -> Double)
    requires Correct(toDouble)
    ensures var back := ParseDocument(CanonicalText(v), toDouble);
      (back.Some? && CanonicalText(back.value) == CanonicalText(v)) <==>
        Nesting(v) <= NESTING_LIMIT && NulFree(v) && Numbers(v, Regular(toDouble))
  {
    hide Numbers, NulFree, Nesting, PrintsSame, InGap, Slips, PrintsAsInteger, JsonNumberText, Correct, ParseDocument,
      CanonicalText;
    FixedPointIff(v, toDouble);
    forall n: Double ensures Stable(toDouble)(n) <==> Regular(toDouble)(n) {
      if n.Finite? { PrintsSameIff(n, toDouble); }
    }
    NumbersImply(v, Stable(toDouble), Regular(toDouble));
    NumbersImply(v, Regular(toDouble), Stable(toDouble));
  }

  /** One number from 10^8 on that is not whole is enough to lose it: `1e+08` comes back as `100000000`. */
  lemma FractionChangesText(n: Double, toDouble: string -> Double)
    requires Correct(toDouble) && n.Finite? && !Integral(n) && Size(n) >= 100000000.0
    ensures var back := ParseDocument(CanonicalText(Value.Number(n)), toDouble);
      !(back.Some? && CanonicalText(back.value) == CanonicalText(Value.Number(n)))
  {
    hide PrintsSame, Correct, ParseDocument, CanonicalText, Size, Integral;
    FixedPointIff(Value.Number(n), toDouble);
    FractionDiffers(n, toDouble);
  }
}
