/** Round trips of the two printers through the parser, with their exact conditions. */
module JsonResults {
  import opened Wrappers
  import opened Arith
  import opened BigNum
  import opened Number
  import opened NumberText
  import opened JsonNumber
  import opened Json
  import opened JsonPrint
  import NumberResults

  // ---- what decides whether a value survives ---------------------------

  /** How deeply containers nest. */
  function Nesting(v: Value): nat
    decreases v, 0
  {
    match v
    case Array(items) => 1 + ItemsNesting(items)
    case Object(members) => 1 + MembersNesting(members)
    case _ => 0
  }

  function Max(a: nat, b: nat): nat {
    if a < b then b else a
  }

  function ItemsNesting(items: seq<Value>): nat
    decreases items, 0
  {
    if items == [] then 0 else Max(Nesting(items[0]), ItemsNesting(items[1..]))
  }

  function MembersNesting(members: seq<Member>): nat
    decreases members, 0
  {
    if members == [] then 0 else Max(Nesting(members[0].value), MembersNesting(members[1..]))
  }

  ghost predicate HasNoNul(s: string) {
    forall i :: 0 <= i < |s| ==> s[i] != 0 as char
  }

  /** No string and no key contains a NUL. */
  ghost predicate NulFree(v: Value)
    decreases v
  {
    match v
    case String(s) => HasNoNul(s)
    case Array(items) => forall i :: 0 <= i < |items| ==> NulFree(items[i])
    case Object(members) => forall i :: 0 <= i < |members| ==> HasNoNul(members[i].key) && NulFree(members[i].value)
    case _ => true
  }

  /** Every number satisfies `p`. */
  ghost predicate Numbers(v: Value, p: Double -> bool)
    decreases v
  {
    match v
    case Number(n) => p(n)
    case Array(items) => forall i :: 0 <= i < |items| ==> Numbers(items[i], p)
    case Object(members) => forall i :: 0 <= i < |members| ==> Numbers(members[i].value, p)
    case _ => true
  }

  ghost function FiniteOnly(): Double -> bool {
    (n: Double) => n.Finite?
  }

  /** Numbers the parser reads back: those whose text is not cut, and in compact style the rest as null. */
  ghost function Readable(st: Style): Double -> bool {
    (n: Double) => if n.Finite? then |NumberOut(st, n)| <= TOKEN_LIMIT else st.Compact?
  }

  /** The same bits. */
  ghost function Identical(): (Double, Double) -> bool {
    (a: Double, b: Double) => a == b
  }

  /** Equal as numbers: the zeros are, a NaN is equal to nothing. */
  ghost function NumericallyEqual(): (Double, Double) -> bool {
    (a: Double, b: Double) =>
      if a.Finite? then b.Finite? && RealValue(a) == RealValue(b) else a.Infinite? && b.Infinite? && a.neg == b.neg
  }

  /** Equal values, their numbers compared by `eq`. */
  ghost predicate Matches(v: Value, w: Value, eq: (Double, Double) -> bool)
    decreases w
  {
    match w
    case Number(n) => v.Number? && eq(v.n, n)
    case Array(items) =>
      v.Array? && |v.items| == |items| && forall i :: 0 <= i < |items| ==> Matches(v.items[i], items[i], eq)
    case Object(members) =>
      v.Object? && |v.members| == |members| && forall i :: 0 <= i < |members| ==>
        SameMember(v.members[i], members[i], eq)
    case _ => v == w
  }

  ghost predicate SameMember(a: Member, b: Member, eq: (Double, Double) -> bool)
    decreases b
  {
    a.key == b.key && Matches(a.value, b.value, eq)
  }

  /** Numbers whose printed text converts back to an equal one. */
  ghost function Survives(st: Style, toDouble: string -> Double, eq: (Double, Double) -> bool): Double -> bool {
    (n: Double) => n.Finite? && eq(toDouble(NumberOut(st, n)), n)
  }

  /** Numbers whose printed text converts back to themselves. */
  ghost function Kept(st: Style, toDouble: string -> Double): Double -> bool {
    Survives(st, toDouble, Identical())
  }

  // ---- acceptance ------------------------------------------------------

  /** The output is accepted exactly when nesting is within the limit and every number is readable. */
  lemma {:induction false} AcceptedIff(st: Style, v: Value, depth: nat, toDouble: string -> Double)
    requires depth <= NESTING_LIMIT
    ensures Back(st, v, depth, toDouble).Some? <==>
      depth + Nesting(v) <= NESTING_LIMIT && Numbers(v, Readable(st))
    decreases v, 0
  {
    match v
    case Array(items) =>
      if depth < NESTING_LIMIT { ItemsAcceptedIff(st, items, depth + 1, toDouble); }
    case Object(members) =>
      if depth < NESTING_LIMIT { MembersAcceptedIff(st, members, depth + 1, toDouble); }
    case _ =>
  }

  lemma {:induction false} ItemsAcceptedIff(st: Style, items: seq<Value>, depth: nat, toDouble: string -> Double)
    requires depth <= NESTING_LIMIT
    ensures BackItems(st, items, depth, toDouble).Some? <==>
      depth + ItemsNesting(items) <= NESTING_LIMIT
      && (forall i :: 0 <= i < |items| ==> Numbers(items[i], Readable(st)))
    decreases items, 0
  {
    if items != [] {
      AcceptedIff(st, items[0], depth, toDouble);
      ItemsAcceptedIff(st, items[1..], depth, toDouble);
      assert forall i :: 1 <= i < |items| ==> items[i] == items[1..][i - 1];
    }
  }

  lemma {:induction false} MembersAcceptedIff(st: Style, members: seq<Member>, depth: nat, toDouble: string -> Double)
    requires depth <= NESTING_LIMIT
    ensures BackMembers(st, members, depth, toDouble).Some? <==>
      depth + MembersNesting(members) <= NESTING_LIMIT
      && (forall i :: 0 <= i < |members| ==> Numbers(members[i].value, Readable(st)))
    decreases members, 0
  {
    if members != [] {
      AcceptedIff(st, members[0].value, depth, toDouble);
      MembersAcceptedIff(st, members[1..], depth, toDouble);
      assert forall i :: 1 <= i < |members| ==> members[i] == members[1..][i - 1];
    }
  }

  lemma CStringKeeps(s: string)
    ensures CString(s) == s <==> HasNoNul(s)
  {
    var i := IndexOf(s, 0 as char);
    if i == |s| { assert s[..i] == s; }
  }

  // ---- identity --------------------------------------------------------

  /** An accepted value comes back equal exactly when it is NUL-free and its numbers survive. */
  lemma {:induction false} UnchangedIff(st: Style, v: Value, depth: nat, toDouble: string -> Double,
      eq: (Double, Double) -> bool)
    requires Back(st, v, depth, toDouble).Some?
    ensures Matches(Back(st, v, depth, toDouble).value, v, eq) <==> NulFree(v) && Numbers(v, Survives(st, toDouble, eq))
    decreases v, 0
  {
    match v
    case String(s) => CStringKeeps(s);
    case Array(items) => ItemsUnchangedIff(st, items, depth + 1, toDouble, eq);
    case Object(members) => MembersUnchangedIff(st, members, depth + 1, toDouble, eq);
    case _ =>
  }

  lemma {:induction false} ItemsUnchangedIff(st: Style, items: seq<Value>, depth: nat, toDouble: string -> Double,
      eq: (Double, Double) -> bool)
    requires BackItems(st, items, depth, toDouble).Some?
    ensures var vs := BackItems(st, items, depth, toDouble).value;
      |vs| == |items| && ((forall i :: 0 <= i < |items| ==> Matches(vs[i], items[i], eq)) <==>
      forall i :: 0 <= i < |items| ==> NulFree(items[i]) && Numbers(items[i], Survives(st, toDouble, eq)))
    decreases items, 0
  {
    if items != [] {
      UnchangedIff(st, items[0], depth, toDouble, eq);
      ItemsUnchangedIff(st, items[1..], depth, toDouble, eq);
      var v, vs := Back(st, items[0], depth, toDouble).value, BackItems(st, items[1..], depth, toDouble).value;
      assert forall i :: 1 <= i < |items| ==> items[i] == items[1..][i - 1] && ([v] + vs)[i] == vs[i - 1];
    }
  }

  lemma {:induction false} MembersUnchangedIff(st: Style, members: seq<Member>, depth: nat, toDouble: string -> Double,
      eq: (Double, Double) -> bool)
    requires BackMembers(st, members, depth, toDouble).Some?
    ensures var ms := BackMembers(st, members, depth, toDouble).value;
      |ms| == |members| && ((forall i :: 0 <= i < |members| ==> SameMember(ms[i], members[i], eq)) <==>
      forall i :: 0 <= i < |members| ==>
        HasNoNul(members[i].key) && NulFree(members[i].value) && Numbers(members[i].value, Survives(st, toDouble, eq)))
    decreases members, 0
  {
    if members != [] {
      UnchangedIff(st, members[0].value, depth, toDouble, eq);
      CStringKeeps(members[0].key);
      MembersUnchangedIff(st, members[1..], depth, toDouble, eq);
      var m := Member(CString(members[0].key), Back(st, members[0].value, depth, toDouble).value);
      var ms := BackMembers(st, members[1..], depth, toDouble).value;
      assert forall i :: 1 <= i < |members| ==> members[i] == members[1..][i - 1] && ([m] + ms)[i] == ms[i - 1];
    }
  }

  /** Equal with identical numbers means the same. */
  lemma {:induction false} IdenticalIsSame(v: Value, w: Value)
    ensures Matches(v, w, Identical()) <==> v == w
    decreases w
  {
    match w
    case Array(items) =>
      if v.Array? && |v.items| == |items| {
        forall i | 0 <= i < |items| ensures Matches(v.items[i], items[i], Identical()) <==> v.items[i] == items[i] {
          IdenticalIsSame(v.items[i], items[i]);
        }
      }
    case Object(members) =>
      if v.Object? && |v.members| == |members| {
        forall i | 0 <= i < |members| ensures SameMember(v.members[i], members[i], Identical()) <==>
          v.members[i] == members[i] {
          IdenticalIsSame(v.members[i].value, members[i].value);
        }
      }
    case _ =>
  }

  // ---- whole documents -------------------------------------------------

  lemma DocumentBack(st: Style, v: Value, post: string, toDouble: string -> Double)
    requires Shows(st) && (post == "" || post == "\n")
    ensures ParseDocument(Print(st, v, 0) + post, toDouble) == Back(st, v, 0, toDouble)
  {
    hide Shows, PValue, Back, Print;
    var s := Print(st, v, 0) + post;
    FirstChar(st, v, 0);
    assert s[0] == Print(st, v, 0)[0];
    assert SkipWs(s) == s;
    ValueBack(st, v, 0, post, 0, toDouble);
    assert SkipWs(post) == "" by { if post == "\n" { assert post[1..] == ""; } }
  }

  /**
   Canonical printing, for every value whatever: the parser accepts the text exactly when nesting
   is at most 1000 and every number is finite, and returns an equal value exactly when in addition
   no string or key holds a NUL and every number's text converts back to an equal number, whether
   numbers are compared by value or by their bits.
   */
  lemma CanonicalRoundTrip(v: Value, toDouble: string -> Double)
    ensures var back := ParseDocument(CanonicalText(v), toDouble);
      && (back.Some? <==> Nesting(v) <= NESTING_LIMIT && Numbers(v, FiniteOnly()))
      && (back == Some(v) <==> Nesting(v) <= NESTING_LIMIT && NulFree(v) && Numbers(v, Kept(Canonical, toDouble)))
      && (back.Some? && Matches(back.value, v, NumericallyEqual()) <==>
        Nesting(v) <= NESTING_LIMIT && NulFree(v) && Numbers(v, Survives(Canonical, toDouble, NumericallyEqual())))
  {
    hide Print, ParseDocument, Numbers, NulFree, Nesting, Matches;
    DocumentBack(Canonical, v, "\n", toDouble);
    AcceptedIff(Canonical, v, 0, toDouble);
    ReadableCanonical(v);
    var back := Back(Canonical, v, 0, toDouble);
    if back.Some? {
      UnchangedIff(Canonical, v, 0, toDouble, Identical());
      UnchangedIff(Canonical, v, 0, toDouble, NumericallyEqual());
      IdenticalIsSame(back.value, v);
    }
    NumbersImply(v, Kept(Canonical, toDouble), FiniteOnly());
    NumbersImply(v, Survives(Canonical, toDouble, NumericallyEqual()), FiniteOnly());
  }

  /** A weaker test of the numbers. */
  lemma {:induction false} NumbersImply(v: Value, p: Double -> bool, q: Double -> bool)
    requires forall n: Double :: p(n) ==> q(n)
    ensures Numbers(v, p) ==> Numbers(v, q)
    decreases v
  {
    match v
    case Array(items) =>
      forall i | 0 <= i < |items| && Numbers(items[i], p) ensures Numbers(items[i], q) { NumbersImply(items[i], p, q); }
    case Object(members) =>
      forall i | 0 <= i < |members| && Numbers(members[i].value, p) ensures Numbers(members[i].value, q) {
        NumbersImply(members[i].value, p, q);
      }
    case _ =>
  }

  /** In canonical style every finite number is short enough. */
  lemma ReadableCanonical(v: Value)
    ensures Numbers(v, Readable(Canonical)) <==> Numbers(v, FiniteOnly())
  {
    forall n: Double ensures Readable(Canonical)(n) <==> FiniteOnly()(n) {
      if n.Finite? { Shown(Canonical, n); }
    }
    NumbersImply(v, Readable(Canonical), FiniteOnly());
    NumbersImply(v, FiniteOnly(), Readable(Canonical));
  }

  /**
   The compact printer likewise, for every value. Its numbers never use an exponent, so a large or
   small one can be longer than the parser reads: the text is accepted exactly when no finite
   number's text is.
   */
  lemma CompactRoundTrip(v: Value, show: Double -> string, toDouble: string -> Double)
    requires ShowsNumbers(show)
    ensures var back := ParseDocument(Print(Compact(show), v, 0), toDouble);
      var accepted := Nesting(v) <= NESTING_LIMIT && Numbers(v, Readable(Compact(show)));
      && (back.Some? <==> accepted)
      && (back == Some(v) <==> accepted && NulFree(v) && Numbers(v, Kept(Compact(show), toDouble)))
      && (back.Some? && Matches(back.value, v, NumericallyEqual()) <==>
        accepted && NulFree(v) && Numbers(v, Survives(Compact(show), toDouble, NumericallyEqual())))
  {
    hide Print, ParseDocument, Numbers, NulFree, Nesting, Matches;
    var st := Compact(show);
    DocumentBack(st, v, "", toDouble);
    assert Print(st, v, 0) + "" == Print(st, v, 0);
    AcceptedIff(st, v, 0, toDouble);
    var back := Back(st, v, 0, toDouble);
    if back.Some? {
      UnchangedIff(st, v, 0, toDouble, Identical());
      UnchangedIff(st, v, 0, toDouble, NumericallyEqual());
      IdenticalIsSame(back.value, v);
    }
  }

  // ---- whole numbers ---------------------------------------------------

  /** The conversion is exact on texts that denote a double's value, the sign read from the text. */
  ghost predicate ConvertsExactly(toDouble: string -> Double) {
    forall t: string, d: Double ::
      d.Finite? && IsNumberText(t) && TextValue(t) == RealValue(d) && (t[0] == '-' <==> d.neg) ==> toDouble(t) == d
  }

  lemma KeptMeans(st: Style, toDouble: string -> Double, n: Double)
    ensures Kept(st, toDouble)(n) <==> n.Finite? && toDouble(NumberOut(st, n)) == n
  {
    assert Identical()(toDouble(NumberOut(st, n)), n) <==> toDouble(NumberOut(st, n)) == n;
  }

  lemma SurvivesMeans(st: Style, toDouble: string -> Double, n: Double)
    requires n.Finite?
    ensures var m := toDouble(NumberOut(st, n));
      Survives(st, toDouble, NumericallyEqual())(n) <==> m.Finite? && RealValue(m) == RealValue(n)
  {
    hide RealValue;
    var m := toDouble(NumberOut(st, n));
    assert NumericallyEqual()(m, n) <==> m.Finite? && RealValue(m) == RealValue(n);
  }

  /** Whole numbers within the integer gate survive canonical printing, all but negative zero with their bits. */
  lemma WholeNumbersKept(n: Double, toDouble: string -> Double)
    requires ConvertsExactly(toDouble) && PrintsAsInteger(n)
    ensures Survives(Canonical, toDouble, NumericallyEqual())(n)
    ensures Kept(Canonical, toDouble)(n) <==> !(n.neg && n.M() == 0)
  {
    hide TextValue, RealValue, IsNumberText, JsonNumberText, Integral, Whole, ConvertsExactly, Kept, Survives;
    KeptMeans(Canonical, toDouble, n);
    SurvivesMeans(Canonical, toDouble, n);
    if n.neg && n.M() == 0 {
      NegativeZero(n);
      WholeConverts(Magnitude(n), toDouble);
    } else {
      WholeConverts(n, toDouble);
    }
  }

  /** The same double without its sign. */
  function Magnitude(n: Double): Double
    requires n.Finite?
  {
    Finite(false, n.rawExp, n.frac)
  }

  lemma WholeConverts(n: Double, toDouble: string -> Double)
    requires ConvertsExactly(toDouble) && PrintsAsInteger(n) && (n.neg ==> n.M() != 0)
    ensures toDouble(JsonNumberText(n)) == n
  {
    hide TextValue, RealValue, IsNumberText, JsonNumberText, PrintsAsInteger, ConvertsExactly;
    WholeSign(n);
    JsonNumberIsToken(n);
    WholeNumberReads(n);
    ExactConversion(JsonNumberText(n), n, toDouble);
  }

  /** Both zeros print as `0`. */
  lemma NegativeZero(n: Double)
    requires PrintsAsInteger(n) && n.neg && n.M() == 0
    ensures var z := Magnitude(n);
      PrintsAsInteger(z) && JsonNumberText(z) == JsonNumberText(n) && RealValue(z) == RealValue(n)
  {
    WholeValue(n);
    NumberResults.BinarySign(n.M(), n.E2());
  }

  lemma ExactConversion(t: string, d: Double, toDouble: string -> Double)
    requires ConvertsExactly(toDouble) && d.Finite? && t != ""
    requires IsNumberText(t) && TextValue(t) == RealValue(d) && (t[0] == '-' <==> d.neg)
    ensures toDouble(t) == d
  {}

  lemma WholeSign(n: Double)
    requires PrintsAsInteger(n) && (n.neg ==> n.M() != 0)
    ensures n.Finite? && JsonNumberText(n) != "" && (JsonNumberText(n)[0] == '-' <==> n.neg)
  {
    IntTextIsNumber(Whole(n));
    if n.neg { NegativeWhole(n); }
  }

  lemma NegativeWhole(n: Double)
    requires PrintsAsInteger(n) && n.M() != 0
    ensures Whole(n) != 0
  {
    WholeValue(n);
    if Whole(n) == 0 {
      NumberResults.BinarySign(n.M(), n.E2());
    }
  }
}
