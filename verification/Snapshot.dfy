/** The session snapshot codec over JSON values and through text. */
module Snapshot {
  import opened Wrappers
  import opened Floats
  import opened Order
  import opened Arith
  import opened BigNum
  import Number
  import NumberResults
  import opened JsonNumber
  import opened Json
  import opened JsonPrint
  import opened JsonResults
  import opened Shortest

  // Whether a saved item can be restored, and how whole numbers convert to doubles, are parameters.
  // A repeated key is not rejected: the first one counts.

  type Double = Number.Double

  datatype Mode = OffMode | AlbumMode | TrackMode

  datatype Session = Session(
    items: seq<Value>,
    index: int,
    position: Double,
    volume: Option<Double>,
    mode: Option<Mode>,
    repeat: RepeatMode,
    shuffle: bool,
    crossfade: Double)

  const ZERO: Double := Number.Finite(false, 0, 0)

  /** A double's class and value. */
  ghost function Class(d: Double): F64 {
    match d
    case NaN(_) => F64.NaN
    case Infinite(neg) => if neg then NegInf else PosInf
    case Finite(_, _, _) => Fin(Number.RealValue(d))
  }

  // ---- lookups ---------------------------------------------------------

  /** The first member with a key. */
  function Get(members: seq<Member>, key: string): Option<Value> {
    if members == [] then None
    else if members[0].key == key then Some(members[0].value)
    else Get(members[1..], key)
  }

  lemma {:induction false} GetAppend(a: seq<Member>, b: seq<Member>, key: string)
    ensures Get(a + b, key) == if Get(a, key).Some? then Get(a, key) else Get(b, key)
    decreases |a|
  {
    if a == [] {
      assert a + b == b;
    } else {
      assert (a + b)[1..] == a[1..] + b;
      GetAppend(a[1..], b, key);
    }
  }

  function NumberAt(members: seq<Member>, key: string): Option<Double> {
    var v := Get(members, key);
    if v.Some? && v.value.Number? then Some(v.value.n) else None
  }

  function StringAt(members: seq<Member>, key: string): Option<string> {
    var v := Get(members, key);
    if v.Some? && v.value.String? then Some(v.value.s) else None
  }

  // ---- the codec -------------------------------------------------------

  function ModeText(m: Mode): string {
    match m
    case OffMode => "off"
    case AlbumMode => "album"
    case TrackMode => "track"
  }

  function RepeatText(r: RepeatMode): string {
    match r
    case Off => "off"
    case One => "one"
    case All => "all"
  }

  /** Unknown texts mean no repeat. */
  function ParseRepeat(s: Option<string>): RepeatMode {
    if s == Some("one") then One else if s == Some("all") then All else Off
  }

  function ParseMode(s: Option<string>): Option<Mode> {
    if s == Some("off") then Some(OffMode)
    else if s == Some("album") then Some(AlbumMode)
    else if s == Some("track") then Some(TrackMode)
    else None
  }

  function Optional(key: string, v: Option<Value>): seq<Member> {
    if v.Some? then [Member(key, v.value)] else []
  }

  function VolumeMember(s: Session): seq<Member> {
    Optional("volume", if s.volume.Some? then Some(Value.Number(s.volume.value)) else None)
  }

  function ModeMember(s: Session): seq<Member> {
    Optional("normalizeMode", if s.mode.Some? then Some(Value.String(ModeText(s.mode.value))) else None)
  }

  function Leading(s: Session, ofInt: int -> Double): seq<Member> {
    [Member("v", Value.Number(ofInt(2))), Member("items", Array(s.items)),
      Member("index", Value.Number(ofInt(s.index))),
     Member("positionSeconds", Value.Number(s.position))]
  }

  function Trailing(s: Session): seq<Member> {
    [Member("repeat", Value.String(RepeatText(s.repeat))), Member("shuffle", Value.Bool(s.shuffle)),
     Member("crossfadeSeconds", Value.Number(s.crossfade))]
  }

  function Encoded(s: Session, ofInt: int -> Double): seq<Member> {
    Leading(s, ofInt) + VolumeMember(s) + ModeMember(s) + Trailing(s)
  }

  /** The members, pushed one after another. */
  method EncodeMembers(s: Session, ofInt: int -> Double) returns (members: seq<Member>)
    ensures members == Encoded(s, ofInt)
  {
    members := [
      Member("v", Value.Number(ofInt(2))),
      Member("items", Array(s.items)),
      Member("index", Value.Number(ofInt(s.index))),
      Member("positionSeconds", Value.Number(s.position))];
    if s.volume.Some? {
      members := members + [Member("volume", Value.Number(s.volume.value))];
    }
    if s.mode.Some? {
      members := members + [Member("normalizeMode", Value.String(ModeText(s.mode.value)))];
    }
    ghost var before := members;
    members := members + [Member("repeat", Value.String(RepeatText(s.repeat)))];
    members := members + [Member("shuffle", Value.Bool(s.shuffle))];
    members := members + [Member("crossfadeSeconds", Value.Number(s.crossfade))];
    assert before == Leading(s, ofInt) + VolumeMember(s) + ModeMember(s);
    assert members == before + Trailing(s);
  }

  /** The index in range nearest to the floor of `index`, a NaN counting as zero. */
  function ClampIndex(index: F64, length: nat): (i: int)
    ensures 0 <= i <= MaxInt(length - 1, 0)
    ensures index.Fin? && 0 <= index.r.Floor < length ==> i == index.r.Floor
    ensures index.NaN? || index.NegInf? || (index.Fin? && index.r.Floor < 0) ==> i == 0
    ensures index.PosInf? || (index.Fin? && index.r.Floor >= length > 0) ==> i == MaxInt(length - 1, 0)
  {
    var hi := MaxInt(length - 1, 0);
    match index
    case NaN => 0
    case PosInf => hi
    case NegInf => 0
    case Fin(r) => Min(MaxInt(r.Floor, 0), hi)
  }

  function Restorable(items: seq<Value>, restorable: Value -> bool): (r: seq<Value>)
    ensures |r| <= |items|
    ensures r == items <==> forall k :: 0 <= k < |items| ==> restorable(items[k])
    ensures forall k :: 0 <= k < |r| ==> restorable(r[k])
  {
    if items == [] then [] else
      var rest := Restorable(items[1..], restorable);
      assert items == [items[0]] + items[1..];
      if restorable(items[0]) then [items[0]] + rest else rest
  }

  ghost predicate Version(v: Option<Double>) {
    v.Some? && Class(v.value) in {Fin(1.0), Fin(2.0)}
  }

  ghost predicate Offered(c: Double) {
    Class(c) in {Fin(4.0), Fin(8.0), Fin(12.0)}
  }

  ghost function Decoded(members: seq<Member>, restorable: Value -> bool): Option<Session> {
    var found := Get(members, "items");
    if !Version(NumberAt(members, "v")) || found.None? || !found.value.Array? then None else
      var items := Restorable(found.value.items, restorable);
      if items == [] then None else
        var index := NumberAt(members, "index");
        var position := NumberAt(members, "positionSeconds");
        var crossfade := NumberAt(members, "crossfadeSeconds");
        Some(Session(
          items,
          ClampIndex(if index.Some? then Class(index.value) else Fin(0.0), |items|),
          if position.Some? then position.value else ZERO,
          NumberAt(members, "volume"),
          ParseMode(StringAt(members, "normalizeMode")),
          ParseRepeat(StringAt(members, "repeat")),
          Get(members, "shuffle") == Some(Value.Bool(true)),
          if crossfade.Some? && Offered(crossfade.value) then crossfade.value else ZERO))
  }

  ghost function DecodeValue(v: Value, restorable: Value -> bool): Option<Session> {
    if v.Object? then Decoded(v.members, restorable) else None
  }

  // ---- results ---------------------------------------------------------

  const EXACT: int := 0x20_0000_0000_0000

  predicate I64(i: int) {
    -0x8000_0000_0000_0000 <= i < 0x8000_0000_0000_0000
  }

  /** A 64-bit integer converts exactly up to 2^53 and not below it beyond. */
  ghost predicate Rounds(i: int, d: Double) {
    && Class(d).Fin?
    && (-EXACT <= i <= EXACT ==> Class(d).r == i as real)
    && (i > EXACT ==> EXACT as real <= Class(d).r <= 0x8000_0000_0000_0000 as real)
    && (i < -EXACT ==> -0x8000_0000_0000_0000 as real <= Class(d).r <= -EXACT as real)
  }

  ghost predicate RoundsInts(ofInt: int -> Double) {
    forall i: int :: I64(i) ==> Rounds(i, ofInt(i))
  }

  /** What a session becomes when saved and restored. */
  ghost function Normalized(s: Session, restorable: Value -> bool): Option<Session> {
    var items := Restorable(s.items, restorable);
    if items == [] then None
    else Some(s.(items := items, index := Min(MaxInt(s.index, 0), |items| - 1), crossfade := if Offered(s.crossfade)
      then s.crossfade else ZERO))
  }

  lemma EncodedLookups(s: Session, ofInt: int -> Double)
    ensures var m := Encoded(s, ofInt);
      && NumberAt(m, "v") == Some(ofInt(2)) && Get(m, "items") == Some(Array(s.items))
      && NumberAt(m, "index") == Some(ofInt(s.index)) && NumberAt(m, "positionSeconds") == Some(s.position)
      && NumberAt(m, "volume") == s.volume && ParseMode(StringAt(m, "normalizeMode")) == s.mode
      && ParseRepeat(StringAt(m, "repeat")) == s.repeat && Get(m, "shuffle") == Some(Value.Bool(s.shuffle))
      && NumberAt(m, "crossfadeSeconds") == Some(s.crossfade)
  {
    EncodedGet(s, ofInt, "v");
    EncodedGet(s, ofInt, "items");
    EncodedGet(s, ofInt, "index");
    EncodedGet(s, ofInt, "positionSeconds");
    EncodedGet(s, ofInt, "volume");
    EncodedGet(s, ofInt, "normalizeMode");
    EncodedGet(s, ofInt, "repeat");
    EncodedGet(s, ofInt, "shuffle");
    EncodedGet(s, ofInt, "crossfadeSeconds");
  }

  /** The value written under a key. */
  function Written(s: Session, ofInt: int -> Double, key: string): Option<Value> {
    if key == "v" then Some(Value.Number(ofInt(2)))
    else if key == "items" then Some(Array(s.items))
    else if key == "index" then Some(Value.Number(ofInt(s.index)))
    else if key == "positionSeconds" then Some(Value.Number(s.position))
    else if key == "volume" then if s.volume.Some? then Some(Value.Number(s.volume.value)) else None
    else if key == "normalizeMode" then if s.mode.Some? then Some(Value.String(ModeText(s.mode.value))) else None
    else if key == "repeat" then Some(Value.String(RepeatText(s.repeat)))
    else if key == "shuffle" then Some(Value.Bool(s.shuffle))
    else if key == "crossfadeSeconds" then Some(Value.Number(s.crossfade))
    else None
  }

  lemma EncodedGet(s: Session, ofInt: int -> Double, key: string)
    ensures Get(Encoded(s, ofInt), key) == Written(s, ofInt, key)
  {
    hide Get, ModeText, RepeatText;
    GetAppend(Leading(s, ofInt) + VolumeMember(s) + ModeMember(s), Trailing(s), key);
    GetAppend(Leading(s, ofInt) + VolumeMember(s), ModeMember(s), key);
    GetAppend(Leading(s, ofInt), VolumeMember(s), key);
    LeadingGet(s, ofInt, key);
    OptionalGet("volume", if s.volume.Some? then Some(Value.Number(s.volume.value)) else None, key);
    OptionalGet("normalizeMode", if s.mode.Some? then Some(Value.String(ModeText(s.mode.value))) else None, key);
    TrailingGet(s, key);
  }

  lemma PairGet(a: Member, b: Member, key: string)
    ensures Get([a, b], key) == if a.key == key then Some(a.value) else if b.key == key then Some(b.value) else None
  {
    assert [a, b][1..] == [b];
    OnlyMember(b, key);
  }

  lemma OptionalGet(name: string, v: Option<Value>, key: string)
    ensures Get(Optional(name, v), key) == if key == name then v else None
  {}

  lemma LeadingGet(s: Session, ofInt: int -> Double, key: string)
    ensures Get(Leading(s, ofInt), key) == if key in {"v", "items", "index", "positionSeconds"}
      then Written(s, ofInt, key) else None
  {
    var m := Leading(s, ofInt);
    assert m == m[..2] + m[2..] && m[..2] == [m[0], m[1]] && m[2..] == [m[2], m[3]];
    GetAppend(m[..2], m[2..], key);
    PairGet(m[0], m[1], key);
    PairGet(m[2], m[3], key);
  }

  lemma TrailingGet(s: Session, key: string)
    ensures Get(Trailing(s), key) ==
      if key == "repeat" then Some(Value.String(RepeatText(s.repeat)))
      else if key == "shuffle" then Some(Value.Bool(s.shuffle))
      else if key == "crossfadeSeconds" then Some(Value.Number(s.crossfade))
      else None
  {
    var m := Trailing(s);
    assert m == [m[0], m[1]] + [m[2]];
    GetAppend([m[0], m[1]], [m[2]], key);
    PairGet(m[0], m[1], key);
    OnlyMember(m[2], key);
  }

  /** What is written under each key, and the texts of the modes. */
  lemma SavedTexts(s: Session, ofInt: int -> Double)
    ensures var saved := (key: string) => Get(Encoded(s, ofInt), key);
      && saved("v") == Some(Value.Number(ofInt(2)))
      && saved("items") == Some(Array(s.items))
      && saved("index") == Some(Value.Number(ofInt(s.index)))
      && saved("positionSeconds") == Some(Value.Number(s.position))
      && saved("volume") == (if s.volume.Some? then Some(Value.Number(s.volume.value)) else None)
      && saved("normalizeMode") == (if s.mode.None? then None else Some(Value.String(
          if s.mode.value.OffMode? then "off" else if s.mode.value.AlbumMode? then "album" else "track")))
      && saved("repeat") == Some(Value.String(if s.repeat.Off? then "off" else if s.repeat.One? then "one" else "all"))
      && saved("shuffle") == Some(Value.Bool(s.shuffle))
      && saved("crossfadeSeconds") == Some(Value.Number(s.crossfade))
  {
    hide Encoded, Get;
    EncodedGet(s, ofInt, "v");
    EncodedGet(s, ofInt, "items");
    EncodedGet(s, ofInt, "index");
    EncodedGet(s, ofInt, "positionSeconds");
    EncodedGet(s, ofInt, "volume");
    EncodedGet(s, ofInt, "normalizeMode");
    EncodedGet(s, ofInt, "repeat");
    EncodedGet(s, ofInt, "shuffle");
    EncodedGet(s, ofInt, "crossfadeSeconds");
  }

  /** Decoding an encoded session normalizes it. */
  lemma DecodeEncoded(s: Session, ofInt: int -> Double, restorable: Value -> bool)
    requires RoundsInts(ofInt) && I64(s.index) && |s.items| <= EXACT
    ensures Decoded(Encoded(s, ofInt), restorable) == Normalized(s, restorable)
  {
    hide Encoded, Get, Class, ClampIndex;
    EncodedLookups(s, ofInt);
    assert Rounds(2, ofInt(2)) && Rounds(s.index, ofInt(s.index));
    var items := Restorable(s.items, restorable);
    if items != [] { ClampRounded(s.index, ofInt(s.index), |items|); }
  }

  /** Clamping a converted index clamps the index. */
  lemma ClampRounded(i: int, d: Double, length: nat)
    requires Rounds(i, d) && 1 <= length <= EXACT
    ensures ClampIndex(Class(d), length) == Min(MaxInt(i, 0), length - 1)
  {
    hide Class;
  }

  /**
   A session is its own normal form exactly when its items restore, its index is in range and its
   crossfade is offered.
   */
  lemma NormalIff(s: Session, restorable: Value -> bool)
    ensures Normalized(s, restorable) == Some(s) <==>
      && s.items != [] && (forall k :: 0 <= k < |s.items| ==> restorable(s.items[k]))
      && 0 <= s.index < |s.items| && (Offered(s.crossfade) || s.crossfade == ZERO)
  {
    var items := Restorable(s.items, restorable);
    if items != [] {
      var n := Normalized(s, restorable).value;
      assert n == s <==> n.items == s.items && n.index == s.index && n.crossfade == s.crossfade;
    }
  }

  // ---- through text ----------------------------------------------------

  /** What the encoder writes. */
  ghost function SavedText(s: Session, ofInt: int -> Double, show: Double -> string): string {
    Print(Compact(show), Object(Encoded(s, ofInt)), 0)
  }

  /** What decoding a text gives. */
  ghost function Restored(text: string, restorable: Value -> bool, toDouble: string -> Double): Option<Session> {
    var v := ParseDocument(text, toDouble);
    if v.None? then None else DecodeValue(v.value, restorable)
  }

  /** Every number of the session satisfies `p`. */
  ghost predicate SessionNumbers(s: Session, p: Double -> bool) {
    && p(s.position) && p(s.crossfade) && (s.volume.Some? ==> p(s.volume.value))
    && forall k :: 0 <= k < |s.items| ==> Numbers(s.items[k], p)
  }

  ghost predicate SessionNulFree(s: Session) {
    forall k :: 0 <= k < |s.items| ==> NulFree(s.items[k])
  }

  lemma {:induction false} MembersNestingAppend(a: seq<Member>, b: seq<Member>)
    ensures MembersNesting(a + b) == JsonResults.Max(MembersNesting(a), MembersNesting(b))
    decreases |a|
  {
    hide Nesting;
    if a == [] {
      assert a + b == b;
    } else {
      assert (a + b)[1..] == a[1..] + b;
      MembersNestingAppend(a[1..], b);
    }
  }

  lemma NumbersAppend(a: seq<Member>, b: seq<Member>, p: Double -> bool)
    ensures Numbers(Object(a + b), p) <==> Numbers(Object(a), p) && Numbers(Object(b), p)
    ensures NulFree(Object(a + b)) <==> NulFree(Object(a)) && NulFree(Object(b))
  {
    var ms := a + b;
    assert forall i :: 0 <= i < |a| ==> ms[i] == a[i];
    assert forall i :: 0 <= i < |b| ==> ms[|a| + i] == b[i];
  }

  /** The encoded session nests two deeper than its items. */
  lemma EncodedNesting(s: Session, ofInt: int -> Double)
    ensures Nesting(Object(Encoded(s, ofInt))) == 2 + ItemsNesting(s.items)
  {
    var lead := Leading(s, ofInt);
    MembersNestingAppend(lead + VolumeMember(s) + ModeMember(s), Trailing(s));
    MembersNestingAppend(lead + VolumeMember(s), ModeMember(s));
    MembersNestingAppend(lead, VolumeMember(s));
    LeadingNesting(s, ofInt);
    TrailingNesting(s);
  }

  lemma FlatNesting(m: Member)
    requires !m.value.Array? && !m.value.Object?
    ensures MembersNesting([m]) == 0
  {
    assert [m][1..] == [];
  }

  lemma LeadingNesting(s: Session, ofInt: int -> Double)
    ensures MembersNesting(Leading(s, ofInt)) == 1 + ItemsNesting(s.items)
  {
    var m := Leading(s, ofInt);
    assert m == [m[0]] + [m[1]] + [m[2]] + [m[3]];
    MembersNestingAppend([m[0]] + [m[1]] + [m[2]], [m[3]]);
    MembersNestingAppend([m[0]] + [m[1]], [m[2]]);
    MembersNestingAppend([m[0]], [m[1]]);
    FlatNesting(m[0]);
    FlatNesting(m[2]);
    FlatNesting(m[3]);
    assert [m[1]][1..] == [] && Nesting(m[1].value) == 1 + ItemsNesting(s.items);
  }

  lemma TrailingNesting(s: Session)
    ensures MembersNesting(Trailing(s)) == 0 && MembersNesting(VolumeMember(s)) == 0
      && MembersNesting(ModeMember(s)) == 0
  {
    var m := Trailing(s);
    assert m == [m[0]] + [m[1]] + [m[2]];
    MembersNestingAppend([m[0]] + [m[1]], [m[2]]);
    MembersNestingAppend([m[0]], [m[1]]);
    FlatNesting(m[0]);
    FlatNesting(m[1]);
    FlatNesting(m[2]);
    if s.volume.Some? { FlatNesting(VolumeMember(s)[0]); }
    if s.mode.Some? { FlatNesting(ModeMember(s)[0]); }
  }

  /** The encoded session's numbers are the version, the index and the session's own; its keys and texts have no NUL. */
  lemma EncodedNumbers(s: Session, ofInt: int -> Double, p: Double -> bool)
    ensures Numbers(Object(Encoded(s, ofInt)), p) <==> p(ofInt(2)) && p(ofInt(s.index)) && SessionNumbers(s, p)
    ensures NulFree(Object(Encoded(s, ofInt))) <==> SessionNulFree(s)
  {
    hide Leading, VolumeMember, ModeMember, Trailing;
    var lead := Leading(s, ofInt);
    NumbersAppend(lead + VolumeMember(s) + ModeMember(s), Trailing(s), p);
    NumbersAppend(lead + VolumeMember(s), ModeMember(s), p);
    NumbersAppend(lead, VolumeMember(s), p);
    LeadingNumbers(s, ofInt, p);
    TrailingNumbers(s, p);
    OptionalNumbers(s, p);
  }

  lemma OneNumbers(m: Member, p: Double -> bool)
    ensures Numbers(Object([m]), p) <==> Numbers(m.value, p)
    ensures NulFree(Object([m])) <==> HasNoNul(m.key) && NulFree(m.value)
  {
    assert [m][0] == m;
  }

  lemma LeadingNumbers(s: Session, ofInt: int -> Double, p: Double -> bool)
    ensures Numbers(Object(Leading(s, ofInt)), p) <==>
      p(ofInt(2)) && p(ofInt(s.index)) && p(s.position) && forall k :: 0 <= k < |s.items| ==> Numbers(s.items[k], p)
    ensures NulFree(Object(Leading(s, ofInt))) <==> SessionNulFree(s)
  {
    hide Numbers, NulFree;
    var m := Leading(s, ofInt);
    assert m == [m[0], m[1]] + [m[2], m[3]];
    NumbersAppend([m[0], m[1]], [m[2], m[3]], p);
    TwoNumbers(m[0], m[1], p);
    TwoNumbers(m[2], m[3], p);
    NumberNumbers(ofInt(2), p);
    NumberNumbers(ofInt(s.index), p);
    NumberNumbers(s.position, p);
    ArrayNumbers(s.items, p);
  }

  lemma TwoNumbers(a: Member, b: Member, p: Double -> bool)
    ensures Numbers(Object([a, b]), p) <==> Numbers(a.value, p) && Numbers(b.value, p)
    ensures NulFree(Object([a, b])) <==> HasNoNul(a.key) && NulFree(a.value) && HasNoNul(b.key) && NulFree(b.value)
  {
    assert [a, b] == [a] + [b];
    NumbersAppend([a], [b], p);
    OneNumbers(a, p);
    OneNumbers(b, p);
  }

  lemma NumberNumbers(n: Double, p: Double -> bool)
    ensures Numbers(Value.Number(n), p) == p(n) && NulFree(Value.Number(n))
  {}

  lemma ArrayNumbers(items: seq<Value>, p: Double -> bool)
    ensures Numbers(Array(items), p) <==> forall k :: 0 <= k < |items| ==> Numbers(items[k], p)
    ensures NulFree(Array(items)) <==> forall k :: 0 <= k < |items| ==> NulFree(items[k])
  {}

  lemma TrailingNumbers(s: Session, p: Double -> bool)
    ensures Numbers(Object(Trailing(s)), p) <==> p(s.crossfade)
    ensures NulFree(Object(Trailing(s)))
  {
    hide Numbers, NulFree;
    var m := Trailing(s);
    assert m == [m[0], m[1]] + [m[2]];
    NumbersAppend([m[0], m[1]], [m[2]], p);
    TwoNumbers(m[0], m[1], p);
    OneNumbers(m[2], p);
    NumberNumbers(s.crossfade, p);
    PlainNumbers(Value.String(RepeatText(s.repeat)), p);
    PlainNumbers(Value.Bool(s.shuffle), p);
  }

  lemma PlainNumbers(v: Value, p: Double -> bool)
    requires v.Bool? || (v.String? && HasNoNul(v.s))
    ensures Numbers(v, p) && NulFree(v)
  {}

  lemma OptionalNumbers(s: Session, p: Double -> bool)
    ensures Numbers(Object(VolumeMember(s)), p) <==> (s.volume.Some? ==> p(s.volume.value))
    ensures Numbers(Object(ModeMember(s)), p) && NulFree(Object(VolumeMember(s))) && NulFree(Object(ModeMember(s)))
  {
    if s.volume.Some? { OneNumbers(VolumeMember(s)[0], p); }
    if s.mode.Some? { OneNumbers(ModeMember(s)[0], p); }
  }

  // ---- whole numbers of the snapshot -----------------------------------

  /** The version and the index are read back. */
  lemma IndexModerate(i: int, ofInt: int -> Double)
    requires RoundsInts(ofInt) && I64(i)
    ensures Moderate(ofInt(i))
  {
    hide Moderate, Number.RealValue;
    assert Rounds(i, ofInt(i));
    RealModerate(ofInt(i), Class(ofInt(i)).r);
  }

  lemma RealModerate(d: Double, r: real)
    requires d.Finite? && Number.RealValue(d) == r
    requires r == 0.0 || (r <= -1.0 && r >= -0x8000_0000_0000_0000 as real)
      || (1.0 <= r <= 0x8000_0000_0000_0000 as real)
    ensures Moderate(d)
  {
    hide Ten, Pow, Number.BinaryValue;
    NumberResults.BinarySign(d.M(), d.E2());
    Sizes(1);
    Sizes(0x8000_0000_0000_0000);
    FewDigits();
  }

  lemma FewDigits()
    ensures 0x8000_0000_0000_0000 <= Pow(10, 61)
  {
    hide Pow;
    Billion();
    PowAdd(10, 9, 9);
    PowAdd(10, 18, 9);
    PowExponentMonotone(10, 27, 61);
  }

  // ---- the round trip --------------------------------------------------

  /** A saved session can be read back: its items nest at most 998 deep and no number's text is cut. */
  ghost predicate Legible(s: Session, show: Double -> string) {
    2 + ItemsNesting(s.items) <= NESTING_LIMIT && SessionNumbers(s, Readable(Compact(show)))
  }

  /** And unchanged: no text of its items holds a NUL, and every number is finite. */
  ghost predicate Faithful(s: Session) {
    SessionNulFree(s) && SessionNumbers(s, FiniteOnly())
  }

  /**
   Through text, for every session: what is written is read back exactly when the session is
   legible, and otherwise the decoder gives nothing; a legible session that is faithful comes back
   normalized.
   */
  lemma TextRoundTrip(s: Session, ofInt: int -> Double, restorable: Value -> bool, show: Double -> string,
      toDouble: string -> Double)
    requires RoundsInts(ofInt) && I64(s.index) && |s.items| <= EXACT
    requires ShowsShortest(show) && ReadsOwn(show, toDouble)
    ensures ParseDocument(SavedText(s, ofInt, show), toDouble).Some? <==> Legible(s, show)
    ensures ParseDocument(SavedText(s, ofInt, show), toDouble) == Some(Object(Encoded(s, ofInt))) <==>
      Legible(s, show) && Faithful(s)
    ensures !Legible(s, show) ==> Restored(SavedText(s, ofInt, show), restorable, toDouble) == None
    ensures Legible(s, show) && Faithful(s) ==>
      Restored(SavedText(s, ofInt, show), restorable, toDouble) == Normalized(s, restorable)
  {
    hide Print, ParseDocument, ShowsShortest, ReadsOwn, RoundsInts, Nesting, NulFree, Numbers, Encoded, Decoded,
      SessionNumbers, SessionNulFree, Readable, FiniteOnly, Moderate;
    var v := Object(Encoded(s, ofInt));
    ShortestRoundTrip(v, show, toDouble);
    EncodedNesting(s, ofInt);
    EncodedNumbers(s, ofInt, Readable(Compact(show)));
    EncodedNumbers(s, ofInt, FiniteOnly());
    WholeRead(2, ofInt, show);
    WholeRead(s.index, ofInt, show);
    DecodeEncoded(s, ofInt, restorable);
  }

  lemma WholeRead(i: int, ofInt: int -> Double, show: Double -> string)
    requires RoundsInts(ofInt) && I64(i) && ShowsShortest(show)
    ensures Readable(Compact(show))(ofInt(i)) && FiniteOnly()(ofInt(i))
  {
    hide Readable, Moderate, ShowsShortest, RoundsInts;
    IndexModerate(i, ofInt);
    ModerateReadable(ofInt(i), show);
    ModerateFinite(ofInt(i));
  }

  lemma SessionImply(s: Session, p: Double -> bool, q: Double -> bool)
    requires forall n: Double :: p(n) ==> q(n)
    ensures SessionNumbers(s, p) ==> SessionNumbers(s, q)
  {
    forall k | 0 <= k < |s.items| && Numbers(s.items[k], p)
      ensures Numbers(s.items[k], q) { NumbersImply(s.items[k], p, q); }
  }

  /** A session whose numbers are all moderate is saved and restored. */
  lemma ModerateSessionKept(s: Session, ofInt: int -> Double, restorable: Value -> bool, show: Double -> string,
      toDouble: string -> Double)
    requires RoundsInts(ofInt) && I64(s.index) && |s.items| <= EXACT
    requires ShowsShortest(show) && ReadsOwn(show, toDouble)
    requires 2 + ItemsNesting(s.items) <= NESTING_LIMIT && SessionNulFree(s) && SessionNumbers(s, ModerateOnly())
    ensures Restored(SavedText(s, ofInt, show), restorable, toDouble) == Normalized(s, restorable)
  {
    hide ShowsShortest, ReadsOwn, RoundsInts, SavedText, Restored, Readable, Moderate, SessionNumbers;
    forall n: Double ensures ModerateOnly()(n) ==> Readable(Compact(show))(n) && FiniteOnly()(n) {
      if Moderate(n) { ModerateReadable(n, show); ModerateFinite(n); }
    }
    SessionImply(s, ModerateOnly(), Readable(Compact(show)));
    SessionImply(s, ModerateOnly(), FiniteOnly());
    TextRoundTrip(s, ofInt, restorable, show, toDouble);
  }

  /** A session with an extreme number, in an item or of its own, is written and lost. */
  lemma ExtremeSessionLost(s: Session, ofInt: int -> Double, restorable: Value -> bool, show: Double -> string,
      toDouble: string -> Double)
    requires RoundsInts(ofInt) && I64(s.index) && |s.items| <= EXACT
    requires ShowsShortest(show) && ReadsOwn(show, toDouble)
    requires !SessionNumbers(s, NoneExtreme())
    ensures Restored(SavedText(s, ofInt, show), restorable, toDouble) == None
  {
    hide ShowsShortest, ReadsOwn, RoundsInts, SavedText, Restored, Readable, Extreme, SessionNumbers;
    forall n: Double ensures Readable(Compact(show))(n) ==> NoneExtreme()(n) {
      if Extreme(n) { ExtremeUnreadable(n, show); }
    }
    SessionImply(s, Readable(Compact(show)), NoneExtreme());
    TextRoundTrip(s, ofInt, restorable, show, toDouble);
  }

  /** In particular one with a huge or a tiny volume. */
  lemma HugeVolumeLost(s: Session, n: Double, ofInt: int -> Double, restorable: Value -> bool, show: Double -> string,
      toDouble: string -> Double)
    requires RoundsInts(ofInt) && I64(s.index) && |s.items| <= EXACT
    requires ShowsShortest(show) && ReadsOwn(show, toDouble)
    requires s.volume == Some(n) && Extreme(n)
    ensures Restored(SavedText(s, ofInt, show), restorable, toDouble) == None
  {
    hide ShowsShortest, ReadsOwn, RoundsInts, SavedText, Restored, Extreme;
    assert !NoneExtreme()(n);
    ExtremeSessionLost(s, ofInt, restorable, show, toDouble);
  }

  // ---- repeated keys ---------------------------------------------------

  /** A repeated key changes nothing, wherever it stands: it is neither rejected nor preferred. */
  lemma RepeatedKeyIgnored(a: seq<Member>, repeated: Member, b: seq<Member>, restorable: Value -> bool)
    requires Get(a, repeated.key).Some?
    ensures Decoded(a + [repeated] + b, restorable) == Decoded(a + b, restorable)
  {
    hide Get;
    forall key ensures Get(a + [repeated] + b, key) == Get(a + b, key) {
      GetAppend(a + [repeated], b, key);
      GetAppend(a, [repeated], key);
      GetAppend(a, b, key);
      OnlyMember(repeated, key);
    }
    SameLookups(a + [repeated] + b, a + b, restorable);
  }

  /** Decoding depends only on what is found under the keys. */
  lemma SameLookups(a: seq<Member>, b: seq<Member>, restorable: Value -> bool)
    requires forall key :: Get(a, key) == Get(b, key)
    ensures Decoded(a, restorable) == Decoded(b, restorable)
  {
    hide Get, Restorable, Class, ClampIndex, ParseMode, ParseRepeat, Offered, Version, NumberAt, StringAt;
    SameTyped(a, b, "v");
    SameTyped(a, b, "index");
    SameTyped(a, b, "positionSeconds");
    SameTyped(a, b, "volume");
    SameTyped(a, b, "normalizeMode");
    SameTyped(a, b, "repeat");
    SameTyped(a, b, "crossfadeSeconds");
    assert Get(a, "items") == Get(b, "items") && Get(a, "shuffle") == Get(b, "shuffle");
  }

  lemma SameTyped(a: seq<Member>, b: seq<Member>, key: string)
    requires forall key :: Get(a, key) == Get(b, key)
    ensures NumberAt(a, key) == NumberAt(b, key) && StringAt(a, key) == StringAt(b, key)
  {
    hide Get;
    assert Get(a, key) == Get(b, key);
  }

  /** Members read back one after another. */
  lemma {:induction false} BackAppend(st: Style, a: seq<Member>, b: seq<Member>, depth: nat, toDouble: string -> Double)
    ensures var x, y := BackMembers(st, a, depth, toDouble), BackMembers(st, b, depth, toDouble);
      BackMembers(st, a + b, depth, toDouble) == if x.Some? && y.Some? then Some(x.value + y.value) else None
    decreases |a|
  {
    hide Back;
    var y := BackMembers(st, b, depth, toDouble);
    if a == [] {
      assert a + b == b;
      assert y.Some? ==> [] + y.value == y.value;
    } else {
      assert (a + b)[1..] == a[1..] + b;
      BackAppend(st, a[1..], b, depth, toDouble);
      var v, x := Back(st, a[0].value, depth, toDouble), BackMembers(st, a[1..], depth, toDouble);
      if v.Some? && x.Some? && y.Some? {
        var m := Member(CString(a[0].key), v.value);
        assert [m] + (x.value + y.value) == ([m] + x.value) + y.value;
      }
    }
  }

  /** A key that is found is found after reading back, cut like its own text. */
  lemma {:induction false} FoundBack(st: Style, a: seq<Member>, key: string, depth: nat, toDouble: string -> Double)
    requires Get(a, key).Some? && BackMembers(st, a, depth, toDouble).Some?
    ensures Get(BackMembers(st, a, depth, toDouble).value, CString(key)).Some?
    decreases |a|
  {
    hide Back, CString;
    var v, rest := Back(st, a[0].value, depth, toDouble), BackMembers(st, a[1..], depth, toDouble);
    var m := Member(CString(a[0].key), v.value);
    if a[0].key != key { FoundBack(st, a[1..], key, depth, toDouble); }
    GetAppend([m], rest.value, CString(key));
    OnlyMember(m, CString(key));
  }

  lemma ReadMember(st: Style, m: Member, depth: nat, toDouble: string -> Double)
    requires Back(st, m.value, depth, toDouble).Some?
    ensures BackMembers(st, [m], depth, toDouble)
      == Some([Member(CString(m.key), Back(st, m.value, depth, toDouble).value)])
  {
    hide Back;
    assert [m][1..] == [];
    assert [Member(CString(m.key), Back(st, m.value, depth, toDouble).value)] + []
      == [Member(CString(m.key), Back(st, m.value, depth, toDouble).value)];
  }

  /**
   And so through text: the object with a repeated key gives what the object without it gives,
   whenever the repeated value itself can be read.
   */
  lemma RepeatedKeyAccepted(a: seq<Member>, repeated: Member, b: seq<Member>, restorable: Value -> bool,
      show: Double -> string, toDouble: string -> Double)
    requires Get(a, repeated.key).Some? && ShowsNumbers(show)
    requires 1 + Nesting(repeated.value) <= NESTING_LIMIT && Numbers(repeated.value, Readable(Compact(show)))
    ensures Restored(Print(Compact(show), Object(a + [repeated] + b), 0), restorable, toDouble)
      == Restored(Print(Compact(show), Object(a + b), 0), restorable, toDouble)
  {
    hide Print, ParseDocument, ShowsNumbers, Nesting, Numbers, Decoded, Readable, CString, BackMembers;
    var st := Compact(show);
    var p, q := Object(a + [repeated] + b), Object(a + b);
    DocumentBack(st, p, "", toDouble);
    DocumentBack(st, q, "", toDouble);
    assert Print(st, p, 0) + "" == Print(st, p, 0) && Print(st, q, 0) + "" == Print(st, q, 0);
    AcceptedIff(st, repeated.value, 1, toDouble);
    ReadMember(st, repeated, 1, toDouble);
    BackAppend(st, a + [repeated], b, 1, toDouble);
    BackAppend(st, a, [repeated], 1, toDouble);
    BackAppend(st, a, b, 1, toDouble);
    var x, y := BackMembers(st, a, 1, toDouble), BackMembers(st, b, 1, toDouble);
    if x.Some? && y.Some? {
      FoundBack(st, a, repeated.key, 1, toDouble);
      var r := Member(CString(repeated.key), Back(st, repeated.value, 1, toDouble).value);
      RepeatedKeyIgnored(x.value, r, y.value, restorable);
    }
  }

  lemma OnlyMember(m: Member, key: string)
    ensures Get([m], key) == if m.key == key then Some(m.value) else None
  {}
}
