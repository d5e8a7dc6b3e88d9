/** Which byte strings are UTF-8: exactly the encodings of scalar values. */
module SourceUtf8 {
  import opened SourceUrl

  predicate Scalar(u: nat) {
    u < 0xD800 || 0xE000 <= u < 0x110000
  }

  /** The encoding of one scalar value, by section 3 of RFC 3629. */
  function Encode(u: nat): Bytes
    requires Scalar(u)
  {
    if u < 0x80 then [u]
    else if u < 0x800 then [0xC0 + u / 0x40, 0x80 + u % 0x40]
    else if u < 0x10000 then [0xE0 + u / 0x1000, 0x80 + u / 0x40 % 0x40, 0x80 + u % 0x40]
    else [0xF0 + u / 0x40000, 0x80 + u / 0x1000 % 0x40, 0x80 + u / 0x40 % 0x40, 0x80 + u % 0x40]
  }

  function EncodeAll(us: seq<nat>): Bytes
    requires forall k :: 0 <= k < |us| ==> Scalar(us[k])
  {
    if us == [] then [] else Encode(us[0]) + EncodeAll(us[1..])
  }

  ghost predicate IsEncoding(s: Bytes) {
    exists us: seq<nat> :: AllScalar(us) && s == EncodeAll(us)
  }

  ghost predicate AllScalar(us: seq<nat>) {
    forall k :: 0 <= k < |us| ==> Scalar(us[k])
  }

  /** An encoding is a well-formed sequence of its length. */
  lemma EncodeWellFormed(u: nat, rest: Bytes)
    requires Scalar(u)
    ensures SequenceLength(Encode(u) + rest) == |Encode(u)| > 0
  {
    var s := Encode(u) + rest;
    assert forall k :: 0 <= k < |Encode(u)| ==> s[k] == Encode(u)[k];
  }

  lemma {:induction false} EncodingsAreUtf8(us: seq<nat>)
    requires AllScalar(us)
    ensures Utf8(EncodeAll(us))
  {
    hide SequenceLength, Encode;
    if us != [] {
      var rest := EncodeAll(us[1..]);
      EncodingsAreUtf8(us[1..]);
      EncodeWellFormed(us[0], rest);
      assert (Encode(us[0]) + rest)[|Encode(us[0])|..] == rest;
    }
  }

  /** A well-formed sequence is the encoding of a scalar value. */
  lemma WellFormedEncodes(s: Bytes) returns (u: nat)
    requires SequenceLength(s) > 0
    ensures Scalar(u) && Encode(u) == s[..SequenceLength(s)]
  {
    var n := SequenceLength(s);
    if n == 1 {
      u := s[0];
    } else if n == 2 {
      u := Two(s[0], s[1]);
    } else if n == 3 {
      u := Three(s[0], s[1], s[2]);
    } else {
      u := Four(s[0], s[1], s[2], s[3]);
    }
  }

  lemma Two(a: byte, b: byte) returns (u: nat)
    requires 0xC2 <= a < 0xE0 && Continuation(b)
    ensures Scalar(u) && Encode(u) == [a, b]
  {
    u := (a - 0xC0) * 0x40 + (b - 0x80);
  }

  lemma Three(a: byte, b: byte, c: byte) returns (u: nat)
    requires 0xE0 <= a < 0xF0 && Continuation(b) && Continuation(c)
    requires (a == 0xE0 ==> b >= 0xA0) && (a == 0xED ==> b < 0xA0)
    ensures Scalar(u) && Encode(u) == [a, b, c]
  {
    u := ((a - 0xE0) * 0x40 + (b - 0x80)) * 0x40 + (c - 0x80);
    assert u / 0x40 == (a - 0xE0) * 0x40 + (b - 0x80);
    assert u / 0x1000 == u / 0x40 / 0x40;
  }

  lemma Four(a: byte, b: byte, c: byte, d: byte) returns (u: nat)
    requires 0xF0 <= a < 0xF5 && Continuation(b) && Continuation(c) && Continuation(d)
    requires (a == 0xF0 ==> b >= 0x90) && (a == 0xF4 ==> b < 0x90)
    ensures Scalar(u) && Encode(u) == [a, b, c, d]
  {
    u := (((a - 0xF0) * 0x40 + (b - 0x80)) * 0x40 + (c - 0x80)) * 0x40 + (d - 0x80);
    var v := u / 0x40;
    assert v == ((a - 0xF0) * 0x40 + (b - 0x80)) * 0x40 + (c - 0x80);
    assert v / 0x40 == (a - 0xF0) * 0x40 + (b - 0x80);
    assert u / 0x1000 == v / 0x40 && u / 0x40000 == v / 0x40 / 0x40;
  }

  lemma {:induction false} Utf8Encodes(s: Bytes) returns (us: seq<nat>)
    requires Utf8(s)
    ensures AllScalar(us) && EncodeAll(us) == s
    decreases |s|
  {
    hide SequenceLength, Encode;
    if s == [] {
      us := [];
    } else {
      var n := SequenceLength(s);
      var u := WellFormedEncodes(s);
      var more := Utf8Encodes(s[n..]);
      us := [u] + more;
      assert us[1..] == more && s == s[..n] + s[n..];
    }
  }

  /** The check for UTF-8 accepts exactly the encodings of scalar values. */
  lemma Utf8Iff(s: Bytes)
    ensures Utf8(s) <==> IsEncoding(s)
  {
    hide Utf8, EncodeAll;
    if Utf8(s) { var us := Utf8Encodes(s); }
    if us: seq<nat> :| AllScalar(us) && s == EncodeAll(us) { EncodingsAreUtf8(us); }
  }
}
