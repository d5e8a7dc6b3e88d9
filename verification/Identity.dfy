/** Collector identity up to the hash: the tag-length-value encoding of the stable fields. */
module Identity {
  import opened Wrappers
  import opened Sorting

  // The length is 32 bits, so the encoding is uniquely decodable exactly when every field is shorter
  // than 4 GiB. Hashing is not part of the model.

  type byte = x: int | 0 <= x < 256

  type Bytes = seq<byte>

  const U32: nat := 0x1_0000_0000

  // ---- fields ----------------------------------------------------------

  datatype Field = Field(tag: byte, value: Bytes)

  /** A 32-bit number, most significant byte first. */
  function BigEndian(n: nat): (r: Bytes)
    requires n < U32
    ensures |r| == 4
  {
    [n / 256 / 256 / 256, n / 256 / 256 % 256, n / 256 % 256, n % 256]
  }

  function Number(b: Bytes): (n: nat)
    requires |b| == 4
    ensures n < U32
  {
    (b[0] as nat) * 0x100_0000 + (b[1] as nat) * 0x1_0000 + (b[2] as nat) * 256 + b[3] as nat
  }

  lemma BigEndianInverse(n: nat)
    requires n < U32
    ensures Number(BigEndian(n)) == n
  {
    var a, b := n / 256, n / 256 / 256;
    assert n == a * 256 + n % 256 && a == b * 256 + a % 256 && b == b / 256 * 256 + b % 256;
  }

  /** One field: tag, length truncated to 32 bits, bytes. */
  function EncodeField(f: Field): Bytes {
    [f.tag] + BigEndian(|f.value| % U32) + f.value
  }

  /** The bytes of a field, one by one. */
  lemma FieldBytes(f: Field)
    ensures var r, n := EncodeField(f), |f.value|;
      && |r| == n + 5 && r[0] == f.tag && r[5..] == f.value
      && (((r[1] as nat) * 256 + r[2] as nat) * 256 + r[3] as nat) * 256 + r[4] as nat == n % U32
  {
    BigEndianInverse(|f.value| % U32);
    hide BigEndian;
  }

  function Encode(fields: seq<Field>): Bytes {
    if fields == [] then [] else EncodeField(fields[0]) + Encode(fields[1..])
  }

  /** Reads fields until the bytes are used up. */
  function Decode(b: Bytes): Option<seq<Field>>
    decreases |b|
  {
    if b == [] then Some([])
    else if |b| < 5 || Number(b[1..5]) > |b| - 5 then None
    else
      var n := Number(b[1..5]);
      var more := Decode(b[5 + n..]);
      if more.None? then None else Some([Field(b[0], b[5..5 + n])] + more.value)
  }

  /** An absent value emits nothing; an empty one emits a zero length. */
  function EncodeOption(tag: byte, value: Option<Bytes>): Bytes {
    if value.Some? then EncodeField(Field(tag, value.value)) else []
  }

  method AppendField(buf: Bytes, tag: byte, value: Option<Bytes>) returns (r: Bytes)
    ensures r == buf + EncodeOption(tag, value)
  {
    if value.None? {
      assert buf + [] == buf;
      return buf;
    }
    r := buf + [tag];
    r := r + BigEndian(|value.value| % U32);
    r := r + value.value;
    assert r == buf + EncodeField(Field(tag, value.value));
  }

  // ---- unique decoding -------------------------------------------------

  predicate Short(fields: seq<Field>) {
    forall k :: 0 <= k < |fields| ==> |fields[k].value| < U32
  }

  /** The first field read is cut to its length's low 32 bits. */
  lemma DecodeFirst(f: Field, rest: Bytes, n: nat, b: Bytes)
    requires n == |f.value| % U32 && b == EncodeField(f) + rest
    ensures n <= |f.value| && |b| >= 5 + n && b[0] == f.tag && Number(b[1..5]) == n
    ensures b[5..5 + n] == f.value[..n] && b[5 + n..] == f.value[n..] + rest
  {
    hide Number, BigEndian;
    CutShort(|f.value|);
    BigEndianInverse(n);
    assert b == [f.tag] + BigEndian(n) + f.value + rest;
    assert b[1..5] == BigEndian(n);
  }

  lemma CutShort(n: nat)
    ensures 0 <= n % U32 <= n && n % U32 < U32
  {}

  lemma DecodeStep(f: Field, rest: Bytes)
    ensures var n := |f.value| % U32;
      var more := Decode(f.value[n..] + rest);
      Decode(EncodeField(f) + rest) == if more.None? then None else Some([Field(f.tag, f.value[..n])] + more.value)
  {
    hide EncodeField, Number;
    DecodeFirst(f, rest, |f.value| % U32, EncodeField(f) + rest);
  }

  /** Decoding undoes encoding exactly when every value is shorter than 4 GiB. */
  lemma {:induction false} DecodesIff(fields: seq<Field>)
    ensures Decode(Encode(fields)) == Some(fields) <==> Short(fields)
    decreases |fields|
  {
    hide EncodeField, Decode, Short;
    if fields == [] {
      NoFields();
    } else {
      var f, rest := fields[0], Encode(fields[1..]);
      DecodeStep(f, rest);
      DecodesIff(fields[1..]);
      ShortFirst(fields);
      FirstDecoded(f, fields, Decode(f.value[|f.value| % U32..] + rest), rest);
    }
  }

  lemma NoFields()
    ensures Decode(Encode([])) == Some([]) && Short([])
  {}

  /** The first field comes back whole exactly when it is short. */
  lemma FirstDecoded(f: Field, fields: seq<Field>, more: Option<seq<Field>>, rest: Bytes)
    requires fields != [] && f == fields[0] && more == Decode(f.value[|f.value| % U32..] + rest)
    ensures var d := if more.None? then None else Some([Field(f.tag, f.value[..|f.value| % U32])] + more.value);
      d == Some(fields) <==> |f.value| < U32 && Decode(rest) == Some(fields[1..])
  {
    hide Decode;
    var n := |f.value| % U32;
    assert fields == [f] + fields[1..];
    if |f.value| < U32 {
      assert f.value[..n] == f.value && f.value[n..] + rest == rest;
      if more.Some? {
        var d := [f] + more.value;
        assert d[1..] == more.value;
      }
    } else if more.Some? {
      var d := [Field(f.tag, f.value[..n])] + more.value;
      assert |d[0].value| < |f.value|;
    }
  }

  lemma ShortFirst(fields: seq<Field>)
    requires fields != []
    ensures Short(fields) <==> |fields[0].value| < U32 && Short(fields[1..])
  {
    if |fields[0].value| < U32 && Short(fields[1..]) {
      assert forall k :: 0 < k < |fields| ==> fields[k] == fields[1..][k - 1];
    }
  }

  /** Short field lists with the same encoding are the same. */
  lemma EncodeInjective(a: seq<Field>, b: seq<Field>)
    requires Short(a) && Short(b) && Encode(a) == Encode(b)
    ensures a == b
  {
    DecodesIff(a);
    DecodesIff(b);
  }

  function Zeros(n: nat): (z: Bytes)
    ensures |z| == n
  {
    seq(n, _ => 0)
  }

  /** Past 4 GiB distinct fields collide: an overlong value can spell out a second field. */
  lemma TruncationCollides(tag: byte, other: byte)
    ensures var tail := Zeros(U32 - 5);
      var long := [other] + BigEndian(U32 - 5) + tail;
      |long| == U32 && Encode([Field(tag, long)]) == Encode([Field(tag, []), Field(other, tail)])
  {
    hide Zeros, BigEndian;
    Spelled(tag, Field(other, Zeros(U32 - 5)));
  }

  /** A value whose length is a multiple of 4 GiB is written after a zero length, so it can be another field. */
  lemma Spelled(tag: byte, second: Field)
    requires |EncodeField(second)| == U32
    ensures Encode([Field(tag, EncodeField(second))]) == Encode([Field(tag, []), second])
  {
    hide EncodeField;
    var long := EncodeField(second);
    OneField(Field(tag, long));
    OneField(second);
    TwoFields(Field(tag, []), second);
    ZeroLength(tag, long);
  }

  lemma OneField(f: Field)
    ensures Encode([f]) == EncodeField(f)
  {
    assert [f][1..] == [];
  }

  lemma TwoFields(f: Field, g: Field)
    ensures Encode([f, g]) == EncodeField(f) + Encode([g])
  {
    assert [f, g][1..] == [g];
  }

  lemma ZeroLength(tag: byte, value: Bytes)
    requires |value| == U32
    ensures EncodeField(Field(tag, value)) == EncodeField(Field(tag, [])) + value
  {
    hide BigEndian;
    assert [tag] + BigEndian(0) + [] == [tag] + BigEndian(0);
  }

  // ---- identifiers -----------------------------------------------------

  predicate HexDigit(b: byte) {
    48 <= b <= 57 || 65 <= b <= 70 || 97 <= b <= 102
  }

  /** The canonical 8-4-4-4-12 shape. */
  predicate Uuid(s: Bytes) {
    |s| == 36 && forall i :: 0 <= i < 36 ==> if i in {8, 13, 18, 23} then s[i] == 45 else HexDigit(s[i])
  }

  method ValidMbid(s: Bytes) returns (ok: bool)
    ensures ok == Uuid(s)
  {
    if |s| != 36 {
      return false;
    }
    for i := 0 to |s|
      invariant forall k :: 0 <= k < i ==> if k in {8, 13, 18, 23} then s[k] == 45 else HexDigit(s[k])
    {
      var isDash := i == 8 || i == 13 || i == 18 || i == 23;
      if isDash {
        if s[i] != 45 {
          return false;
        }
      } else if !HexDigit(s[i]) {
        return false;
      }
    }
    return true;
  }

  /** A present and canonical identifier anchors the key. */
  function Anchor(id: Option<Bytes>): Option<Bytes> {
    if id.Some? && id.value != [] && Uuid(id.value) then id else None
  }

  // ---- the keys --------------------------------------------------------

  /** An identifier, or the bytes whose hash is the key. */
  datatype Key = Mb(id: Bytes) | Hashed(preimage: Bytes)

  datatype Artist = Artist(name: Bytes, role: Option<Bytes>)

  datatype Group = Group(id: Option<Bytes>, title: Bytes, date: Option<Bytes>, kind: Option<Bytes>,
      artists: seq<Artist>)

  datatype Release = Release(id: Option<Bytes>, edition: Option<Bytes>, date: Option<Bytes>, country: Option<Bytes>,
    recordLabel: Option<Bytes>, catalogue: Option<Bytes>, barcode: Option<Bytes>)

  function ReleaseValues(r: Release): (v: seq<Option<Bytes>>)
    ensures |v| == 6
  {
    [r.edition, r.date, r.country, r.recordLabel, r.catalogue, r.barcode]
  }

  /** Lexicographic order on bytes. */
  predicate LexLe(a: Bytes, b: Bytes) {
    a == [] || (b != [] && (a[0] < b[0] || (a[0] == b[0] && LexLe(a[1..], b[1..]))))
  }

  /** A missing role sorts as an empty one. */
  function RoleBytes(a: Artist): Bytes {
    if a.role.Some? then a.role.value else []
  }

  predicate ArtistLe(a: Artist, b: Artist) {
    if a.name == b.name then LexLe(RoleBytes(a), RoleBytes(b)) else LexLe(a.name, b.name)
  }

  /** The present values, tagged from `tag` on. */
  function Present(tag: nat, values: seq<Option<Bytes>>): seq<Field>
    requires tag + |values| <= 256
    decreases |values|
  {
    if values == [] then [] else
      (if values[0].Some? then [Field(tag, values[0].value)] else []) + Present(tag + 1, values[1..])
  }

  function ArtistFields(artists: seq<Artist>): seq<Field> {
    if artists == [] then [] else
      [Field(4, artists[0].name)] + (if artists[0].role.Some? then [Field(5, artists[0].role.value)] else []) +
      ArtistFields(artists[1..])
  }

  function GroupFields(g: Group): seq<Field> {
    [Field(1, g.title)] + Present(2, [g.date, g.kind]) + ArtistFields(SortBy(g.artists, ArtistLe))
  }

  function GroupKeyOf(g: Group): Key {
    var anchor := Anchor(g.id);
    if anchor.Some? then Mb(anchor.value) else Hashed(Encode(GroupFields(g)))
  }

  function ReleaseKeyOf(r: Release): Key {
    var anchor := Anchor(r.id);
    if anchor.Some? then Mb(anchor.value) else Hashed(Encode(Present(6, ReleaseValues(r))))
  }

  lemma {:induction false} EncodeAppend(a: seq<Field>, b: seq<Field>)
    ensures Encode(a + b) == Encode(a) + Encode(b)
    decreases |a|
  {
    if a == [] {
      assert a + b == b;
    } else {
      assert (a + b)[1..] == a[1..] + b;
      EncodeAppend(a[1..], b);
    }
  }

  /** One value ahead of others. */
  lemma EncodePresent(tag: nat, v: Option<Bytes>, rest: seq<Option<Bytes>>)
    requires tag + |rest| + 1 <= 256
    ensures Encode(Present(tag, [v] + rest)) == EncodeOption(tag, v) + Encode(Present(tag + 1, rest))
  {
    assert ([v] + rest)[1..] == rest;
    var more := Present(tag + 1, rest);
    if v.Some? {
      var f := Field(tag, v.value);
      assert ([f] + more)[1..] == more;
    } else {
      assert [] + more == more && [] + Encode(more) == Encode(more);
    }
  }

  lemma EncodeArtist(a: Artist, rest: seq<Artist>)
    ensures Encode(ArtistFields([a] + rest)) ==
      EncodeOption(4, Some(a.name)) + EncodeOption(5, a.role) + Encode(ArtistFields(rest))
  {
    hide EncodeField;
    assert ([a] + rest)[1..] == rest;
    var name, more := Field(4, a.name), ArtistFields(rest);
    if a.role.Some? {
      var role := Field(5, a.role.value);
      assert [name] + [role] + more == [name] + ([role] + more) && ([name] + ([role] + more))[1..] == [role] + more;
      assert ([role] + more)[1..] == more;
      assert EncodeField(name) + (EncodeField(role) + Encode(more)) ==
        EncodeField(name) + EncodeField(role) + Encode(more);
    } else {
      assert [name] + [] + more == [name] + more && ([name] + more)[1..] == more;
      assert EncodeField(name) + [] + Encode(more) == EncodeField(name) + Encode(more);
    }
  }

  lemma {:induction false} EncodeArtists(a: seq<Artist>, b: seq<Artist>)
    ensures Encode(ArtistFields(a + b)) == Encode(ArtistFields(a)) + Encode(ArtistFields(b))
    decreases |a|
  {
    hide ArtistFields, EncodeOption;
    if a == [] {
      assert a + b == b;
      NoArtists();
    } else {
      assert a == [a[0]] + a[1..] && a + b == [a[0]] + (a[1..] + b);
      EncodeArtist(a[0], a[1..]);
      EncodeArtist(a[0], a[1..] + b);
      EncodeArtists(a[1..], b);
      var head := EncodeOption(4, Some(a[0].name)) + EncodeOption(5, a[0].role);
      assert head + (Encode(ArtistFields(a[1..])) + Encode(ArtistFields(b))) ==
        head + Encode(ArtistFields(a[1..])) + Encode(ArtistFields(b));
    }
  }

  lemma NoArtists()
    ensures Encode(ArtistFields([])) == []
  {}

  /** Appends the artists' fields, sorted. */
  method AppendArtists(buf: Bytes, artists: seq<Artist>) returns (r: Bytes)
    ensures r == buf + Encode(ArtistFields(artists))
  {
    hide ArtistFields, EncodeOption;
    r := buf;
    NoArtists();
    for i := 0 to |artists|
      invariant r == buf + Encode(ArtistFields(artists[..i]))
    {
      var a := artists[i];
      ghost var before := r;
      r := AppendField(r, 4, Some(a.name));
      r := AppendField(r, 5, a.role);
      assert artists[..i + 1] == artists[..i] + [a];
      EncodeArtists(artists[..i], [a]);
      EncodeArtist(a, []);
      assert [a] + [] == [a];
      assert EncodeOption(4, Some(a.name)) + EncodeOption(5, a.role) + [] ==
        EncodeOption(4, Some(a.name)) + EncodeOption(5, a.role);
    }
    assert artists[..|artists|] == artists;
  }

  method GroupKey(g: Group) returns (key: Key)
    ensures key == GroupKeyOf(g)
  {
    hide EncodeOption, ArtistFields, Uuid, SortBy;
    if g.id.Some? && g.id.value != [] {
      var ok := ValidMbid(g.id.value);
      if ok {
        return Mb(g.id.value);
      }
    }
    var buf: Bytes := [];
    buf := AppendField(buf, 1, Some(g.title));
    buf := AppendField(buf, 2, g.date);
    buf := AppendField(buf, 3, g.kind);
    var artists := SortBy(g.artists, ArtistLe);
    buf := AppendArtists(buf, artists);
    GroupParts(g);
    return Hashed(buf);
  }

  lemma GroupParts(g: Group)
    ensures Encode(GroupFields(g)) == [] + EncodeOption(1, Some(g.title)) + EncodeOption(2, g.date) +
      EncodeOption(3, g.kind) +
      Encode(ArtistFields(SortBy(g.artists, ArtistLe)))
  {
    hide ArtistFields, SortBy, Present, EncodeField;
    var tail := ArtistFields(SortBy(g.artists, ArtistLe));
    var title, options := Field(1, g.title), Present(2, [g.date, g.kind]);
    EncodeAppend([title] + options, tail);
    assert ([title] + options)[1..] == options;
    assert [g.date, g.kind] == [g.date] + [g.kind] && [g.kind] == [g.kind] + [];
    EncodePresent(2, g.date, [g.kind]);
    EncodePresent(3, g.kind, []);
    NonePresent(4);
    assert EncodeOption(3, g.kind) + [] == EncodeOption(3, g.kind);
  }

  lemma NonePresent(tag: nat)
    requires tag <= 256
    ensures Encode(Present(tag, [])) == []
  {}

  method ReleaseKey(r: Release) returns (key: Key)
    ensures key == ReleaseKeyOf(r)
  {
    hide EncodeOption, Uuid;
    if r.id.Some? && r.id.value != [] {
      var ok := ValidMbid(r.id.value);
      if ok {
        return Mb(r.id.value);
      }
    }
    var buf: Bytes := [];
    buf := AppendField(buf, 6, r.edition);
    buf := AppendField(buf, 7, r.date);
    buf := AppendField(buf, 8, r.country);
    buf := AppendField(buf, 9, r.recordLabel);
    buf := AppendField(buf, 10, r.catalogue);
    buf := AppendField(buf, 11, r.barcode);
    ReleaseParts(r);
    return Hashed(buf);
  }

  lemma ReleaseParts(r: Release)
    ensures Encode(Present(6, ReleaseValues(r))) ==
      [] + EncodeOption(6, r.edition) + EncodeOption(7, r.date) + EncodeOption(8, r.country) +
      EncodeOption(9, r.recordLabel) + EncodeOption(10, r.catalogue) + EncodeOption(11, r.barcode)
  {
    hide Present, EncodeOption;
    var v := ReleaseValues(r);
    assert v == [v[0]] + v[1..] && v[1..] == [v[1]] + v[2..] && v[2..] == [v[2]] + v[3..];
    assert v[3..] == [v[3]] + v[4..] && v[4..] == [v[4]] + v[5..] && v[5..] == [v[5]] + [];
    EncodePresent(11, v[5], []);
    EncodePresent(10, v[4], v[5..]);
    EncodePresent(9, v[3], v[4..]);
    EncodePresent(8, v[2], v[3..]);
    EncodePresent(7, v[1], v[2..]);
    EncodePresent(6, v[0], v[1..]);
    NonePresent(12);
    Regroup(EncodeOption(6, r.edition), EncodeOption(7, r.date), EncodeOption(8, r.country),
      EncodeOption(9, r.recordLabel), EncodeOption(10, r.catalogue), EncodeOption(11, r.barcode));
  }

  lemma Regroup(a: Bytes, b: Bytes, c: Bytes, d: Bytes, e: Bytes, f: Bytes)
    ensures a + (b + (c + (d + (e + (f + []))))) == [] + a + b + c + d + e + f
  {}
}
