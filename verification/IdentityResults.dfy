/** Which facts a key's preimage determines, and which reorderings leave it alone. */
module IdentityResults {
  import opened Wrappers
  import opened Sorting
  import opened Identity

  // ---- the order on artists --------------------------------------------

  lemma {:induction false} LexTotal(a: Bytes, b: Bytes)
    ensures LexLe(a, b) || LexLe(b, a)
    ensures LexLe(a, b) && LexLe(b, a) ==> a == b
    ensures LexLe(a, a)
    decreases |a|
  {
    if a != [] {
      LexTotal(a[1..], a[1..]);
      if b != [] {
        LexTotal(a[1..], b[1..]);
        assert a == [a[0]] + a[1..] && b == [b[0]] + b[1..];
      }
    }
  }

  lemma {:induction false} LexTransitive(a: Bytes, b: Bytes, c: Bytes)
    requires LexLe(a, b) && LexLe(b, c)
    ensures LexLe(a, c)
    decreases |a|
  {
    if a != [] && a[0] == b[0] && b[0] == c[0] { LexTransitive(a[1..], b[1..], c[1..]); }
  }

  lemma ArtistTransitive(a: Artist, b: Artist, c: Artist)
    requires ArtistLe(a, b) && ArtistLe(b, c)
    ensures ArtistLe(a, c)
  {
    hide LexLe;
    LexTotal(a.name, b.name);
    if a.name == b.name && b.name == c.name {
      LexTransitive(RoleBytes(a), RoleBytes(b), RoleBytes(c));
    } else if a.name != b.name && b.name != c.name {
      LexTransitive(a.name, b.name, c.name);
    }
  }

  lemma ArtistOrder()
    ensures TotalPreorder(ArtistLe)
  {
    hide LexLe, ArtistLe;
    forall a, b ensures ArtistLe(a, b) || ArtistLe(b, a) { ArtistComparable(a, b); }
    forall a, b, c | ArtistLe(a, b) && ArtistLe(b, c) ensures ArtistLe(a, c) { ArtistTransitive(a, b, c); }
  }

  lemma ArtistComparable(a: Artist, b: Artist)
    ensures ArtistLe(a, b) || ArtistLe(b, a)
  {
    LexTotal(a.name, b.name);
    LexTotal(RoleBytes(a), RoleBytes(b));
  }

  /** Artists compare equal exactly when names agree and roles agree up to absent against empty. */
  lemma EquivalentArtists(a: Artist, b: Artist)
    ensures Equivalent(a, b, ArtistLe) <==> a.name == b.name && RoleBytes(a) == RoleBytes(b)
  {
    LexTotal(a.name, b.name);
    LexTotal(b.name, a.name);
    LexTotal(RoleBytes(a), RoleBytes(b));
  }

  // ---- what a preimage determines --------------------------------------

  /** Optional values with consecutive tags are determined by their fields, whatever follows with later tags. */
  lemma {:induction false} PresentInjective(tag: nat, a: seq<Option<Bytes>>, b: seq<Option<Bytes>>, restA: seq<Field>,
      restB: seq<Field>)
    requires |a| == |b| && tag + |a| <= 256
    requires (restA != [] ==> restA[0].tag >= tag + |a|) && (restB != [] ==> restB[0].tag >= tag + |a|)
    requires Present(tag, a) + restA == Present(tag, b) + restB
    ensures a == b && restA == restB
    decreases |a|
  {
    hide Present, Head;
    if a == [] {
      NothingPresent(tag, restA);
      NothingPresent(tag, restB);
    } else {
      var ta, tb := Present(tag + 1, a[1..]) + restA, Present(tag + 1, b[1..]) + restB;
      PresentHead(tag, a, restA);
      PresentHead(tag, b, restB);
      LaterTags(tag + 1, a[1..], restA);
      LaterTags(tag + 1, b[1..], restB);
      SameHead(tag, a[0], b[0], ta, tb);
      PresentInjective(tag + 1, a[1..], b[1..], restA, restB);
      SameParts(a, b);
    }
  }

  lemma SameParts<T>(a: seq<T>, b: seq<T>)
    requires a != [] && b != [] && a[0] == b[0] && a[1..] == b[1..]
    ensures a == b
  {
    assert a == [a[0]] + a[1..] && b == [b[0]] + b[1..];
  }

  lemma NothingPresent(tag: nat, rest: seq<Field>)
    requires tag <= 256
    ensures Present(tag, []) + rest == rest
  {}

  function Head(tag: byte, v: Option<Bytes>): seq<Field> {
    if v.Some? then [Field(tag, v.value)] else []
  }

  lemma PresentHead(tag: nat, a: seq<Option<Bytes>>, rest: seq<Field>)
    requires a != [] && tag + |a| <= 256
    ensures Present(tag, a) + rest == Head(tag, a[0]) + (Present(tag + 1, a[1..]) + rest)
  {}

  lemma {:induction false} LaterTags(tag: nat, a: seq<Option<Bytes>>, rest: seq<Field>)
    requires tag + |a| <= 256 && (rest != [] ==> rest[0].tag >= tag + |a|)
    ensures var all := Present(tag, a) + rest; all != [] ==> all[0].tag >= tag
    decreases |a|
  {
    if a == [] {
      assert [] + rest == rest;
    } else {
      PresentHead(tag, a, rest);
      LaterTags(tag + 1, a[1..], rest);
    }
  }

  /** An optional field ahead of a tail with another tag is read off the front. */
  lemma HeadRead(tag: byte, x: Option<Bytes>, tail: seq<Field>)
    requires tail != [] ==> tail[0].tag != tag
    ensures var all := Head(tag, x) + tail;
      if all != [] && all[0].tag == tag then x == Some(all[0].value) && tail == all[1..] else x == None && tail == all
  {
    if x.Some? {
      assert (Head(tag, x) + tail)[0] == Field(tag, x.value);
    } else {
      assert Head(tag, x) + tail == tail;
    }
  }

  lemma SameHead(tag: byte, x: Option<Bytes>, y: Option<Bytes>, ta: seq<Field>, tb: seq<Field>)
    requires Head(tag, x) + ta == Head(tag, y) + tb
    requires (ta != [] ==> ta[0].tag != tag) && (tb != [] ==> tb[0].tag != tag)
    ensures x == y && ta == tb
  {
    HeadRead(tag, x, ta);
    HeadRead(tag, y, tb);
  }

  lemma {:induction false} ArtistFieldsInjective(a: seq<Artist>, b: seq<Artist>)
    requires ArtistFields(a) == ArtistFields(b)
    ensures a == b
    decreases |a|
  {
    if a != [] && b != [] {
      var fa, fb := ArtistFields(a), ArtistFields(b);
      ArtistTail(a);
      ArtistTail(b);
      FirstIsName(a[1..]);
      FirstIsName(b[1..]);
      SameHead(5, a[0].role, b[0].role, ArtistFields(a[1..]), ArtistFields(b[1..]));
      ArtistFieldsInjective(a[1..], b[1..]);
      assert a == [a[0]] + a[1..] && b == [b[0]] + b[1..];
    }
  }

  lemma ArtistTail(a: seq<Artist>)
    requires a != []
    ensures ArtistFields(a) != [] && ArtistFields(a)[0] == Field(4, a[0].name)
    ensures ArtistFields(a)[1..] == Head(5, a[0].role) + ArtistFields(a[1..])
  {}

  lemma FirstIsName(a: seq<Artist>)
    ensures ArtistFields(a) != [] ==> ArtistFields(a)[0].tag == 4
  {}

  /** Group preimages agree exactly when title, date, type and sorted artists do. */
  lemma GroupDetermined(g: Group, h: Group)
    requires Short(GroupFields(g)) && Short(GroupFields(h))
    ensures Encode(GroupFields(g)) == Encode(GroupFields(h)) <==>
      g.title == h.title && g.date == h.date && g.kind == h.kind
        && SortBy(g.artists, ArtistLe) == SortBy(h.artists, ArtistLe)
  {
    hide SortBy, ArtistFields, Present, Encode, Short;
    if Encode(GroupFields(g)) == Encode(GroupFields(h)) {
      EncodeInjective(GroupFields(g), GroupFields(h));
      var ag, ah := SortBy(g.artists, ArtistLe), SortBy(h.artists, ArtistLe);
      GroupSplit(g);
      GroupSplit(h);
      FirstIsName(ag);
      FirstIsName(ah);
      PresentInjective(2, [g.date, g.kind], [h.date, h.kind], ArtistFields(ag), ArtistFields(ah));
      assert [g.date, g.kind][0] == [h.date, h.kind][0] && [g.date, g.kind][1] == [h.date, h.kind][1];
      ArtistFieldsInjective(ag, ah);
    }
  }

  lemma GroupSplit(g: Group)
    ensures GroupFields(g) != [] && GroupFields(g)[0] == Field(1, g.title)
    ensures GroupFields(g)[1..] == Present(2, [g.date, g.kind]) + ArtistFields(SortBy(g.artists, ArtistLe))
  {
    hide SortBy, ArtistFields, Present;
  }

  /** Release preimages agree exactly when all six values do; absent and empty differ. */
  lemma ReleaseDetermined(r: Release, q: Release)
    requires Short(Present(6, ReleaseValues(r))) && Short(Present(6, ReleaseValues(q)))
    ensures Encode(Present(6, ReleaseValues(r))) == Encode(Present(6, ReleaseValues(q))) <==>
      ReleaseValues(r) == ReleaseValues(q)
  {
    hide Present, Encode, Short, ReleaseValues;
    if Encode(Present(6, ReleaseValues(r))) == Encode(Present(6, ReleaseValues(q))) {
      EncodeInjective(Present(6, ReleaseValues(r)), Present(6, ReleaseValues(q)));
      PresentInjective(6, ReleaseValues(r), ReleaseValues(q), [], []);
    }
  }

  // ---- reordering artists ----------------------------------------------

  /** Some name occurs both without a role and with an empty one. */
  predicate Clash(artists: seq<Artist>) {
    exists i, j :: 0 <= i < |artists| && 0 <= j < |artists| && Clashing(artists[i], artists[j])
  }

  predicate Clashing(x: Artist, y: Artist) {
    x.name == y.name && x.role == None && y.role == Some([])
  }

  lemma NoClashAntisymmetric(artists: seq<Artist>)
    requires !Clash(artists)
    ensures Antisymmetric(artists, ArtistLe)
  {
    forall x, y | x in artists && y in artists && Equivalent(x, y, ArtistLe) ensures x == y {
      EquivalentArtists(x, y);
      var i :| 0 <= i < |artists| && artists[i] == x;
      var j :| 0 <= j < |artists| && artists[j] == y;
      assert !Clashing(artists[i], artists[j]) && !Clashing(artists[j], artists[i]);
    }
  }

  lemma NoClashInvariant(a: seq<Artist>, b: seq<Artist>)
    requires !Clash(a) && multiset(a) == multiset(b)
    ensures SortBy(a, ArtistLe) == SortBy(b, ArtistLe)
  {
    hide SortBy, ArtistLe, Antisymmetric, Clash;
    ArtistOrder();
    SortSorts(a, ArtistLe);
    SortSorts(b, ArtistLe);
    SortPermutes(a, ArtistLe);
    SortPermutes(b, ArtistLe);
    NoClashAntisymmetric(a);
    AntisymmetricSame(a, SortBy(a, ArtistLe));
    SortedUnique(SortBy(a, ArtistLe), SortBy(b, ArtistLe), ArtistLe);
  }

  lemma AntisymmetricSame(a: seq<Artist>, b: seq<Artist>)
    requires Antisymmetric(a, ArtistLe) && multiset(a) == multiset(b)
    ensures Antisymmetric(b, ArtistLe)
  {
    hide ArtistLe;
    forall x | x in b ensures x in a { assert x in multiset(b); }
  }

  /** The members equivalent to `x`: element `i`, when it is one, comes after those before it. */
  lemma {:induction false} AlikeAt(s: seq<Artist>, i: nat, x: Artist)
    requires i < |s| && Equivalent(x, s[i], ArtistLe)
    ensures |Alike(s[..i], x, ArtistLe)| < |Alike(s, x, ArtistLe)|
    ensures Alike(s, x, ArtistLe)[|Alike(s[..i], x, ArtistLe)|] == s[i]
    decreases |s|
  {
    hide ArtistLe, Alike;
    var init, last := s[..|s| - 1], s[|s| - 1];
    assert s == init + [last];
    AlikeSnoc(init, last, x, ArtistLe);
    if i < |s| - 1 {
      assert init[..i] == s[..i];
      AlikeAt(init, i, x);
    } else {
      assert s[..i] == init;
    }
  }

  /** Swapping a clashing pair changes the sorted list. */
  lemma SwapChanges(a: seq<Artist>, i: nat, j: nat)
    requires i < |a| && j < |a| && Clashing(a[i], a[j])
    ensures var b := a[i := a[j]][j := a[i]];
      multiset(b) == multiset(a) && SortBy(b, ArtistLe) != SortBy(a, ArtistLe)
  {
    hide SortBy, ArtistLe, Alike;
    var b := a[i := a[j]][j := a[i]];
    var first := if i < j then i else j;
    var x := a[first];
    ArtistOrder();
    EquivalentArtists(x, a[first]);
    EquivalentArtists(x, b[first]);
    AlikeAt(a, first, x);
    AlikeAt(b, first, x);
    assert a[..first] == b[..first];
    SortIsStable(a, x, ArtistLe);
    SortIsStable(b, x, ArtistLe);
  }

  /** Every reordering of the artists keeps the sorted list exactly when no name clashes. */
  lemma ReorderingIff(artists: seq<Artist>)
    ensures (forall b: seq<Artist> :: multiset(b) == multiset(artists) ==>
      SortBy(b, ArtistLe) == SortBy(artists, ArtistLe)) <==> !Clash(artists)
  {
    hide SortBy, ArtistLe;
    if Clash(artists) {
      var i, j :| 0 <= i < |artists| && 0 <= j < |artists| && Clashing(artists[i], artists[j]);
      SwapChanges(artists, i, j);
      var b := artists[i := artists[j]][j := artists[i]];
      assert multiset(b) == multiset(artists);
    } else {
      forall b: seq<Artist> | multiset(b) == multiset(artists)
        ensures SortBy(b, ArtistLe) == SortBy(artists, ArtistLe) {
        NoClashInvariant(artists, b);
      }
    }
  }

  // ---- the order -------------------------------------------------------

  /** At the first `k` bytes alike, `a` ends or has the smaller byte. */
  ghost predicate LessAt(a: Bytes, b: Bytes, k: nat) {
    k <= |a| && k <= |b| && a[..k] == b[..k] && (k == |a| || (k < |b| && a[k] < b[k]))
  }

  /** Byte order: by the first difference, a prefix first. */
  lemma {:induction false} LexLeIff(a: Bytes, b: Bytes)
    ensures LexLe(a, b) <==> exists k: nat :: LessAt(a, b, k)
    decreases |a|
  {
    if a == [] {
      assert LessAt(a, b, 0);
    } else if b != [] {
      LexLeIff(a[1..], b[1..]);
      if LexLe(a, b) {
        if a[0] < b[0] {
          assert LessAt(a, b, 0);
        } else {
          var k: nat :| LessAt(a[1..], b[1..], k);
          LessFurther(a, b, k);
        }
      }
      if k: nat :| LessAt(a, b, k) { if k > 0 { LessBack(a, b, k); } }
    }
  }

  lemma LessFurther(a: Bytes, b: Bytes, k: nat)
    requires a != [] && b != [] && a[0] == b[0] && LessAt(a[1..], b[1..], k)
    ensures LessAt(a, b, k + 1)
  {
    assert a[..k + 1] == [a[0]] + a[1..][..k] && b[..k + 1] == [b[0]] + b[1..][..k];
  }

  lemma LessBack(a: Bytes, b: Bytes, k: nat)
    requires k > 0 && LessAt(a, b, k)
    ensures b != [] && a != [] && a[0] == b[0] && LessAt(a[1..], b[1..], k - 1)
  {
    assert a[..k][0] == b[..k][0];
    assert a[1..][..k - 1] == a[..k][1..] && b[1..][..k - 1] == b[..k][1..];
  }
}
