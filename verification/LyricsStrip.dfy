/** Exactly when removing word tags a second time changes nothing. */
module LyricsStrip {
  import opened Wrappers
  import opened LyricsText
  import opened Lyrics
  import opened LyricsResults

  // ---- tags at the front of a text -------------------------------------

  /** Read after a `<`, the text closes a tag: it has a `>`, and what precedes it has a timestamp's shape. */
  predicate Closes(u: string) {
    '>' in u && TimestampShaped(u[..Find(u, '>').value])
  }

  predicate StartsTag(t: string) {
    t != "" && t[0] == '<' && Closes(t[1..])
  }

  /** What follows a leading tag. */
  function AfterTag(t: string): (r: string)
    requires StartsTag(t)
    ensures |r| + 2 <= |t| && r == t[|t| - |r|..]
  {
    t[Find(t[1..], '>').value + 2..]
  }

  /** Some `<` is the start of a tag. */
  predicate HasTag(t: string) {
    t != "" && (StartsTag(t) || HasTag(t[1..]))
  }

  // ---- stripping, one character at a time ------------------------------

  lemma FindAfterBracket(rest: string)
    ensures '>' in rest ==> Find("<" + rest, '>') == Some(Find(rest, '>').value + 1)
    ensures '>' !in rest ==> Find("<" + rest, '>').None?
  {
    assert ("<" + rest)[1..] == rest;
  }

  /** Where the first `<` is, cutting either removes a tag or keeps the bracket. */
  lemma CutHere(t: string)
    requires t != "" && t[0] == '<'
    ensures CutFirst(t) == if StartsTag(t) then Cut("", AfterTag(t), true) else Cut("<", t[1..], false)
  {
    hide TimestampShaped;
    var rest := t[1..];
    assert t == "<" + rest && t[0..] == t && t[..0] == "";
    FindAfterBracket(rest);
    assert "" + "<" == "<";
    if '>' in rest {
      var close := Find(rest, '>').value;
      assert t[1..close + 1] == rest[..close];
    }
  }

  /** A character other than `<` is kept. */
  lemma CutLater(t: string)
    requires t != "" && t[0] != '<' && '<' in t
    ensures '<' in t[1..]
    ensures var c := CutFirst(t[1..]); CutFirst(t) == Cut([t[0]] + c.kept, c.rest, c.tag)
  {
    hide TimestampShaped;
    var rest := t[1..];
    assert t == [t[0]] + rest;
    var open := Find(rest, '<').value;
    assert Find(t, '<') == Some(open + 1);
    assert t[..open + 1] == [t[0]] + rest[..open] && t[open + 1..] == rest[open..];
    assert [t[0]] + rest[..open] + "<" == [t[0]] + (rest[..open] + "<");
  }

  lemma StripEmpty()
    ensures StripTags("") == Reduced("", false)
  {}

  /** The loop's result, read from the left one character or one tag at a time. */
  lemma StripStep(t: string)
    requires t != ""
    ensures StripTags(t) ==
      if StartsTag(t) then Reduced(StripTags(AfterTag(t)).text, true)
      else Reduced([t[0]] + StripTags(t[1..]).text, StripTags(t[1..]).stripped)
  {
    hide *;
    if t[0] == '<' {
      StripBracket(t);
    } else {
      NoBracketTag(t);
      if '<' in t { StripLater(t); } else { StripPlain(t); }
    }
  }

  lemma NoBracketTag(t: string)
    requires t != "" && t[0] != '<'
    ensures !StartsTag(t)
  {}

  lemma StripCut(t: string)
    requires '<' in t
    ensures var c := CutFirst(t);
      StripTags(t) == Reduced(c.kept + StripTags(c.rest).text, c.tag || StripTags(c.rest).stripped)
  {}

  lemma StripBracket(t: string)
    requires t != "" && t[0] == '<'
    ensures StripTags(t) ==
      if StartsTag(t) then Reduced(StripTags(AfterTag(t)).text, true)
      else Reduced([t[0]] + StripTags(t[1..]).text, StripTags(t[1..]).stripped)
  {
    hide *;
    CutHere(t);
    StripCut(t);
    if StartsTag(t) { assert "" + StripTags(AfterTag(t)).text == StripTags(AfterTag(t)).text; }
  }

  lemma StripLater(t: string)
    requires t != "" && t[0] != '<' && '<' in t
    ensures StripTags(t) == Reduced([t[0]] + StripTags(t[1..]).text, StripTags(t[1..]).stripped)
  {
    hide *;
    CutLater(t);
    StripCut(t);
    StripCut(t[1..]);
    var c := CutFirst(t[1..]);
    assert [t[0]] + c.kept + StripTags(c.rest).text == [t[0]] + (c.kept + StripTags(c.rest).text);
  }

  lemma StripPlain(t: string)
    requires t != "" && '<' !in t
    ensures StripTags(t) == Reduced([t[0]] + StripTags(t[1..]).text, StripTags(t[1..]).stripped)
  {
    assert t == [t[0]] + t[1..];
    assert '<' !in t[1..];
  }

  /** Something is removed exactly when some `<` starts a tag. */
  lemma {:induction false} StripsIff(t: string)
    ensures StripTags(t).stripped <==> HasTag(t)
    ensures StripTags(t).text == t <==> !HasTag(t)
    ensures |StripTags(t).text| <= |t|
    decreases |t|
  {
    hide StripTags, StartsTag, AfterTag;
    if t == "" {
      StripEmpty();
    } else {
      StripStep(t);
      if StartsTag(t) {
        StripsIff(AfterTag(t));
      } else {
        StripsIff(t[1..]);
        assert t == [t[0]] + t[1..];
        assert ([t[0]] + StripTags(t[1..]).text)[1..] == StripTags(t[1..]).text;
      }
    }
  }

  // ---- what is kept up to a closing bracket ----------------------------

  lemma {:induction false} NoTagWithoutClose(u: string)
    requires '>' !in u
    ensures !HasTag(u)
    decreases |u|
  {
    if u != "" { NoTagWithoutClose(u[1..]); }
  }

  lemma FirstClose(c: string, rest: string)
    requires '>' !in c
    ensures Find(c + ">" + rest, '>') == Some(|c|) && '>' in c + ">" + rest && (c + ">" + rest)[..|c|] == c
  {
    FindAfter(c, '>', rest);
    assert c + ['>'] + rest == c + ">" + rest;
  }

  /** Text without a colon, up to a `>`, has no tag to remove. */
  lemma {:induction false} KeptUpTo(c: string, rest: string)
    requires '>' !in c && ':' !in c
    ensures StripTags(c + ">" + rest).text == c + ">" + StripTags(rest).text
    decreases |c|
  {
    hide StripTags;
    var u := c + ">" + rest;
    if c == "" {
      assert u[1..] == rest && !StartsTag(u);
      StripStep(u);
      assert "" + ">" + StripTags(rest).text == [u[0]] + StripTags(rest).text;
    } else {
      var d := c[1..];
      assert u[1..] == d + ">" + rest && u[0] == c[0];
      FirstClose(d, rest);
      assert !StartsTag(u);
      StripStep(u);
      KeptUpTo(d, rest);
      assert c == [c[0]] + d;
      assert [c[0]] + (d + ">" + StripTags(rest).text) == c + ">" + StripTags(rest).text;
    }
  }

  /** Text that neither starts a tag nor closes one still does not after stripping. */
  lemma StillOpen(u: string)
    requires !Closes(u) && !StartsTag(u)
    ensures !Closes(StripTags(u).text)
  {
    hide StripTags;
    if u == "" {
      StripEmpty();
    } else if '>' !in u {
      NoTagWithoutClose(u);
      StripsIff(u);
    } else {
      StripStep(u);
      var close := Find(u, '>').value;
      var c, rest := u[..close], u[close + 1..];
      assert u == c + ">" + rest;
      if ':' in c {
        NotTimed(c);
        FirstKept(u, c, StripTags(u[1..]).text);
      } else {
        KeptUpTo(c, rest);
        FirstClose(c, StripTags(rest).text);
      }
    }
  }

  lemma NotTimed(c: string)
    requires !TimestampShaped(c) && ':' in c
    ensures c != "" && !Digit(c[0]) && c[0] != '+' && c[0] != '-'
  {}

  lemma FirstKept(u: string, c: string, more: string)
    requires c != "" && c <= u && !Digit(c[0]) && c[0] != '+' && c[0] != '-'
    ensures !Closes([u[0]] + more)
  {
    var t := [u[0]] + more;
    assert t[0] == c[0];
    assert '>' in t ==> t[..Find(t, '>').value] == "" || t[..Find(t, '>').value][0] == t[0];
  }

  // ---- the second pass -------------------------------------------------

  /** A timestamp starts with a digit or a sign. */
  predicate Leads(c: char) {
    Digit(c) || c == '+' || c == '-'
  }

  /**
   Reading on and skipping tags: the next character leads a timestamp unless one has been read
   (`first` is over), and a colon comes before the first `>` that is no tag's.
   */
  predicate TagAcross(t: string, first: bool, colon: bool)
    decreases |t|
  {
    if t == "" then false
    else if StartsTag(t) then TagAcross(AfterTag(t), first, colon)
    else if first then Leads(t[0]) && TagAcross(t[1..], false, false)
    else if t[0] == '>' then colon
    else TagAcross(t[1..], false, colon || t[0] == ':')
  }

  /** The same of a text without tags. */
  predicate ClosesAfter(u: string, first: bool, colon: bool) {
    if first then Closes(u) else '>' in u && (colon || ':' in u[..Find(u, '>').value])
  }

  lemma ClosesStep(u: string, first: bool, colon: bool)
    requires u != ""
    ensures ClosesAfter(u, first, colon) <==>
      if first then Leads(u[0]) && ClosesAfter(u[1..], false, false)
      else if u[0] == '>' then colon
      else ClosesAfter(u[1..], false, colon || u[0] == ':')
  {
    var v := u[1..];
    assert u == [u[0]] + v;
    if u[0] == '>' {
      assert u[..0] == "";
    } else if '>' in v {
      var k := Find(v, '>').value;
      assert Find(u, '>') == Some(k + 1) && u[..k + 1] == [u[0]] + v[..k];
    }
  }

  lemma NothingCloses(first: bool, colon: bool)
    ensures !ClosesAfter("", first, colon)
  {}

  /** Skipping tags reads what stripping keeps. */
  lemma {:induction false} AcrossIsStripped(t: string, first: bool, colon: bool)
    ensures TagAcross(t, first, colon) <==> ClosesAfter(StripTags(t).text, first, colon)
    decreases |t|
  {
    hide StripTags, StartsTag, AfterTag, ClosesAfter, Leads;
    if t == "" {
      StripEmpty();
      NothingCloses(first, colon);
    } else {
      StripStep(t);
      if StartsTag(t) {
        AcrossIsStripped(AfterTag(t), first, colon);
      } else {
        var more := StripTags(t[1..]).text;
        assert ([t[0]] + more)[0] == t[0] && ([t[0]] + more)[1..] == more;
        ClosesStep([t[0]] + more, first, colon);
        if first { AcrossIsStripped(t[1..], false, false); }
        else { AcrossIsStripped(t[1..], false, colon || t[0] == ':'); }
      }
    }
  }

  /** Some `<` that is no tag's comes directly before a tag, and what follows, tags skipped, closes it. */
  predicate Exposes(t: string)
    decreases |t|
  {
    if t == "" then false
    else if StartsTag(t) then Exposes(AfterTag(t))
    else (t[0] == '<' && StartsTag(t[1..]) && TagAcross(t[1..], true, false)) || Exposes(t[1..])
  }

  lemma {:induction false} TagsLeftIff(t: string)
    ensures HasTag(StripTags(t).text) <==> Exposes(t)
    decreases |t|
  {
    hide StripTags, Closes, AfterTag, TagAcross;
    if t == "" {
      StripEmpty();
    } else {
      StripStep(t);
      if StartsTag(t) {
        TagsLeftIff(AfterTag(t));
      } else {
        var more := StripTags(t[1..]).text;
        TagsLeftIff(t[1..]);
        AcrossIsStripped(t[1..], true, false);
        assert ([t[0]] + more)[1..] == more;
        if t[0] == '<' && !StartsTag(t[1..]) { StillOpen(t[1..]); }
      }
    }
  }

  /** A second pass changes nothing, and reports nothing, exactly when the first exposes no tag. */
  lemma StripTwiceIff(t: string)
    ensures var once := StripTags(t).text;
      && (StripTags(once).text == once <==> !Exposes(t))
      && (StripTags(once).stripped <==> Exposes(t))
  {
    hide StripTags, HasTag, Exposes;
    TagsLeftIff(t);
    StripsIff(StripTags(t).text);
  }

  /** No `<<` comes before a digit or a sign. */
  predicate Quiet(t: string) {
    forall i :: 0 <= i && i + 2 < |t| && t[i] == '<' && t[i + 1] == '<' ==>
      !Digit(t[i + 2]) && t[i + 2] != '+' && t[i + 2] != '-'
  }

  lemma {:induction false} NothingExposed(t: string)
    requires Quiet(t)
    ensures !Exposes(t)
    decreases |t|
  {
    hide StripTags, Closes, AfterTag, TagAcross;
    if t != "" {
      if StartsTag(t) {
        var rest := AfterTag(t);
        SuffixQuiet(t, |t| - |rest|);
        NothingExposed(rest);
      } else {
        SuffixQuiet(t, 1);
        NothingExposed(t[1..]);
        if StartsTag(t[1..]) { TagStart(t[1..]); }
      }
    }
  }

  lemma TagStart(t: string)
    requires StartsTag(t)
    ensures |t| >= 2 && (Digit(t[1]) || t[1] == '+' || t[1] == '-')
  {
    var u := t[1..];
    assert u[..Find(u, '>').value][0] == t[1];
  }

  lemma SuffixQuiet(t: string, n: nat)
    requires n <= |t| && Quiet(t)
    ensures Quiet(t[n..])
  {
    var u := t[n..];
    forall i | 0 <= i && i + 2 < |u| && u[i] == '<' && u[i + 1] == '<'
      ensures !Digit(u[i + 2]) && u[i + 2] != '+' && u[i + 2] != '-' {
      assert u[i] == t[i + n];
    }
  }

  /** A test on the raw text under which once is enough. */
  lemma StripOnceEnough(t: string)
    requires Quiet(t)
    ensures StripTags(StripTags(t).text).text == StripTags(t).text
  {
    hide StripTags, Exposes;
    NothingExposed(t);
    StripTwiceIff(t);
  }
}
