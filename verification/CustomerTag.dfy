/** The customer-tag pass of the redactor: every match of `customer:[A-Za-z0-9.\-_]+` is replaced,
    leftmost first and as long as possible, by `customer:<CUSTOMER>`. */
module CustomerTag {
  const TAG: string := "customer:"
  const MASK: string := "<CUSTOMER>"

  predicate IsTagByte(c: char) {
    'A' <= c <= 'Z' || 'a' <= c <= 'z' || '0' <= c <= '9' || c == '.' || c == '-' || c == '_'
  }

  /** A match begins at the front of `s`. */
  predicate StartsTag(s: string) {
    |s| > |TAG| && s[..|TAG|] == TAG && IsTagByte(s[|TAG|])
  }

  /** Length of the longest front of `s` made of tag bytes. */
  function TagRun(s: string): (n: nat)
    ensures n <= |s|
  {
    if s != "" && IsTagByte(s[0]) then 1 + TagRun(s[1..]) else 0
  }

  /** The value of a match at the front, and the text after it. */
  function TagValue(s: string): string
    requires StartsTag(s)
  {
    s[|TAG|..][..TagRun(s[|TAG|..])]
  }

  function AfterTag(s: string): string
    requires StartsTag(s)
  {
    s[|TAG| + TagRun(s[|TAG|..])..]
  }

  function Mask(s: string): string
    decreases |s|
  {
    if s == "" then ""
    else if StartsTag(s) then TAG + MASK + Mask(AfterTag(s))
    else [s[0]] + Mask(s[1..])
  }

  lemma {:induction false} TagRunIsMaximal(s: string)
    ensures var n := TagRun(s);
            && (forall c :: c in s[..n] ==> IsTagByte(c))
            && (n < |s| ==> !IsTagByte(s[n]))
            && (s != "" && IsTagByte(s[0]) ==> n > 0)
  {
    if s != "" && IsTagByte(s[0]) {
      TagRunIsMaximal(s[1..]);
      assert s[..TagRun(s)] == [s[0]] + s[1..][..TagRun(s[1..])];
    }
  }

  /** A match is "customer:" and the longest run of tag bytes after it. */
  lemma TagParts(s: string)
    requires StartsTag(s)
    ensures s == TAG + TagValue(s) + AfterTag(s)
    ensures TagValue(s) != "" && forall c :: c in TagValue(s) ==> IsTagByte(c)
    ensures AfterTag(s) != "" ==> !IsTagByte(AfterTag(s)[0])
  {
    TagRunIsMaximal(s[|TAG|..]);
    assert s[|TAG|..][0] == s[|TAG|];
    assert s[|TAG|..] == TagValue(s) + AfterTag(s);
  }

  predicate NoMatch(s: string) {
    forall i :: 0 <= i <= |s| ==> !StartsTag(s[i..])
  }

  // ----- Complete -----

  /** As far as the masked text shows no 'c', no match was replaced and the text is the original's. */
  lemma {:induction false} MaskFront(s: string, k: nat)
    requires k < |Mask(s)| && forall j :: 0 <= j < k ==> Mask(s)[j] != 'c'
    ensures k < |s| && s[..k + 1] == Mask(s)[..k + 1]
    decreases |s|
  {
    if StartsTag(s) {
      assert Mask(s)[0] == 'c' == s[0];
    } else if k > 0 {
      var m := Mask(s[1..]);
      assert Mask(s) == [s[0]] + m;
      assert forall j :: 0 <= j < k - 1 ==> m[j] == Mask(s)[j + 1];
      MaskFront(s[1..], k - 1);
      assert s[..k + 1] == [s[0]] + s[1..][..k];
      assert Mask(s)[..k + 1] == [s[0]] + m[..k];
    }
  }

  lemma NoMatchCons(c: char, s: string)
    requires NoMatch(s) && !StartsTag([c] + s)
    ensures NoMatch([c] + s)
  {
    forall i | 0 <= i <= |s| + 1
      ensures !StartsTag(([c] + s)[i..])
    {
      if i == 0 {
        assert ([c] + s)[0..] == [c] + s;
      } else {
        assert ([c] + s)[i..] == s[i - 1..];
      }
    }
  }

  lemma NoMatchAfterMask(s: string)
    requires NoMatch(s)
    ensures NoMatch(TAG + MASK + s)
  {
    var front := TAG + MASK;
    forall i | 0 <= i <= |front + s|
      ensures !StartsTag((front + s)[i..])
    {
      var t := (front + s)[i..];
      if i == 0 {
        assert t[|TAG|] == '<';
      } else if i < |front| {
        assert t[0] == front[i] != 'c';
      } else {
        assert t == s[i - |front|..];
      }
    }
  }

  /** Masking the rest of a text never completes a match that was not there. */
  lemma MaskMakesNoTag(s: string)
    requires s != "" && StartsTag([s[0]] + Mask(s[1..]))
    ensures StartsTag(s)
  {
    var t, m := s[1..], Mask(s[1..]);
    assert forall j :: 0 <= j < |TAG| - 1 ==> m[j] == ([s[0]] + m)[..|TAG|][j + 1] == TAG[j + 1];
    MaskFront(t, |TAG| - 1);
    SameFront(s, m, |TAG|);
  }

  lemma SameFront(s: string, m: string, n: nat)
    requires 0 < n <= |m| && n < |s| && s[1..][..n] == m[..n]
    ensures s[..n] == ([s[0]] + m)[..n] && s[n] == ([s[0]] + m)[n]
  {
  }

  /** Masking leaves no match behind. */
  lemma {:induction false} MaskIsComplete(s: string)
    ensures NoMatch(Mask(s))
    decreases |s|
  {
    if s == "" {
    } else {
      if StartsTag(s) {
        MaskIsComplete(AfterTag(s));
        NoMatchAfterMask(Mask(AfterTag(s)));
      } else {
        var c, m := s[0], Mask(s[1..]);
        MaskIsComplete(s[1..]);
        if StartsTag([c] + m) {
          MaskMakesNoTag(s);
          assert false;
        }
        NoMatchCons(c, m);
      }
    }
  }

  lemma {:induction false} NoMatchUnchanged(s: string)
    requires NoMatch(s)
    ensures Mask(s) == s
    decreases |s|
  {
    if s == "" {
    } else {
      assert s[0..] == s;
      assert forall i :: 0 <= i <= |s[1..]| ==> s[1..][i..] == s[i + 1..];
      NoMatchUnchanged(s[1..]);
    }
  }

  /** Masking twice is masking once, and masking changes exactly the texts that hold a match. */
  lemma MaskIdempotent(s: string)
    ensures Mask(Mask(s)) == Mask(s)
    ensures Mask(s) == s <==> NoMatch(s)
  {
    MaskIsComplete(s);
    NoMatchUnchanged(Mask(s));
    if NoMatch(s) {
      NoMatchUnchanged(s);
    }
  }

  // ----- Local -----

  /** The text cut into bytes that are kept and matched tags. */
  datatype Piece = Kept(c: char) | Tag(value: string)

  function Original(pieces: seq<Piece>): string {
    if pieces == [] then ""
    else (match pieces[0] case Kept(c) => [c] case Tag(v) => TAG + v) + Original(pieces[1..])
  }

  function Masked(pieces: seq<Piece>): string {
    if pieces == [] then ""
    else (match pieces[0] case Kept(c) => [c] case Tag(v) => TAG + MASK) + Masked(pieces[1..])
  }

  /** Each tag has a value of tag bytes only, and what follows it begins with some other byte. */
  ghost predicate TagsAreMaximal(pieces: seq<Piece>) {
    forall i :: 0 <= i < |pieces| && pieces[i].Tag? ==>
      && pieces[i].value != ""
      && (forall c :: c in pieces[i].value ==> IsTagByte(c))
      && (i + 1 < |pieces| && pieces[i + 1].Kept? ==> !IsTagByte(pieces[i + 1].c))
  }

  /** Masking replaces the values of maximal tags and touches no byte outside them. */
  lemma {:induction false} MaskIsLocal(s: string) returns (pieces: seq<Piece>)
    ensures Original(pieces) == s && Masked(pieces) == Mask(s)
    ensures TagsAreMaximal(pieces)
    ensures s != "" ==> pieces != [] && (pieces[0].Tag? <==> StartsTag(s))
    ensures pieces != [] && pieces[0].Kept? ==> s != "" && pieces[0].c == s[0]
    decreases |s|
  {
    if s == "" {
      pieces := [];
    } else if StartsTag(s) {
      TagParts(s);
      var rest := MaskIsLocal(AfterTag(s));
      pieces := [Tag(TagValue(s))] + rest;
      assert pieces[1..] == rest;
    } else {
      var rest := MaskIsLocal(s[1..]);
      pieces := [Kept(s[0])] + rest;
      assert pieces[1..] == rest;
      assert s == [s[0]] + s[1..];
    }
  }
}
