/** When the fallback mode of the redaction walk, which drops every string, is a further cut of the normal one. */
module RedactFallback {
  import opened Options
  import opened Redact
  import opened RedactLaws

  /** Every element is dropped from an array under "tags" by the fallback mode. */
  predicate AllDropped(a: seq<Json>) {
    forall i :: 0 <= i < |a| ==> a[i].Str? || a[i].Num?
  }

  /** Every "tags" entry that is an array, at any depth outside such arrays, holds only strings and numbers. */
  ghost predicate PlainTags(v: Json)
    decreases v, 1
  {
    match v
    case Obj(m) =>
      forall k :: k in m ==> if k == TAGS_KEY && m[k].Arr? then AllDropped(m[k].elems) else PlainTags(m[k])
    case Arr(a) => AllPlain(a)
    case _ => true
  }

  ghost predicate AllPlain(a: seq<Json>)
    decreases a, 0
  {
    a == [] || (PlainTags(a[0]) && AllPlain(a[1..]))
  }

  // ----- Plain tags are enough -----

  lemma {:induction false} NothingIsLeft(a: seq<Json>)
    ensures AllDropped(a) <==> CleanElems(TAGS_KEY, a, true) == []
    decreases |a|
  {
    if a == [] {
    } else {
      NothingIsLeft(a[1..]);
      assert a == [a[0]] + a[1..];
    }
  }

  lemma {:induction false} PlainEmbeds(key: string, v: Json)
    requires PlainTags(v) && CleanValue(key, v, true).Some?
    ensures CleanValue(key, v, false).Some?
    ensures Embeds(CleanValue(key, v, true).value, CleanValue(key, v, false).value)
    decreases v, 1
  {
    match v
    case Obj(m) =>
      var bare, normal := CleanObject(v, true), CleanObject(v, false);
      forall k | k in bare.fields
        ensures k in normal.fields && Embeds(bare.fields[k], normal.fields[k])
      {
        Entry(v, true, k);
        Entry(v, false, k);
        if k == TAGS_KEY && m[k].Arr? {
          NothingIsLeft(m[k].elems);
        } else {
          PlainEmbeds(k, m[k]);
        }
      }
    case Arr(a) => PlainElemsEmbed(key, a);
    case _ =>
  }

  lemma {:induction false} PlainElemsEmbed(key: string, a: seq<Json>)
    requires AllPlain(a)
    ensures EmbedsAll(CleanElems(key, a, true), CleanElems(key, a, false))
    decreases a, 0
  {
    if a == [] {
    } else {
      var small, big := CleanElems(key, a[1..], true), CleanElems(key, a[1..], false);
      PlainElemsEmbed(key, a[1..]);
      if CleanValue(key, a[0], true).Some? {
        PlainEmbeds(key, a[0]);
        assert CleanElems(key, a, true)[1..] == small && CleanElems(key, a, false)[1..] == big;
      } else if CleanValue(key, a[0], false).Some? {
        assert CleanElems(key, a, false)[1..] == big;
      }
    }
  }

  // ----- Plain tags are needed -----

  function NonStrings(a: seq<Json>): nat {
    if a == [] then 0 else (if a[0].Str? then 0 else 1) + NonStrings(a[1..])
  }

  /** Both modes keep the same number of elements that are not strings, and the fallback no others. */
  lemma {:induction false} SameNonStrings(key: string, a: seq<Json>)
    ensures NonStrings(CleanElems(key, a, false)) == NonStrings(CleanElems(key, a, true)) == |CleanElems(key, a, true)|
    decreases |a|
  {
    if a == [] {
    } else {
      SameNonStrings(key, a[1..]);
      var small, big := CleanElems(key, a[1..], true), CleanElems(key, a[1..], false);
      assert forall x :: ([x] + small)[1..] == small && ([x] + big)[1..] == big;
    }
  }

  lemma {:induction false} NonStringsEmbed(small: seq<Json>, big: seq<Json>)
    requires EmbedsAll(small, big) && NonStrings(small) == |small|
    ensures |small| <= NonStrings(big)
    decreases |big|
  {
    NonStringsBound(small);
    if small == [] || big == [] {
    } else {
      NonStringsBound(small[1..]);
      if Embeds(small[0], big[0]) && EmbedsAll(small[1..], big[1..]) {
        NonStringsEmbed(small[1..], big[1..]);
      } else {
        NonStringsEmbed(small, big[1..]);
      }
    }
  }

  lemma {:induction false} NonStringsBound(a: seq<Json>)
    ensures NonStrings(a) <= |a|
  {
    if a == [] {
    } else {
      NonStringsBound(a[1..]);
    }
  }

  /** An element kept by both modes can only lie over itself, or an element would be left over. */
  lemma HeadsAlign(x: Json, small: seq<Json>, y: Json, big: seq<Json>)
    requires EmbedsAll([x] + small, [y] + big) && !x.Str?
    requires NonStrings(big) == NonStrings(small) == |small|
    ensures Embeds(x, y) && EmbedsAll(small, big)
  {
    assert ([x] + small)[1..] == small && ([y] + big)[1..] == big;
    if EmbedsAll([x] + small, big) {
      assert NonStrings([x] + small) == 1 + NonStrings(small);
      NonStringsEmbed([x] + small, big);
    }
  }

  lemma {:induction false} EmbeddingNeedsPlain(key: string, v: Json)
    requires CleanValue(key, v, true).Some? && CleanValue(key, v, false).Some?
    requires Embeds(CleanValue(key, v, true).value, CleanValue(key, v, false).value)
    ensures PlainTags(v)
    decreases v, 1
  {
    match v
    case Obj(m) =>
      forall k | k in m
        ensures if k == TAGS_KEY && m[k].Arr? then AllDropped(m[k].elems) else PlainTags(m[k])
      {
        Entry(v, true, k);
        Entry(v, false, k);
        if k == TAGS_KEY && m[k].Arr? {
          TagsNeedDropped(m[k].elems);
        } else if !Scalar(m[k]) {
          EmbeddingNeedsPlain(k, m[k]);
        }
      }
    case Arr(a) => ElemsNeedPlain(key, a);
    case _ =>
  }

  lemma TagsNeedDropped(a: seq<Json>)
    requires EmbedsAll(CleanElems(TAGS_KEY, a, true), CleanTags(a))
    ensures AllDropped(a)
  {
    SameNonStrings(TAGS_KEY, a);
    NonStringsEmbed(CleanElems(TAGS_KEY, a, true), CleanTags(a));
    TagsAreStrings(a);
    NothingIsLeft(a);
  }

  lemma {:induction false} TagsAreStrings(a: seq<Json>)
    ensures NonStrings(CleanTags(a)) == 0
  {
    if a == [] {
    } else {
      TagsAreStrings(a[1..]);
      assert ([a[0]] + CleanTags(a[1..]))[1..] == CleanTags(a[1..]);
    }
  }

  lemma {:induction false} ElemsNeedPlain(key: string, a: seq<Json>)
    requires EmbedsAll(CleanElems(key, a, true), CleanElems(key, a, false))
    ensures AllPlain(a)
    decreases a, 0
  {
    if a == [] {
    } else {
      var t, f := CleanValue(key, a[0], true), CleanValue(key, a[0], false);
      var small, big := CleanElems(key, a[1..], true), CleanElems(key, a[1..], false);
      SameNonStrings(key, a[1..]);
      if t.Some? {
        HeadsAlign(t.value, small, f.value, big);
        EmbeddingNeedsPlain(key, a[0]);
      } else if f.Some? {
        SkipString(small, a[0], big);
      }
      ElemsNeedPlain(key, a[1..]);
    }
  }

  lemma SkipString(small: seq<Json>, s: Json, big: seq<Json>)
    requires EmbedsAll(small, [s] + big) && s.Str? && NonStrings(small) == |small|
    ensures EmbedsAll(small, big)
  {
    assert ([s] + big)[1..] == big;
    if small == [] {
    } else {
      NonStringsBound(small[1..]);
      assert !Embeds(small[0], s);
    }
  }

  // ----- Whole bodies -----

  /** The fallback only removes more than the normal mode does if and only if the body's tags are plain. */
  lemma FallbackIsSmallerIff(v: Json)
    requires v.Obj?
    ensures Embeds(CleanObject(v, true), CleanObject(v, false)) <==> PlainTags(v)
  {
    if PlainTags(v) {
      PlainEmbeds("", v);
    }
    if Embeds(CleanObject(v, true), CleanObject(v, false)) {
      EmbeddingNeedsPlain("", v);
    }
  }

  /** And some bodies' are not: a boolean under "tags" stays in the fallback, and the tag filter removes it. */
  lemma FallbackIsNotSmaller()
    ensures var body := Obj(map["tags" := Arr([Bool(true)])]);
            !Embeds(CleanObject(body, true), CleanObject(body, false))
  {
    var body := Obj(map["tags" := Arr([Bool(true)])]);
    assert body.fields["tags"].elems[0] == Bool(true);
    FallbackIsSmallerIff(body);
  }
}
