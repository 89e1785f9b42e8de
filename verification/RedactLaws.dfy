/** What the redaction walk promises on every JSON tree: it denies by default at every depth, only
    removes, loses no safe field, and its two modes are idempotent and commute. */
module RedactLaws {
  import opened Options
  import opened Redact

  // ----- Places in a tree -----

  datatype PathStep = Field(key: string) | Index(i: nat)

  function At(v: Json, path: seq<PathStep>): Option<Json>
    decreases |path|
  {
    if path == [] then Some(v)
    else
      match path[0]
      case Field(k) => if v.Obj? && k in v.fields then At(v.fields[k], path[1..]) else None
      case Index(i) => if v.Arr? && i < |v.elems| then At(v.elems[i], path[1..]) else None
  }

  /** The key of the closest enclosing object entry, when the whole tree stands under `key`. */
  function NearestKey(key: string, path: seq<PathStep>): string
    decreases |path|
  {
    if path == [] then key
    else NearestKey(if path[0].Field? then path[0].key else key, path[1..])
  }

  /** A direct element of an array that is itself the "tags" entry of an object. */
  predicate IsTagElement(path: seq<PathStep>) {
    |path| >= 2 && path[|path| - 1].Index? && path[|path| - 2] == Field(TAGS_KEY)
  }

  lemma FieldCase(key: string, v: Json, drop: bool)
    ensures CleanField(key, v, drop) ==
            if key == TAGS_KEY && !drop && v.Arr? then Some(Arr(CleanTags(v.elems))) else CleanValue(key, v, drop)
  {
  }

  /** The entry of a cleaned object under `k`. */
  lemma Entry(v: Json, drop: bool, k: string)
    requires v.Obj? && k in v.fields
    ensures var w, out := v.fields[k], CleanObject(v, drop).fields;
            var r := if k == TAGS_KEY && !drop && w.Arr? then Some(Arr(CleanTags(w.elems))) else CleanValue(k, w, drop);
            CleanField(k, w, drop) == r && (k in out <==> r.Some?) && (k in out ==> out[k] == r.value)
  {
  }

  lemma {:induction false} TagsAreAllowed(a: seq<Json>)
    ensures forall v :: v in CleanTags(a) ==> v.Str? && HasSafeTagPrefix(v.s)
  {
    if a == [] {
    } else {
      TagsAreAllowed(a[1..]);
    }
  }

  lemma {:induction false} ElemComesFrom(key: string, a: seq<Json>, drop: bool, i: nat) returns (j: nat)
    requires i < |CleanElems(key, a, drop)|
    ensures i <= j < |a| && CleanValue(key, a[j], drop) == Some(CleanElems(key, a, drop)[i])
    decreases |a|
  {
    var head := CleanValue(key, a[0], drop);
    if head.Some? && i == 0 {
      j := 0;
    } else {
      j := ElemComesFrom(key, a[1..], drop, if head.Some? then i - 1 else i);
      j := j + 1;
    }
  }

  // ----- Deny by default -----

  /** A string or number that survives, at any depth, was let through by name: the string by a safe
      nearest key or as an allowlisted element of a tags array, and only when strings are not all
      dropped; the number by account_id. */
  ghost predicate LeafAllowed(key: string, drop: bool, path: seq<PathStep>, leaf: Json) {
    && (leaf.Str? ==> !drop)
    && (leaf.Str? ==> IsSafeStringKey(NearestKey(key, path)) || (IsTagElement(path) && HasSafeTagPrefix(leaf.s)))
    && (leaf.Num? ==> IsSafeNumberKey(NearestKey(key, path)))
  }

  lemma LeafAllowedBelow(key: string, drop: bool, step: PathStep, path: seq<PathStep>, leaf: Json)
    requires LeafAllowed(if step.Field? then step.key else key, drop, path, leaf)
    ensures LeafAllowed(key, drop, [step] + path, leaf)
  {
    assert ([step] + path)[1..] == path;
  }

  lemma {:induction false} DenyByDefault(key: string, v: Json, drop: bool, path: seq<PathStep>)
    requires CleanValue(key, v, drop).Some? && At(CleanValue(key, v, drop).value, path).Some?
    ensures LeafAllowed(key, drop, path, At(CleanValue(key, v, drop).value, path).value)
    decreases |path|
  {
    if path == [] {
    } else {
      var rest := path[1..];
      var leaf := At(CleanValue(key, v, drop).value, path).value;
      assert path == [path[0]] + rest;
      match path[0]
      case Index(i) =>
        var j := ElemComesFrom(key, v.elems, drop, i);
        DenyByDefault(key, v.elems[j], drop, rest);
        LeafAllowedBelow(key, drop, path[0], rest, leaf);
      case Field(k) =>
        var w := v.fields[k];
        Entry(v, drop, k);
        if k == TAGS_KEY && !drop && w.Arr? {
          TagsAreAllowed(w.elems);
          if rest != [] {
            var tag := CleanTags(w.elems)[rest[0].i];
            assert tag in CleanTags(w.elems);
            assert At(tag, rest[1..]) == Some(leaf);
            assert rest[1..] == [];
            assert path == [path[0], rest[0]];
          }
        } else {
          DenyByDefault(k, w, drop, rest);
          LeafAllowedBelow(key, drop, path[0], rest, leaf);
        }
    }
  }

  /** The whole body, which is an object. */
  lemma BodyDeniesByDefault(v: Json, drop: bool, path: seq<PathStep>)
    requires v.Obj? && path != [] && At(CleanObject(v, drop), path).Some?
    ensures LeafAllowed("", drop, path, At(CleanObject(v, drop), path).value)
  {
    DenyByDefault("", v, drop, path);
  }

  // ----- Nothing safe is lost -----

  predicate Scalar(v: Json) {
    !v.Obj? && !v.Arr?
  }

  /** Strings under a safe key (unless all are dropped), numbers under account_id, and every boolean
      and null. */
  predicate KeepsScalar(key: string, v: Json, drop: bool) {
    && (v.Str? ==> !drop && IsSafeStringKey(key))
    && (v.Num? ==> IsSafeNumberKey(key))
  }

  /** May a scalar at this path below `key` stay?  A direct element of a tags array goes by its prefix,
      anything deeper in a tags array is dropped, and all else goes by the nearest key. */
  predicate Passes(key: string, path: seq<PathStep>, leaf: Json, drop: bool)
    decreases |path|
  {
    if path == [] then KeepsScalar(key, leaf, drop)
    else if path[0].Index? then Passes(key, path[1..], leaf, drop)
    else if path[0].key == TAGS_KEY && !drop && |path| >= 2 && path[1].Index? then
      |path| == 2 && leaf.Str? && HasSafeTagPrefix(leaf.s)
    else Passes(path[0].key, path[1..], leaf, drop)
  }

  /** The same keys; array positions may only move to the front. */
  predicate MovedUp(path: seq<PathStep>, moved: seq<PathStep>) {
    && |moved| == |path|
    && forall p :: 0 <= p < |path| ==>
         if path[p].Field? then moved[p] == path[p] else moved[p].Index? && moved[p].i <= path[p].i
  }

  lemma {:induction false} ElemGoesTo(key: string, a: seq<Json>, drop: bool, i: nat) returns (j: nat)
    requires i < |a| && CleanValue(key, a[i], drop).Some?
    ensures j <= i && j < |CleanElems(key, a, drop)| && CleanElems(key, a, drop)[j] == CleanValue(key, a[i], drop).value
    decreases |a|
  {
    if i == 0 {
      j := 0;
    } else {
      j := ElemGoesTo(key, a[1..], drop, i - 1);
      j := if CleanValue(key, a[0], drop).Some? then j + 1 else j;
    }
  }

  lemma {:induction false} TagGoesTo(a: seq<Json>, i: nat) returns (j: nat)
    requires i < |a| && a[i].Str? && HasSafeTagPrefix(a[i].s)
    ensures j <= i && j < |CleanTags(a)| && CleanTags(a)[j] == a[i]
  {
    if i == 0 {
      j := 0;
    } else {
      j := TagGoesTo(a[1..], i - 1);
      j := if a[0].Str? && HasSafeTagPrefix(a[0].s) then j + 1 else j;
    }
  }

  lemma {:induction false} TagComesFrom(a: seq<Json>, i: nat) returns (j: nat)
    requires i < |CleanTags(a)|
    ensures i <= j < |a| && a[j] == CleanTags(a)[i] && a[j].Str? && HasSafeTagPrefix(a[j].s)
  {
    if a[0].Str? && HasSafeTagPrefix(a[0].s) {
      if i == 0 {
        return 0;
      }
      j := TagComesFrom(a[1..], i - 1);
    } else {
      j := TagComesFrom(a[1..], i);
    }
    j := j + 1;
  }

  lemma AtStep(v: Json, step: PathStep, rest: seq<PathStep>)
    ensures At(v, [step] + rest) ==
            match step
            case Field(k) => if v.Obj? && k in v.fields then At(v.fields[k], rest) else None
            case Index(i) => if v.Arr? && i < |v.elems| then At(v.elems[i], rest) else None
  {
    assert ([step] + rest)[1..] == rest;
  }

  lemma MovedUpStep(step: PathStep, moved: PathStep, path: seq<PathStep>, rest: seq<PathStep>)
    requires MovedUp(path, rest)
    requires if step.Field? then moved == step else moved.Index? && moved.i <= step.i
    ensures MovedUp([step] + path, [moved] + rest)
  {
  }

  /** Every scalar that may stay does stay, at any depth, under the same keys. */
  lemma {:induction false} AllowedLeafSurvives(key: string, v: Json, drop: bool, path: seq<PathStep>, leaf: Json)
    returns (moved: seq<PathStep>)
    requires Scalar(leaf) && At(v, path) == Some(leaf) && Passes(key, path, leaf, drop)
    ensures CleanValue(key, v, drop).Some? && MovedUp(path, moved)
    ensures At(CleanValue(key, v, drop).value, moved) == Some(leaf)
    decreases |path|
  {
    if path == [] {
      return [];
    }
    var out := CleanValue(key, v, drop);
    var step, rest := path[0], path[1..];
    assert path == [step] + rest;
    if step.Index? {
      moved := AllowedLeafSurvives(key, v.elems[step.i], drop, rest, leaf);
      var j := ElemGoesTo(key, v.elems, drop, step.i);
      AtStep(out.value, Index(j), moved);
      MovedUpStep(step, Index(j), rest, moved);
      return [Index(j)] + moved;
    }
    var w := v.fields[step.key];
    Entry(v, drop, step.key);
    if step.key == TAGS_KEY && !drop && w.Arr? {
      assert rest == [rest[0]] + [];
      AtStep(w, rest[0], []);
      assert At(w.elems[rest[0].i], []) == Some(leaf);
      var j := TagGoesTo(w.elems, rest[0].i);
      AtStep(Arr(CleanTags(w.elems)), Index(j), []);
      AtStep(out.value, step, [Index(j)]);
      return [step, Index(j)];
    }
    moved := AllowedLeafSurvives(step.key, w, drop, rest, leaf);
    AtStep(out.value, step, moved);
    MovedUpStep(step, step, rest, moved);
    return [step] + moved;
  }

  /** And nothing else does: a scalar in the output was in the input, under the same keys, and may stay. */
  lemma {:induction false} SurvivingLeafWasAllowed(
    key: string, v: Json, drop: bool, moved: seq<PathStep>, leaf: Json)
    returns (path: seq<PathStep>)
    requires Scalar(leaf) && CleanValue(key, v, drop).Some?
    requires At(CleanValue(key, v, drop).value, moved) == Some(leaf)
    ensures At(v, path) == Some(leaf) && Passes(key, path, leaf, drop) && MovedUp(path, moved)
    decreases |moved|
  {
    if moved == [] {
      return [];
    }
    var step, rest := moved[0], moved[1..];
    assert moved == [step] + rest;
    if step.Index? {
      var j := ElemComesFrom(key, v.elems, drop, step.i);
      path := SurvivingLeafWasAllowed(key, v.elems[j], drop, rest, leaf);
      AtStep(v, Index(j), path);
      MovedUpStep(Index(j), step, path, rest);
      assert ([Index(j)] + path)[1..] == path;
      return [Index(j)] + path;
    }
    var w := v.fields[step.key];
    Entry(v, drop, step.key);
    if step.key == TAGS_KEY && !drop && w.Arr? {
      var tag := CleanTags(w.elems)[rest[0].i];
      var j := TagComesFrom(w.elems, rest[0].i);
      assert At(tag, rest[1..]) == Some(leaf);
      assert rest[1..] == [] && rest == [rest[0]];
      AtStep(w, Index(j), []);
      AtStep(v, step, [Index(j)]);
      return [step, Index(j)];
    }
    path := SurvivingLeafWasAllowed(step.key, w, drop, rest, leaf);
    AtStep(v, step, path);
    MovedUpStep(step, step, path, rest);
    assert ([step] + path)[1..] == path;
    return [step] + path;
  }

  // ----- The output embeds in the input -----

  ghost predicate Embeds(small: Json, big: Json)
    decreases big, 1
  {
    match small
    case Obj(m) =>
      big.Obj? && forall k :: k in m ==> k in big.fields && Embeds(m[k], big.fields[k])
    case Arr(a) => big.Arr? && EmbedsAll(a, big.elems)
    case _ => small == big
  }

  /** The elements embed, in order, in a subsequence. */
  ghost predicate EmbedsAll(small: seq<Json>, big: seq<Json>)
    decreases big, 0
  {
    if small == [] then true
    else if big == [] then false
    else (Embeds(small[0], big[0]) && EmbedsAll(small[1..], big[1..])) || EmbedsAll(small, big[1..])
  }

  lemma {:induction false} TagsEmbed(a: seq<Json>)
    ensures EmbedsAll(CleanTags(a), a)
  {
    if a == [] {
    } else {
      TagsEmbed(a[1..]);
      assert CleanTags(a) == CleanTags(a[1..]) || CleanTags(a)[1..] == CleanTags(a[1..]);
    }
  }

  lemma {:induction false} CleanEmbeds(key: string, v: Json, drop: bool)
    ensures CleanValue(key, v, drop).Some? ==> Embeds(CleanValue(key, v, drop).value, v)
    decreases v, 1
  {
    match v
    case Obj(m) =>
      forall k | k in CleanObject(v, drop).fields
        ensures Embeds(CleanObject(v, drop).fields[k], m[k])
      {
        Entry(v, drop, k);
        if k == TAGS_KEY && !drop && m[k].Arr? {
          TagsEmbed(m[k].elems);
        } else {
          CleanEmbeds(k, m[k], drop);
        }
      }
    case Arr(a) => ElemsEmbed(key, a, drop);
    case _ =>
  }

  lemma {:induction false} ElemsEmbed(key: string, a: seq<Json>, drop: bool)
    ensures EmbedsAll(CleanElems(key, a, drop), a)
    decreases a, 0
  {
    if a == [] {
    } else {
      CleanEmbeds(key, a[0], drop);
      ElemsEmbed(key, a[1..], drop);
      var head := CleanValue(key, a[0], drop);
      if head.Some? {
        assert CleanElems(key, a, drop)[1..] == CleanElems(key, a[1..], drop);
      }
    }
  }

  // ----- Idempotence -----

  lemma {:induction false} TagsIdempotent(a: seq<Json>)
    ensures CleanTags(CleanTags(a)) == CleanTags(a)
  {
    if a == [] {
    } else {
      TagsIdempotent(a[1..]);
      assert CleanTags(a) == CleanTags(a[1..]) || CleanTags(a)[1..] == CleanTags(a[1..]);
    }
  }

  lemma {:induction false} CleanIdempotent(key: string, v: Json, drop: bool)
    ensures var r := CleanValue(key, v, drop);
            r.Some? ==> CleanValue(key, r.value, drop) == r
    decreases v, 1
  {
    match v
    case Obj(m) =>
      var once := CleanObject(v, drop);
      forall k | k in once.fields
        ensures CleanField(k, once.fields[k], drop) == Some(once.fields[k])
      {
        Entry(v, drop, k);
        Entry(once, drop, k);
        if k == TAGS_KEY && !drop && m[k].Arr? {
          TagsIdempotent(m[k].elems);
        } else {
          CleanIdempotent(k, m[k], drop);
        }
      }
      assert CleanObject(once, drop).fields == once.fields;
    case Arr(a) => ElemsIdempotent(key, a, drop);
    case _ =>
  }

  lemma {:induction false} ElemsIdempotent(key: string, a: seq<Json>, drop: bool)
    ensures CleanElems(key, CleanElems(key, a, drop), drop) == CleanElems(key, a, drop)
    decreases a, 0
  {
    if a == [] {
    } else {
      CleanIdempotent(key, a[0], drop);
      ElemsIdempotent(key, a[1..], drop);
      var head := CleanValue(key, a[0], drop);
      if head.Some? {
        assert CleanElems(key, a, drop)[1..] == CleanElems(key, a[1..], drop);
      }
    }
  }

  // ----- The two modes commute -----

  /** First one mode, then the other. */
  function Twice(key: string, v: Json, first: bool, second: bool): Option<Json> {
    var r := CleanValue(key, v, first);
    if r.Some? then CleanValue(key, r.value, second) else None
  }

  function TwiceField(key: string, v: Json, first: bool, second: bool): Option<Json> {
    var r := CleanField(key, v, first);
    if r.Some? then CleanField(key, r.value, second) else None
  }

  lemma {:induction false} TagsHaveNoScalarsLeft(a: seq<Json>)
    ensures CleanElems(TAGS_KEY, CleanTags(a), true) == []
    decreases |a|
  {
    if a == [] {
    } else {
      TagsHaveNoScalarsLeft(a[1..]);
      assert CleanTags(a) == CleanTags(a[1..]) || CleanTags(a)[1..] == CleanTags(a[1..]);
    }
  }

  lemma {:induction false} DroppedElemsHoldNoTags(key: string, a: seq<Json>)
    ensures CleanTags(CleanElems(key, a, true)) == []
    decreases |a|
  {
    if a == [] {
    } else {
      DroppedElemsHoldNoTags(key, a[1..]);
      var head := CleanValue(key, a[0], true);
      if head.Some? {
        assert CleanElems(key, a, true)[1..] == CleanElems(key, a[1..], true);
      }
    }
  }

  lemma {:induction false} FieldsOfTwice(v: Json, first: bool, second: bool, k: string)
    requires v.Obj?
    ensures var r := CleanObject(CleanObject(v, first), second).fields;
            && (k in r <==> k in v.fields && TwiceField(k, v.fields[k], first, second).Some?)
            && (k in r ==> Some(r[k]) == TwiceField(k, v.fields[k], first, second))
  {
  }

  lemma {:induction false} ModesCommute(key: string, v: Json)
    ensures Twice(key, v, false, true) == Twice(key, v, true, false)
    decreases v, 1
  {
    match v
    case Obj(m) =>
      var a, b := CleanObject(CleanObject(v, false), true), CleanObject(CleanObject(v, true), false);
      forall k
        ensures k in a.fields <==> k in b.fields
        ensures k in a.fields ==> a.fields[k] == b.fields[k]
      {
        FieldsOfTwice(v, false, true, k);
        FieldsOfTwice(v, true, false, k);
        if k in m {
          FieldModesCommute(k, m[k]);
        }
      }
      assert a.fields == b.fields;
    case Arr(a) => ElemModesCommute(key, a);
    case _ =>
  }

  /** One entry under both modes: a tags array ends up empty, anything else goes by its value. */
  lemma TwiceFieldCase(key: string, v: Json, dropFirst: bool)
    ensures TwiceField(key, v, dropFirst, !dropFirst) ==
            if key == TAGS_KEY && v.Arr? then Some(Arr([])) else Twice(key, v, dropFirst, !dropFirst)
  {
    var r := CleanField(key, v, dropFirst);
    FieldCase(key, v, dropFirst);
    if r.Some? {
      FieldCase(key, r.value, !dropFirst);
    }
    if key == TAGS_KEY && v.Arr? {
      TagsHaveNoScalarsLeft(v.elems);
      DroppedElemsHoldNoTags(key, v.elems);
    }
  }

  lemma {:induction false} FieldModesCommute(key: string, v: Json)
    ensures TwiceField(key, v, false, true) == TwiceField(key, v, true, false)
    decreases v, 2
  {
    TwiceFieldCase(key, v, false);
    TwiceFieldCase(key, v, true);
    ModesCommute(key, v);
  }

  lemma {:induction false} ElemModesCommute(key: string, a: seq<Json>)
    ensures CleanElems(key, CleanElems(key, a, false), true) == CleanElems(key, CleanElems(key, a, true), false)
    decreases a, 0
  {
    if a == [] {
    } else {
      ModesCommute(key, a[0]);
      ElemModesCommute(key, a[1..]);
      TwiceElems(key, a, false, true);
      TwiceElems(key, a, true, false);
    }
  }

  lemma TwiceElems(key: string, a: seq<Json>, first: bool, second: bool)
    requires a != []
    ensures var head := Twice(key, a[0], first, second);
            CleanElems(key, CleanElems(key, a, first), second) ==
            (if head.Some? then [head.value] else []) + CleanElems(key, CleanElems(key, a[1..], first), second)
  {
  }

  /** On whole bodies: the order of the two modes does not matter, repeating one changes nothing. */
  lemma BodyAlgebra(v: Json, drop: bool)
    requires v.Obj?
    ensures CleanObject(CleanObject(v, drop), drop) == CleanObject(v, drop)
    ensures CleanObject(CleanObject(v, false), true) == CleanObject(CleanObject(v, true), false)
    ensures Embeds(CleanObject(v, drop), v)
  {
    CleanIdempotent("", v, drop);
    ModesCommute("", v);
    CleanEmbeds("", v, drop);
  }

  // ----- Both modes together -----

  /** No string anywhere, and every tags array that is a direct object entry is empty. */
  ghost predicate Bare(v: Json)
    decreases v, 1
  {
    match v
    case Str(_) => false
    case Arr(a) => AllBare(a)
    case Obj(m) => forall k :: k in m ==> Bare(m[k]) && (k == TAGS_KEY && m[k].Arr? ==> m[k].elems == [])
    case _ => true
  }

  ghost predicate AllBare(a: seq<Json>)
    decreases a, 0
  {
    a == [] || (Bare(a[0]) && AllBare(a[1..]))
  }

  lemma {:induction false} BothModesAreBare(key: string, v: Json)
    ensures Twice(key, v, true, false).Some? ==> Bare(Twice(key, v, true, false).value)
    decreases v, 1
  {
    match v
    case Obj(m) =>
      var r := CleanObject(CleanObject(v, true), false);
      forall k | k in r.fields
        ensures Bare(r.fields[k]) && (k == TAGS_KEY && r.fields[k].Arr? ==> r.fields[k].elems == [])
      {
        FieldsOfTwice(v, true, false, k);
        TwiceFieldCase(k, m[k], true);
        BothModesAreBare(k, m[k]);
      }
    case Arr(a) =>
      BothModesElemsAreBare(key, a);
      var once := CleanElems(key, a, true);
      var twice := CleanElems(key, once, false);
      assert CleanValue(key, v, true) == Some(Arr(once)) && CleanValue(key, Arr(once), false) == Some(Arr(twice));
      assert Bare(Arr(twice));
    case _ =>
  }

  lemma {:induction false} BothModesElemsAreBare(key: string, a: seq<Json>)
    ensures AllBare(CleanElems(key, CleanElems(key, a, true), false))
    decreases a, 0
  {
    if a == [] {
    } else {
      BothModesAreBare(key, a[0]);
      BothModesElemsAreBare(key, a[1..]);
      TwiceElems(key, a, true, false);
      var rest := CleanElems(key, CleanElems(key, a[1..], true), false);
      assert forall x :: ([x] + rest)[1..] == rest;
      assert [] + rest == rest;
    }
  }
}
