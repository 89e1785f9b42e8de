/** The deny-by-default redaction of Zendesk event bodies: a walk over decoded JSON in two modes. */
module Redact {
  import opened Options

  /** A decoded JSON value.  Numbers keep their text (json.Number). */
  datatype Json =
    | Null
    | Bool(b: bool)
    | Num(text: string)
    | Str(s: string)
    | Arr(elems: seq<Json>)
    | Obj(fields: map<string, Json>)

  const TAGS_KEY: string := "tags"

  predicate IsSafeStringKey(key: string) {
    key in {
      "id", "time", "type", "zendesk_event_version",
      "status", "priority", "created_at", "updated_at",
      "brand_id", "form_id", "group_id", "organization_id",
      "assignee_id", "requester_id", "submitter_id", "author_id",
      "previous", "current"
    }
  }

  predicate IsSafeNumberKey(key: string) {
    key == "account_id"
  }

  /** One of the tag families that are kept. */
  predicate HasSafeTagPrefix(s: string) {
    "cri:" <= s || "customer:" <= s
  }

  // ----- What the walk keeps, as functions -----

  /** filterTags: the allowlisted tag strings, in order. */
  function CleanTags(a: seq<Json>): seq<Json> {
    if a == [] then []
    else if a[0].Str? && HasSafeTagPrefix(a[0].s) then [a[0]] + CleanTags(a[1..])
    else CleanTags(a[1..])
  }

  /** What becomes of the value `v` found under `key`; `drop` is the mode that drops every string. */
  function CleanValue(key: string, v: Json, drop: bool): Option<Json>
    decreases v, 1
  {
    match v
    case Obj(_) => Some(CleanObject(v, drop))
    case Arr(a) => Some(Arr(CleanElems(key, a, drop)))
    case Str(_) => if !drop && IsSafeStringKey(key) then Some(v) else None
    case Num(_) => if IsSafeNumberKey(key) then Some(v) else None
    case _ => Some(v)
  }

  /** What becomes of one entry of an object. */
  function CleanField(key: string, v: Json, drop: bool): Option<Json>
    decreases v, 2
  {
    if key == TAGS_KEY && !drop && v.Arr? then Some(Arr(CleanTags(v.elems))) else CleanValue(key, v, drop)
  }

  function CleanObject(v: Json, drop: bool): (r: Json)
    requires v.Obj?
    ensures r.Obj?
    decreases v, 0
  {
    var m := v.fields;
    Obj(map k | k in m && CleanField(k, m[k], drop).Some? :: CleanField(k, m[k], drop).value)
  }

  /** Array elements inherit the key of the array. */
  function CleanElems(key: string, a: seq<Json>, drop: bool): seq<Json>
    decreases a, 0
  {
    if a == [] then []
    else
      var head := CleanValue(key, a[0], drop);
      if head.Some? then [head.value] + CleanElems(key, a[1..], drop) else CleanElems(key, a[1..], drop)
  }

  lemma {:induction false} TagsAppend(a: seq<Json>, last: Json)
    ensures CleanTags(a + [last]) ==
            CleanTags(a) + if last.Str? && HasSafeTagPrefix(last.s) then [last] else []
  {
    if a == [] {
      assert (a + [last])[1..] == [];
    } else {
      assert (a + [last])[1..] == a[1..] + [last];
      TagsAppend(a[1..], last);
    }
  }

  lemma {:induction false} ElemsAppend(key: string, a: seq<Json>, last: Json, drop: bool)
    ensures var x := CleanValue(key, last, drop);
            CleanElems(key, a + [last], drop) ==
            CleanElems(key, a, drop) + if x.Some? then [x.value] else []
    decreases |a|
  {
    if a == [] {
      assert (a + [last])[1..] == [];
    } else {
      assert (a + [last])[1..] == a[1..] + [last];
      ElemsAppend(key, a[1..], last, drop);
    }
  }

  // ----- The walk itself -----

  method FilterTags(a: seq<Json>) returns (out: seq<Json>)
    ensures out == CleanTags(a)
  {
    out := [];
    var prefixes := ["cri:", "customer:"];
    for i := 0 to |a|
      invariant out == CleanTags(a[..i])
    {
      TagsAppend(a[..i], a[i]);
      assert a[..i + 1] == a[..i] + [a[i]];
      if !a[i].Str? {
        continue;
      }
      assert HasSafeTagPrefix(a[i].s) <==> prefixes[0] <= a[i].s || prefixes[1] <= a[i].s;
      for j := 0 to |prefixes|
        invariant out == CleanTags(a[..i])
        invariant forall k :: 0 <= k < j ==> !(prefixes[k] <= a[i].s)
      {
        if prefixes[j] <= a[i].s {
          out := out + [a[i]];
          break;
        }
      }
    }
    assert a[..|a|] == a;
  }

  method RedactArray(key: string, a: seq<Json>, drop: bool) returns (out: seq<Json>)
    ensures out == CleanElems(key, a, drop)
    decreases a, 0
  {
    out := [];
    for i := 0 to |a|
      invariant out == CleanElems(key, a[..i], drop)
    {
      var value := RedactValue(key, a[i], drop);
      ElemsAppend(key, a[..i], a[i], drop);
      assert a[..i + 1] == a[..i] + [a[i]];
      if value.Some? {
        out := out + [value.value];
      }
    }
    assert a[..|a|] == a;
  }

  method RedactValue(key: string, v: Json, drop: bool) returns (out: Option<Json>)
    ensures out == CleanValue(key, v, drop)
    decreases v, 1
  {
    match v
    case Obj(_) =>
      var o := RedactObject(v, drop);
      return Some(o);
    case Arr(a) =>
      var elems := RedactArray(key, a, drop);
      return Some(Arr(elems));
    case Str(_) =>
      if drop {
        return None;
      }
      return if IsSafeStringKey(key) then Some(v) else None;
    case Num(_) =>
      return if IsSafeNumberKey(key) then Some(v) else None;
    case _ =>
      return Some(v);
  }

  method RedactObject(v: Json, drop: bool) returns (out: Json)
    requires v.Obj?
    ensures out == CleanObject(v, drop)
    decreases v, 0
  {
    var m := v.fields;
    var fields: map<string, Json> := map[];
    var todo := m.Keys;
    while todo != {}
      invariant todo <= m.Keys
      invariant fields == map k | k in m && k !in todo && CleanField(k, m[k], drop).Some? ::
                            CleanField(k, m[k], drop).value
    {
      var k :| k in todo;
      todo := todo - {k};
      if k == TAGS_KEY && !drop && m[k].Arr? {
        var tags := FilterTags(m[k].elems);
        fields := fields[k := Arr(tags)];
        continue;
      }
      var value := RedactValue(k, m[k], drop);
      if value.Some? {
        fields := fields[k := value.value];
      }
    }
    return Obj(fields);
  }
}
