/** EVENT_TYPE_TOPIC_OVERRIDES: the "type:topic,type:topic" text that Terraform renders and the
    ingress reads back into a map. */
module OverrideTable {
  import opened Options
  import opened Text

  datatype Entry = Entry(kind: string, topic: string)

  type Overrides = map<string, string>

  function Written(entries: seq<Entry>): (parts: seq<string>)
    ensures |parts| == |entries|
    ensures forall i :: 0 <= i < |entries| ==> parts[i] == entries[i].kind + ":" + entries[i].topic
  {
    if entries == [] then [] else [entries[0].kind + ":" + entries[0].topic] + Written(entries[1..])
  }

  /** join(",", [for type in ... : "${type}:${topic}"]). */
  function Render(entries: seq<Entry>): string {
    Join(Written(entries), ',')
  }

  /** Items are cut at the first ':'; an item without one is an error. */
  function ParseItems(parts: seq<string>, out: Overrides): Option<Overrides>
    decreases |parts|
  {
    if parts == [] then Some(out)
    else
      var colon := IndexByte(parts[0], ':');
      if colon < 0 then None
      else ParseItems(parts[1..], out[Trim(parts[0][..colon]) := Trim(parts[0][colon + 1..])])
  }

  function Parse(s: string): Option<Overrides> {
    ParseItems(Split(s, ','), map[])
  }

  predicate LacksColon(parts: seq<string>) {
    exists i :: 0 <= i < |parts| && ':' !in parts[i]
  }

  lemma LacksColonLater(parts: seq<string>)
    requires parts != []
    ensures LacksColon(parts) <==> ':' !in parts[0] || LacksColon(parts[1..])
  {
    if i :| 0 <= i < |parts[1..]| && ':' !in parts[1..][i] {
      assert ':' !in parts[i + 1];
    }
    if i :| 0 < i < |parts| && ':' !in parts[i] {
      assert ':' !in parts[1..][i - 1];
    }
  }

  lemma {:induction false} ItemsFailIff(parts: seq<string>, out: Overrides)
    ensures ParseItems(parts, out).None? <==> LacksColon(parts)
    decreases |parts|
  {
    if parts == [] {
    } else {
      var rest := parts[1..];
      IndexByteIsFirst(parts[0], ':');
      LacksColonLater(parts);
      var colon := IndexByte(parts[0], ':');
      if colon >= 0 {
        ItemsFailIff(rest, out[Trim(parts[0][..colon]) := Trim(parts[0][colon + 1..])]);
      }
    }
  }

  /** A text is rejected exactly if one of its items has no ':'. */
  lemma ParseFailsIff(s: string)
    ensures Parse(s).None? <==> LacksColon(Split(s, ','))
  {
    ItemsFailIff(Split(s, ','), map[]);
  }

  predicate WellFormed(e: Entry) {
    && Trimmed(e.kind) && ':' !in e.kind && ',' !in e.kind
    && Trimmed(e.topic) && ',' !in e.topic
  }

  /** The entries list the map `m`: each of its keys, with its value. */
  ghost predicate Lists(entries: seq<Entry>, m: Overrides) {
    && (forall i :: 0 <= i < |entries| ==> entries[i].kind in m && m[entries[i].kind] == entries[i].topic)
    && (forall k :: k in m ==> exists i :: 0 <= i < |entries| && entries[i].kind == k)
  }

  /** An item is cut at its first ':', and both halves are trimmed. */
  lemma PaddedItemIsRead(
    left: string, kind: string, mid: string, mid': string, topic: string, right: string, out: Overrides)
    requires AllSpace(left) && AllSpace(mid) && AllSpace(mid') && AllSpace(right)
    requires Trimmed(kind) && ':' !in kind && Trimmed(topic)
    ensures ParseItems([(left + kind + mid) + ":" + (mid' + topic + right)], out) == Some(out[kind := topic])
  {
    var head, tail := left + kind + mid, mid' + topic + right;
    TrimPadding(left, kind, mid);
    TrimPadding(mid', topic, right);
    IndexByteAfter(head, ':', tail);
    var parts := [head + [':'] + tail];
    assert parts[1..] == [];
  }

  /** Items are read one after the other, and a later one wins. */
  lemma {:induction false} ItemsAppend(parts: seq<string>, more: seq<string>, out: Overrides)
    ensures var read := ParseItems(parts, out);
            ParseItems(parts + more, out) == if read.None? then None else ParseItems(more, read.value)
    decreases |parts|
  {
    if parts == [] {
      assert parts + more == more;
    } else {
      assert (parts + more)[1..] == parts[1..] + more;
      var colon := IndexByte(parts[0], ':');
      if colon >= 0 {
        ItemsAppend(parts[1..], more, out[Trim(parts[0][..colon]) := Trim(parts[0][colon + 1..])]);
      }
    }
  }

  lemma ItemIsRead(kind: string, topic: string)
    requires WellFormed(Entry(kind, topic))
    ensures var item := kind + ":" + topic;
            && IndexByte(item, ':') == |kind|
            && Trim(item[..|kind|]) == kind && Trim(item[|kind| + 1..]) == topic
  {
    IndexByteAfter(kind, ':', topic);
    TrimPadding("", kind, "");
    TrimPadding("", topic, "");
    assert "" + kind + "" == kind && "" + topic + "" == topic;
  }

  lemma StillListed(entries: seq<Entry>, k: string)
    requires entries != [] && entries[0].kind != k && exists i :: 0 <= i < |entries| && entries[i].kind == k
    ensures exists i :: 0 <= i < |entries[1..]| && entries[1..][i].kind == k
  {
    var i :| 0 <= i < |entries| && entries[i].kind == k;
    assert i > 0 && entries[1..][i - 1] == entries[i];
  }

  lemma FirstIsRead(entries: seq<Entry>, out: Overrides)
    requires entries != [] && WellFormed(entries[0])
    ensures ParseItems(Written(entries), out) ==
            ParseItems(Written(entries[1..]), out[entries[0].kind := entries[0].topic])
  {
    ItemIsRead(entries[0].kind, entries[0].topic);
    assert Written(entries)[1..] == Written(entries[1..]);
  }

  lemma {:induction false} ItemsAreRead(entries: seq<Entry>, m: Overrides, out: Overrides)
    requires forall i :: 0 <= i < |entries| ==> WellFormed(entries[i])
    requires forall i :: 0 <= i < |entries| ==> entries[i].kind in m && m[entries[i].kind] == entries[i].topic
    requires forall k :: k in out ==> k in m && out[k] == m[k]
    requires forall k :: k in m ==> k in out || exists i :: 0 <= i < |entries| && entries[i].kind == k
    ensures ParseItems(Written(entries), out) == Some(m)
    decreases |entries|
  {
    if entries == [] {
      assert out == m;
    } else {
      var kind, topic := entries[0].kind, entries[0].topic;
      FirstIsRead(entries, out);
      var next := out[kind := topic];
      forall k | k in m && k !in next
        ensures exists i :: 0 <= i < |entries[1..]| && entries[1..][i].kind == k
      {
        StillListed(entries, k);
      }
      ItemsAreRead(entries[1..], m, next);
    }
  }

  /** The rendered table parses back to the routing map it was rendered from, whatever the order. */
  lemma TableRoundTrip(entries: seq<Entry>, m: Overrides)
    requires entries != [] && Lists(entries, m) && forall i :: 0 <= i < |entries| ==> WellFormed(entries[i])
    ensures Parse(Render(entries)) == Some(m)
  {
    forall p | p in Written(entries)
      ensures ',' !in p
    {
      var i :| 0 <= i < |entries| && p == Written(entries)[i];
      assert WellFormed(entries[i]);
    }
    SplitJoin(Written(entries), ',');
    ItemsAreRead(entries, m, map[]);
  }
}
