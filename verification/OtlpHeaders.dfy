/** The parser of OTEL_EXPORTER_OTLP_TRACES_<NAME>_HEADERS: comma-separated key=value pairs with
    query-escaped values. */
module OtlpHeaders {
  import opened Options
  import opened Text
  import opened Hex

  // ----- url.QueryEscape and url.QueryUnescape -----

  predicate IsUnreserved(c: char) {
    'A' <= c <= 'Z' || 'a' <= c <= 'z' || '0' <= c <= '9' || c == '-' || c == '_' || c == '.' || c == '~'
  }

  function EscapeByte(c: Byte): string {
    if IsUnreserved(c) then [c] else if c == ' ' then "+" else Escape(c)
  }

  function QueryEscape(s: seq<Byte>): string {
    if s == [] then "" else EscapeByte(s[0]) + QueryEscape(s[1..])
  }

  function Cons(c: char, tail: Option<string>): Option<string> {
    if tail.None? then None else Some([c] + tail.value)
  }

  /** None is the error for a '%' without two hexadecimal digits. */
  function QueryUnescape(s: string): Option<string> {
    if s == "" then Some("")
    else if IsEscape(s) then Cons(Unescape(s), QueryUnescape(s[3..]))
    else if s[0] == '%' then None
    else Cons(if s[0] == '+' then ' ' else s[0], QueryUnescape(s[1..]))
  }

  lemma UnescapeStep(s: string)
    requires s != ""
    ensures IsEscape(s) ==> QueryUnescape(s) == Cons(Unescape(s), QueryUnescape(s[3..]))
    ensures s[0] != '%' ==> QueryUnescape(s) == Cons(if s[0] == '+' then ' ' else s[0], QueryUnescape(s[1..]))
  {
  }

  lemma ByteIsReadBack(c: Byte, rest: string, t: string)
    requires t == EscapeByte(c) + rest
    ensures QueryUnescape(t) == Cons(c, QueryUnescape(rest))
  {
    UnescapeStep(t);
    if IsUnreserved(c) || c == ' ' {
      assert t[1..] == rest;
    } else {
      UnescapeEscape(c);
      assert t[..3] == Escape(c);
      assert t[1] == Escape(c)[1] && t[2] == Escape(c)[2];
      assert t[3..] == rest;
    }
  }

  lemma {:induction false} UnescapeInvertsEscape(s: seq<Byte>)
    ensures QueryUnescape(QueryEscape(s)) == Some(s)
  {
    if s == [] {
    } else {
      var rest := s[1..];
      assert [s[0]] + rest == s;
      UnescapeInvertsEscape(rest);
      ByteIsReadBack(s[0], QueryEscape(rest), QueryEscape(s));
    }
  }

  lemma {:induction false} EscapedAlphabet(s: seq<Byte>)
    ensures forall c :: c in QueryEscape(s) ==> IsUnreserved(c) || c == '+' || c == '%'
  {
    if s == [] {
    } else {
      UnescapeEscape(s[0]);
      EscapedAlphabet(s[1..]);
    }
  }

  /** Percent-decoding as section 2.1 of RFC 3986 has it: nothing but an escape is special. */
  function PercentDecode(s: string): Option<string> {
    if s == "" then Some("")
    else if IsEscape(s) then Cons(Unescape(s), PercentDecode(s[3..]))
    else if s[0] == '%' then None
    else Cons(s[0], PercentDecode(s[1..]))
  }

  lemma PlusAfterFirst(s: string)
    requires s != ""
    ensures IsEscape(s) ==> ('+' in s <==> '+' in s[3..])
    ensures '+' in s <==> s[0] == '+' || '+' in s[1..]
  {
    assert s == [s[0]] + s[1..];
    if IsEscape(s) {
      assert s == [s[0], s[1], s[2]] + s[3..];
    }
  }

  /** The parser rejects exactly the values that percent-decoding rejects, and reads any other value as
      percent-decoding does if and only if it holds no '+'. */
  lemma {:induction false} PercentDecodingIff(s: string)
    ensures QueryUnescape(s).None? <==> PercentDecode(s).None?
    ensures PercentDecode(s).Some? ==> (QueryUnescape(s) == PercentDecode(s) <==> '+' !in s)
  {
    if s == "" {
    } else {
      PlusAfterFirst(s);
      var next := if IsEscape(s) then s[3..] else s[1..];
      PercentDecodingIff(next);
      if QueryUnescape(next).Some? {
        var a, b := QueryUnescape(next).value, PercentDecode(next).value;
        if s[0] == '+' {
          assert ([' '] + a)[0] != (['+'] + b)[0];
        } else {
          ConsIsInjective(if IsEscape(s) then Unescape(s) else s[0], a, b);
        }
      }
    }
  }

  lemma ConsIsInjective(c: char, a: string, b: string)
    ensures [c] + a == [c] + b <==> a == b
  {
    assert ([c] + a)[1..] == a && ([c] + b)[1..] == b;
  }

  /** Unlike percent-decoding as RFC 3986 has it, the parser reads a bare '+' as a space. */
  lemma PlusIsReadAsSpace()
    ensures QueryUnescape("a+b") == Some("a b") && QueryUnescape("a%2Bb") == Some("a+b")
  {
    assert "b"[1..] == "" && "+b"[1..] == "b" && "a+b"[1..] == "+b";
    assert "%2Bb"[3..] == "b" && "a%2Bb"[1..] == "%2Bb";
    UnescapeStep("b");
    assert QueryUnescape("b") == Some("b") by { assert ['b'] + "" == "b"; }
    UnescapeStep("+b");
    assert QueryUnescape("+b") == Some(" b") by { assert [' '] + "b" == " b"; }
    UnescapeStep("a+b");
    assert ['a'] + " b" == "a b";
    UnescapeStep("%2Bb");
    assert QueryUnescape("%2Bb") == Some("+b") by { assert Unescape("%2Bb") == '+' && ['+'] + "b" == "+b"; }
    UnescapeStep("a%2Bb");
    assert ['a'] + "+b" == "a+b";
  }

  // ----- The parser -----

  type Headers = map<string, string>

  /** One trimmed, non-empty pair: its key and value, or None if it is malformed. */
  function ParsePair(pair: string): Option<(string, string)> {
    var eq := IndexByte(pair, '=');
    if eq <= 0 then None
    else
      var val := QueryUnescape(Trim(pair[eq + 1..]));
      if val.None? then None else Some((Trim(pair[..eq]), val.value))
  }

  /** The pairs of `parts` entered one after the other into `out`. */
  function ParseParts(parts: seq<string>, out: Headers): Option<Headers>
    decreases |parts|
  {
    if parts == [] then Some(out)
    else
      var pair := Trim(parts[0]);
      if pair == "" then ParseParts(parts[1..], out)
      else
        var kv := ParsePair(pair);
        if kv.None? then None else ParseParts(parts[1..], out[kv.value.0 := kv.value.1])
  }

  function Parse(s: string): Option<Headers> {
    ParseParts(Split(s, ','), map[])
  }

  method ParseOTLPHeaders(s: string) returns (result: Option<Headers>)
    ensures result == Parse(s)
  {
    var parts := Split(s, ',');
    var out: Headers := map[];
    for i := 0 to |parts|
      invariant ParseParts(parts[i..], out) == Parse(s)
    {
      assert parts[i..][1..] == parts[i + 1..];
      var pair := Trim(parts[i]);
      if pair == "" {
        continue;
      }
      var eq := IndexByte(pair, '=');
      if eq <= 0 {
        return None;
      }
      var key := Trim(pair[..eq]);
      var val := QueryUnescape(Trim(pair[eq + 1..]));
      if val.None? {
        return None;
      }
      out := out[key := val.value];
    }
    return Some(out);
  }

  // ----- Every layout of a header list -----

  /** An empty entry, or a pair with white space wherever the format lets it stand. */
  datatype Item =
    | Blank(ws: string)
    | Header(pad0: string, key: string, pad1: string, pad2: string, value: seq<Byte>, pad3: string)

  predicate IsKey(key: string) {
    key != "" && Trimmed(key) && '=' !in key && ',' !in key
  }

  predicate WellFormed(item: Item) {
    match item
    case Blank(ws) => AllSpace(ws)
    case Header(p0, key, p1, p2, _, p3) =>
      AllSpace(p0) && AllSpace(p1) && AllSpace(p2) && AllSpace(p3) && IsKey(key)
  }

  function Written(item: Item): string {
    match item
    case Blank(ws) => ws
    case Header(p0, key, p1, p2, value, p3) => p0 + (key + p1 + "=" + p2 + QueryEscape(value)) + p3
  }

  function AllWritten(items: seq<Item>): (parts: seq<string>)
    ensures |parts| == |items| && forall i :: 0 <= i < |items| ==> parts[i] == Written(items[i])
  {
    if items == [] then [] else [Written(items[0])] + AllWritten(items[1..])
  }

  /** What the items say; a later header wins. */
  function Meaning(items: seq<Item>, out: Headers): Headers
    decreases |items|
  {
    if items == [] then out
    else Meaning(items[1..], if items[0].Header? then out[items[0].key := items[0].value] else out)
  }

  lemma AlphabetIsTrimmed(t: string)
    requires forall c :: c in t ==> IsUnreserved(c) || c == '+' || c == '%'
    ensures Trimmed(t) && ',' !in t
  {
    if t != "" {
      assert t[0] in t && t[|t| - 1] in t;
    }
  }

  lemma EscapedIsTrimmed(value: seq<Byte>)
    ensures Trimmed(QueryEscape(value)) && ',' !in QueryEscape(value)
  {
    EscapedAlphabet(value);
    AlphabetIsTrimmed(QueryEscape(value));
  }

  lemma BlankIsSkipped(ws: string)
    requires AllSpace(ws)
    ensures Trim(ws) == ""
  {
    TrimPadding(ws, "", "");
    assert ws + "" + "" == ws;
  }

  /** A pair without its outer padding; white space after an empty value has been trimmed off too. */
  function Core(key: string, p1: string, p2: string, escaped: string): string {
    key + p1 + "=" + if escaped == "" then "" else p2 + escaped
  }

  /** A pair is cut at its first '=', and both halves are trimmed. */
  lemma PairIsCut(head: string, tail: string, key: string, text: string)
    requires head != "" && '=' !in head && Trim(head) == key && Trim(tail) == text
    ensures ParsePair(head + "=" + tail) ==
            if QueryUnescape(text).None? then None else Some((key, QueryUnescape(text).value))
  {
    IndexByteAfter(head, '=', tail);
    assert head + "=" + tail == head + ['='] + tail;
  }

  lemma HalvesAreTrimmed(key: string, p1: string, p2: string, escaped: string)
    requires Trimmed(key) && Trimmed(escaped) && AllSpace(p1) && AllSpace(p2)
    ensures Trim(key + p1) == key && Trim(if escaped == "" then "" else p2 + escaped) == escaped
  {
    TrimPadding("", key, p1);
    assert "" + key + p1 == key + p1;
    if escaped == "" {
      BlankIsSkipped("");
    } else {
      TrimPadding(p2, escaped, "");
      assert p2 + escaped + "" == p2 + escaped;
    }
  }

  lemma CoreIsParsed(key: string, p1: string, p2: string, value: seq<Byte>)
    requires IsKey(key) && AllSpace(p1) && AllSpace(p2)
    ensures ParsePair(Core(key, p1, p2, QueryEscape(value))) == Some((key, value))
  {
    var escaped := QueryEscape(value);
    EscapedIsTrimmed(value);
    UnescapeInvertsEscape(value);
    HalvesAreTrimmed(key, p1, p2, escaped);
    PairIsCut(key + p1, if escaped == "" then "" else p2 + escaped, key, escaped);
  }

  lemma CoreIsTrimmed(key: string, p1: string, p2: string, escaped: string)
    requires IsKey(key) && Trimmed(escaped)
    ensures Core(key, p1, p2, escaped) != "" && Trimmed(Core(key, p1, p2, escaped))
  {
  }

  lemma WrittenIsPaddedCore(p0: string, key: string, p1: string, p2: string, escaped: string, p3: string)
    ensures p0 + (key + p1 + "=" + p2 + escaped) + p3 ==
            p0 + Core(key, p1, p2, escaped) + if escaped == "" then p2 + p3 else p3
  {
  }

  lemma HeaderIsParsed(item: Item)
    requires item.Header? && WellFormed(item)
    ensures Trim(Written(item)) != "" && ParsePair(Trim(Written(item))) == Some((item.key, item.value))
  {
    var Header(p0, key, p1, p2, value, p3) := item;
    var escaped := QueryEscape(value);
    EscapedIsTrimmed(value);
    WrittenIsPaddedCore(p0, key, p1, p2, escaped, p3);
    CoreIsTrimmed(key, p1, p2, escaped);
    TrimPadding(p0, Core(key, p1, p2, escaped), if escaped == "" then p2 + p3 else p3);
    CoreIsParsed(key, p1, p2, value);
  }

  lemma {:induction false} LayoutIsParsed(items: seq<Item>, out: Headers)
    requires forall i :: 0 <= i < |items| ==> WellFormed(items[i])
    ensures ParseParts(AllWritten(items), out) == Some(Meaning(items, out))
    decreases |items|
  {
    if items == [] {
    } else {
      var next := if items[0].Header? then out[items[0].key := items[0].value] else out;
      if items[0].Blank? {
        BlankIsSkipped(items[0].ws);
      } else {
        HeaderIsParsed(items[0]);
      }
      assert AllWritten(items)[1..] == AllWritten(items[1..]);
      LayoutIsParsed(items[1..], next);
    }
  }

  lemma NoCommaWithin(item: Item)
    requires WellFormed(item)
    ensures ',' !in Written(item)
  {
    if item.Header? {
      EscapedIsTrimmed(item.value);
    }
  }

  /** Parsing any layout, with white space and empty entries anywhere, gives what the layout says. */
  lemma ParseLayout(items: seq<Item>)
    requires items != [] && forall i :: 0 <= i < |items| ==> WellFormed(items[i])
    ensures Parse(Join(AllWritten(items), ',')) == Some(Meaning(items, map[]))
  {
    forall p | p in AllWritten(items)
      ensures ',' !in p
    {
      var i :| 0 <= i < |items| && p == AllWritten(items)[i];
      NoCommaWithin(items[i]);
    }
    SplitJoin(AllWritten(items), ',');
    LayoutIsParsed(items, map[]);
  }

  lemma {:induction false} MeaningOfListing(items: seq<Item>, m: map<string, seq<Byte>>, out: Headers)
    requires forall i :: 0 <= i < |items| && items[i].Header? ==> items[i].key in m && items[i].value == m[items[i].key]
    requires forall k :: k in out ==> k in m && out[k] == m[k]
    requires forall k :: k in m ==> k in out || exists i :: 0 <= i < |items| && items[i].Header? && items[i].key == k
    ensures Meaning(items, out) == m
    decreases |items|
  {
    if items == [] {
      assert out == m;
    } else {
      var next := if items[0].Header? then out[items[0].key := items[0].value] else out;
      forall k | k in m && k !in next
        ensures exists i :: 0 <= i < |items[1..]| && items[1..][i].Header? && items[1..][i].key == k
      {
        var i :| 0 <= i < |items| && items[i].Header? && items[i].key == k;
        assert i > 0 && items[1..][i - 1] == items[i];
      }
      MeaningOfListing(items[1..], m, next);
    }
  }

  /** Parsing inverts printing: every map of well-formed keys to arbitrary byte strings, listed in any
      order and with any spacing, is read back unchanged. */
  lemma ParsePrinted(items: seq<Item>, m: map<string, seq<Byte>>)
    requires items != [] && forall i :: 0 <= i < |items| ==> WellFormed(items[i])
    requires forall i :: 0 <= i < |items| && items[i].Header? ==> items[i].key in m && items[i].value == m[items[i].key]
    requires forall k :: k in m ==> exists i :: 0 <= i < |items| && items[i].Header? && items[i].key == k
    ensures Parse(Join(AllWritten(items), ',')) == Some(m)
  {
    ParseLayout(items);
    MeaningOfListing(items, m, map[]);
  }

  // ----- What is malformed -----

  predicate IsHexDigit(c: char) {
    '0' <= c <= '9' || 'A' <= c <= 'F' || 'a' <= c <= 'f'
  }

  /** A '%' that is not followed by two hexadecimal digits. */
  predicate BrokenAt(s: string, i: nat)
    requires i < |s|
  {
    s[i] == '%' && (i + 2 >= |s| || !IsHexDigit(s[i + 1]) || !IsHexDigit(s[i + 2]))
  }

  predicate Broken(s: string) {
    exists i :: 0 <= i < |s| && BrokenAt(s, i)
  }

  lemma BrokenLater(s: string, n: nat)
    requires n <= |s| && forall i :: 0 <= i < n ==> !BrokenAt(s, i)
    ensures Broken(s) <==> Broken(s[n..])
  {
    assert forall i :: n <= i < |s| ==> (BrokenAt(s, i) <==> BrokenAt(s[n..], i - n));
    if Broken(s[n..]) {
      var i :| 0 <= i < |s[n..]| && BrokenAt(s[n..], i);
      assert BrokenAt(s, i + n);
    }
  }

  lemma BrokenOrEscape(s: string)
    requires s != ""
    ensures BrokenAt(s, 0) <==> s[0] == '%' && !IsEscape(s)
  {
  }

  lemma EscapeIsWhole(s: string)
    requires IsEscape(s)
    ensures forall i :: 0 <= i < 3 ==> !BrokenAt(s, i)
  {
  }

  /** A value is rejected exactly if it holds a broken escape. */
  lemma {:induction false} UnescapeFailsIff(s: string)
    ensures QueryUnescape(s).None? <==> Broken(s)
  {
    if s == "" {
    } else {
      BrokenOrEscape(s);
      if IsEscape(s) {
        EscapeIsWhole(s);
        BrokenLater(s, 3);
        UnescapeFailsIff(s[3..]);
      } else if s[0] != '%' {
        BrokenLater(s, 1);
        UnescapeFailsIff(s[1..]);
      }
    }
  }

  /** An entry that is not blank, and has no name before its first '=', no '=' at all, or a broken value. */
  predicate Malformed(entry: string) {
    var t := Trim(entry);
    && t != ""
    && ('=' !in t || t[0] == '=' || exists i :: 0 <= i < |t| && CutAt(t, i) && Broken(Trim(t[i + 1..])))
  }

  /** The first '=' is here. */
  predicate CutAt(t: string, i: nat)
    requires i < |t|
  {
    t[i] == '=' && '=' !in t[..i]
  }

  lemma MalformedIff(entry: string)
    requires Trim(entry) != ""
    ensures ParsePair(Trim(entry)).None? <==> Malformed(entry)
  {
    var t := Trim(entry);
    IndexByteIsFirst(t, '=');
    if '=' in t {
      var eq := IndexByte(t, '=');
      UnescapeFailsIff(Trim(t[eq + 1..]));
      assert CutAt(t, eq);
      assert forall i :: 0 <= i < |t| && CutAt(t, i) ==> i == eq;
    }
  }

  lemma TrimKeepsSomething(s: string)
    requires s != "" && !IsSpace(s[0])
    ensures Trim(s) != "" && Trimmed(Trim(s))
  {
    var left, right := TrimSplits(s);
    assert Trim(s) == "" ==> s == left + right && AllSpace(left + right);
    assert s[0] in s;
  }

  lemma {:induction false} PartsGiveKeys(parts: seq<string>, out: Headers)
    requires forall k :: k in out ==> k != "" && Trimmed(k)
    ensures var r := ParseParts(parts, out);
            r.Some? ==> forall k :: k in r.value ==> k != "" && Trimmed(k)
    decreases |parts|
  {
    if parts == [] {
    } else {
      var pair := Trim(parts[0]);
      if pair == "" {
        PartsGiveKeys(parts[1..], out);
      } else {
        var kv := ParsePair(pair);
        if kv.Some? {
          var eq := IndexByte(pair, '=');
          var left, right := TrimSplits(parts[0]);
          assert pair[..eq][0] == pair[0];
          TrimKeepsSomething(pair[..eq]);
          PartsGiveKeys(parts[1..], out[kv.value.0 := kv.value.1]);
        }
      }
    }
  }

  /** Every key the parser accepts, from any text at all, is non-empty and trimmed. */
  lemma AcceptedKeys(s: string)
    ensures Parse(s).Some? ==> forall k :: k in Parse(s).value ==> k != "" && Trimmed(k)
  {
    PartsGiveKeys(Split(s, ','), map[]);
  }

  predicate SomeMalformed(parts: seq<string>) {
    exists i :: 0 <= i < |parts| && Malformed(parts[i])
  }

  lemma MalformedLater(parts: seq<string>)
    requires parts != []
    ensures SomeMalformed(parts) <==> Malformed(parts[0]) || SomeMalformed(parts[1..])
  {
    var rest := parts[1..];
    if i :| 0 <= i < |rest| && Malformed(rest[i]) {
      assert Malformed(parts[i + 1]);
    }
    if i :| 0 < i < |parts| && Malformed(parts[i]) {
      assert Malformed(rest[i - 1]);
    }
  }

  lemma {:induction false} PartsFailIff(parts: seq<string>, out: Headers)
    ensures ParseParts(parts, out).None? <==> SomeMalformed(parts)
    decreases |parts|
  {
    if parts == [] {
    } else {
      var pair, rest := Trim(parts[0]), parts[1..];
      MalformedLater(parts);
      if pair == "" {
        PartsFailIff(rest, out);
      } else {
        MalformedIff(parts[0]);
        var kv := ParsePair(pair);
        if kv.Some? {
          PartsFailIff(rest, out[kv.value.0 := kv.value.1]);
        }
      }
    }
  }

  /** A text is rejected exactly if one of its entries is malformed. */
  lemma ParseFailsIff(s: string)
    ensures Parse(s).None? <==> SomeMalformed(Split(s, ','))
  {
    PartsFailIff(Split(s, ','), map[]);
  }
}
