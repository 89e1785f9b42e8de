/** Go strings as sequences of bytes (characters below 256), with strings.Split, strings.Join and
    strings.TrimSpace and the laws the parsers rely on. */
module Text {
  /** One byte of a Go string. */
  type Byte = c: char | c < '\U{100}' witness 'x'

  // ----- Split and Join on a one-character separator -----

  function Split(s: string, sep: char): (parts: seq<string>)
    ensures |parts| >= 1
  {
    if s == "" then [""]
    else
      var rest := Split(s[1..], sep);
      if s[0] == sep then [""] + rest else [[s[0]] + rest[0]] + rest[1..]
  }

  function Join(parts: seq<string>, sep: char): string {
    if parts == [] then ""
    else if |parts| == 1 then parts[0]
    else parts[0] + [sep] + Join(parts[1..], sep)
  }

  lemma {:induction false} SplitHead(head: string, sep: char, rest: string)
    requires sep !in head
    ensures Split(head + [sep] + rest, sep) == [head] + Split(rest, sep)
  {
    var s := head + [sep] + rest;
    if head == "" {
      assert s[1..] == rest;
    } else {
      assert head[0] in head;
      SplitHead(head[1..], sep, rest);
      assert s[1..] == head[1..] + [sep] + rest;
      assert [s[0]] + head[1..] == head;
    }
  }

  lemma {:induction false} SplitWhole(s: string, sep: char)
    requires sep !in s
    ensures Split(s, sep) == [s]
  {
    if s == "" {
    } else {
      assert s[0] in s;
      SplitWhole(s[1..], sep);
      assert [s[0]] + s[1..] == s;
    }
  }

  lemma {:induction false} SplitJoin(parts: seq<string>, sep: char)
    requires parts != [] && forall p :: p in parts ==> sep !in p
    ensures Split(Join(parts, sep), sep) == parts
  {
    if |parts| == 1 {
      SplitWhole(parts[0], sep);
    } else {
      SplitJoin(parts[1..], sep);
      SplitHead(parts[0], sep, Join(parts[1..], sep));
    }
  }

  lemma JoinFirst(c: char, rest: seq<string>, sep: char)
    requires rest != [] && c != sep && forall p :: p in rest ==> sep !in p
    ensures var parts := [[c] + rest[0]] + rest[1..];
            Join(parts, sep) == [c] + Join(rest, sep) && forall p :: p in parts ==> sep !in p
  {
  }

  lemma {:induction false} JoinSplit(s: string, sep: char)
    ensures Join(Split(s, sep), sep) == s
    ensures forall p :: p in Split(s, sep) ==> sep !in p
  {
    if s == "" {
    } else {
      var rest := Split(s[1..], sep);
      JoinSplit(s[1..], sep);
      if s[0] == sep {
        assert ([""] + rest)[1..] == rest;
      } else {
        JoinFirst(s[0], rest, sep);
      }
    }
  }

  // ----- IndexByte -----

  /** Position of the first `c`, or -1. */
  function IndexByte(s: string, c: char): (i: int)
    ensures -1 <= i < |s|
  {
    if s == "" then -1
    else if s[0] == c then 0
    else
      var i := IndexByte(s[1..], c);
      if i < 0 then -1 else i + 1
  }

  lemma {:induction false} IndexByteIsFirst(s: string, c: char)
    ensures c in s <==> IndexByte(s, c) >= 0
    ensures c in s ==> s[IndexByte(s, c)] == c && c !in s[..IndexByte(s, c)]
  {
    if s == "" {
    } else {
      assert s == [s[0]] + s[1..];
      IndexByteIsFirst(s[1..], c);
      var i := IndexByte(s, c);
      if i > 0 {
        assert s[..i] == [s[0]] + s[1..][..i - 1];
      }
    }
  }

  lemma {:induction false} IndexByteAfter(head: string, c: char, rest: string)
    requires c !in head
    ensures IndexByte(head + [c] + rest, c) == |head|
    ensures (head + [c] + rest)[..|head|] == head && (head + [c] + rest)[|head| + 1..] == rest
  {
    if head == "" {
    } else {
      assert head[0] in head;
      IndexByteAfter(head[1..], c, rest);
      assert (head + [c] + rest)[1..] == head[1..] + [c] + rest;
    }
  }

  // ----- TrimSpace -----

  predicate IsSpace(c: char) {
    c == ' ' || c == '\t' || c == '\n' || c == '\r' || c == '\U{0B}' || c == '\U{0C}'
  }

  predicate AllSpace(s: string) {
    forall c :: c in s ==> IsSpace(c)
  }

  predicate Trimmed(s: string) {
    s != "" ==> !IsSpace(s[0]) && !IsSpace(s[|s| - 1])
  }

  function TrimLeft(s: string): (t: string) {
    if s != "" && IsSpace(s[0]) then TrimLeft(s[1..]) else s
  }

  function TrimRight(s: string): (t: string) {
    if s != "" && IsSpace(s[|s| - 1]) then TrimRight(s[..|s| - 1]) else s
  }

  function Trim(s: string): string {
    TrimRight(TrimLeft(s))
  }

  lemma {:induction false} TrimLeftSuffix(s: string) returns (left: string)
    ensures AllSpace(left) && left + TrimLeft(s) == s
    ensures TrimLeft(s) != "" ==> !IsSpace(TrimLeft(s)[0])
  {
    left := "";
    if s != "" && IsSpace(s[0]) {
      left := TrimLeftSuffix(s[1..]);
      left := [s[0]] + left;
    }
  }

  lemma {:induction false} TrimRightPrefix(s: string) returns (right: string)
    ensures AllSpace(right) && TrimRight(s) + right == s
    ensures TrimRight(s) != "" ==> !IsSpace(TrimRight(s)[|TrimRight(s)| - 1])
  {
    right := "";
    if s != "" && IsSpace(s[|s| - 1]) {
      right := TrimRightPrefix(s[..|s| - 1]);
      right := right + [s[|s| - 1]];
    }
  }

  /** TrimSpace removes white space at both ends, all of it, and nothing else. */
  lemma TrimSplits(s: string) returns (left: string, right: string)
    ensures AllSpace(left) && AllSpace(right) && Trimmed(Trim(s))
    ensures s == left + Trim(s) + right
  {
    left := TrimLeftSuffix(s);
    right := TrimRightPrefix(TrimLeft(s));
    assert left + TrimLeft(s) == left + Trim(s) + right;
    if Trim(s) != "" {
      assert Trim(s)[0] == TrimLeft(s)[0];
    }
  }

  lemma {:induction false} TrimLeftPadding(left: string, s: string)
    requires AllSpace(left) && (s != "" ==> !IsSpace(s[0]))
    ensures TrimLeft(left + s) == s
  {
    if left == "" {
      assert left + s == s;
    } else {
      assert (left + s)[1..] == left[1..] + s;
      TrimLeftPadding(left[1..], s);
    }
  }

  lemma {:induction false} TrimRightPadding(s: string, right: string)
    requires AllSpace(right) && (s != "" ==> !IsSpace(s[|s| - 1]))
    ensures TrimRight(s + right) == s
  {
    if right == "" {
      assert s + right == s;
    } else {
      var n := |s + right|;
      assert (s + right)[..n - 1] == s + right[..|right| - 1];
      assert (s + right)[n - 1] == right[|right| - 1];
      TrimRightPadding(s, right[..|right| - 1]);
    }
  }

  /** Padding a trimmed string with white space changes nothing once it is trimmed. */
  lemma TrimPadding(left: string, s: string, right: string)
    requires AllSpace(left) && AllSpace(right) && Trimmed(s)
    ensures Trim(left + s + right) == s
  {
    if s == "" {
      var ws := left + right;
      assert left + s + right == ws + "";
      TrimLeftPadding(ws, "");
    } else {
      assert left + s + right == left + (s + right);
      assert (s + right)[0] == s[0];
      TrimLeftPadding(left, s + right);
      TrimRightPadding(s, right);
    }
  }
}
