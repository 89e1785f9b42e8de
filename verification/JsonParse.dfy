/** Every text the JSON scanner accepts is a printed document: the scan is read back as the document it came from. */
module JsonParse {
  import opened JsonText
  import opened JsonGrammar

  /** The scan of the text ends with a complete document. */
  predicate Done(sc: Scanner, s: string) {
    Scan(sc, s) == Scanner(EndTop, [])
  }

  /** What follows a value inside `open` is read to the end of the document. */
  predicate Follows(open: seq<Container>, rest: string) {
    if open == [] then Blanks(rest) else Done(Scanner(EndValue, open), rest)
  }

  lemma DoneStep(sc: Scanner, s: string)
    requires Done(sc, s) && !(sc.Scanner? && sc.at.EndTop?)
    ensures s != "" && Step(sc, s[0]).Scanner? && Done(Step(sc, s[0]), s[1..]) && s == [s[0]] + s[1..]
  {
    FailedStays(s[1..]);
  }

  lemma {:induction false} OnlyBlanks(s: string)
    requires Done(Scanner(EndTop, []), s)
    ensures Blanks(s)
  {
    if s == "" {
    } else {
      FailedStays(s[1..]);
      OnlyBlanks(s[1..]);
      assert forall i :: 0 < i < |s| ==> s[i] == s[1..][i - 1];
    }
  }

  lemma {:induction false} TakeBlanks(sc: Scanner, s: string) returns (ws: string, rest: string)
    requires Done(sc, s) && forall c :: IsBlank(c) ==> Step(sc, c) == sc
    ensures s == ws + rest && Blanks(ws) && Done(sc, rest)
    ensures rest != "" ==> !IsBlank(rest[0])
    decreases |s|
  {
    if s == "" || !IsBlank(s[0]) {
      ws, rest := "", s;
    } else {
      ws, rest := TakeBlanks(sc, s[1..]);
      ws := [s[0]] + ws;
    }
  }

  lemma {:induction false} TakeDigits(sc: Scanner, s: string) returns (ds: string, rest: string)
    requires Done(sc, s) && forall c :: IsDigit(c) ==> Step(sc, c) == sc
    ensures s == ds + rest && AllDigits(ds) && Done(sc, rest)
    ensures rest != "" ==> !IsDigit(rest[0])
    decreases |s|
  {
    if s == "" || !IsDigit(s[0]) {
      ds, rest := "", s;
    } else {
      ds, rest := TakeDigits(sc, s[1..]);
      ds := [s[0]] + ds;
    }
  }

  // ----- Numbers -----

  lemma TakeWhole(first: Scanner, s: string) returns (whole: string, rest: string)
    requires first.Scanner? && (first.at.BeginValue? || first.at.Neg?)
    requires Done(first, s) && s != "" && IsDigit(s[0])
    ensures s == whole + rest && whole != "" && AllDigits(whole) && (whole[0] == '0' ==> |whole| == 1)
    ensures Done(WholeEnd(first.open, whole), rest)
    ensures whole[0] != '0' && rest != "" ==> !IsDigit(rest[0])
  {
    DoneStep(first, s);
    FirstDigit(first, s[0]);
    if s[0] == '0' {
      whole, rest := [s[0]], s[1..];
    } else {
      var ds;
      ds, rest := TakeDigits(Scanner(Digits, first.open), s[1..]);
      whole := [s[0]] + ds;
    }
  }

  lemma TakeFrac(sc: Scanner, s: string) returns (frac: string, rest: string)
    requires sc.Scanner? && (sc.at.Zero? || sc.at.Digits?) && Done(sc, s)
    ensures s == frac + rest
    ensures frac != "" ==> |frac| > 1 && frac[0] == '.' && AllDigits(frac[1..]) && (rest != "" ==> !IsDigit(rest[0]))
    ensures frac == "" ==> rest == s && (s != "" ==> s[0] != '.')
    ensures Done(if frac == "" then sc else Scanner(Dot0, sc.open), rest)
  {
    DoneStep(sc, s);
    if s[0] == '.' {
      var t := s[1..];
      DoneStep(Scanner(Dot, sc.open), t);
      assert IsDigit(t[0]);
      var ds;
      ds, rest := TakeDigits(Scanner(Dot0, sc.open), t[1..]);
      frac := ['.'] + ([t[0]] + ds);
      assert frac[1..] == [t[0]] + ds;
    } else {
      frac, rest := "", s;
    }
  }

  lemma TakeMark(sc: Scanner, s: string) returns (mark: string, rest: string)
    requires sc.Scanner? && (sc.at.Zero? || sc.at.Digits? || sc.at.Dot0?)
    requires Done(sc, s) && s != "" && (s[0] == 'e' || s[0] == 'E')
    ensures s == mark + rest && GoodMark(mark) && rest != "" && IsDigit(rest[0])
    ensures Done(Scanner(Exp0, sc.open), rest[1..])
  {
    DoneStep(sc, s);
    var t := s[1..];
    DoneStep(Scanner(Exp, sc.open), t);
    if t[0] == '+' || t[0] == '-' {
      mark, rest := [s[0]] + [t[0]], t[1..];
      DoneStep(Scanner(ExpSign, sc.open), rest);
    } else {
      mark, rest := [s[0]], t;
    }
  }

  lemma TakeExp(sc: Scanner, s: string) returns (mark: string, exp: string, rest: string)
    requires sc.Scanner? && (sc.at.Zero? || sc.at.Digits? || sc.at.Dot0?) && Done(sc, s)
    ensures s == mark + (exp + rest) && (mark == "" <==> exp == "") && AllDigits(exp)
    ensures mark != "" ==> GoodMark(mark) && (rest != "" ==> !IsDigit(rest[0]))
    ensures mark == "" ==> rest == s && (s != "" ==> s[0] != 'e' && s[0] != 'E')
    ensures Done(if mark == "" then sc else Scanner(Exp0, sc.open), rest)
  {
    if s != "" && (s[0] == 'e' || s[0] == 'E') {
      var t, ds;
      mark, t := TakeMark(sc, s);
      ds, rest := TakeDigits(Scanner(Exp0, sc.open), t[1..]);
      exp := [t[0]] + ds;
      assert t == [t[0]] + t[1..];
      assert exp + rest == t;
    } else {
      mark, exp, rest := "", "", s;
    }
  }

  /** A number ends where a byte comes that cannot be part of it. */
  lemma NumberEnds(sc: Scanner, open: seq<Container>, rest: string)
    requires sc.Scanner? && sc.open == open && Done(sc, rest) && !sc.at.EndTop?
    requires rest != "" ==> Step(sc, rest[0]) == StepEndValue(open, rest[0])
    ensures Follows(open, rest)
  {
    DoneStep(sc, rest);
    if open == [] {
      OnlyBlanks(rest[1..]);
      assert forall i :: 0 < i < |rest| ==> rest[i] == rest[1..][i - 1];
    } else {
      ScanCons(Scanner(EndValue, open), rest[0], rest[1..]);
    }
  }

  lemma FourParts(a: string, b: string, c: string, d: string, rest: string)
    ensures a + (b + (c + (d + rest))) == (a + (b + (c + d))) + rest
  {
  }

  lemma TakeUnsigned(first: Scanner, minus: bool, s: string) returns (n: Numeral, rest: string)
    requires first.Scanner? && (first.at.BeginValue? || first.at.Neg?)
    requires Done(first, s) && s != "" && IsDigit(s[0])
    ensures n.minus == minus && GoodNumeral(n) && s == (n.whole + (n.frac + (n.mark + n.exp))) + rest
    ensures Follows(first.open, rest)
  {
    var open := first.open;
    var whole, t := TakeWhole(first, s);
    var frac, u := TakeFrac(WholeEnd(open, whole), t);
    var sc := if frac == "" then WholeEnd(open, whole) else Scanner(Dot0, open);
    var mark, exp;
    mark, exp, rest := TakeExp(sc, u);
    n := Numeral(minus, whole, frac, mark, exp);
    NumberEnds(if mark == "" then sc else Scanner(Exp0, open), open, rest);
    FourParts(whole, frac, mark, exp, rest);
  }

  lemma TakeNumeral(open: seq<Container>, s: string) returns (n: Numeral, rest: string)
    requires Done(Scanner(BeginValue, open), s) && s != "" && (s[0] == '-' || IsDigit(s[0]))
    ensures GoodNumeral(n) && s == PrintNumeral(n) + rest && Follows(open, rest)
  {
    if s[0] == '-' {
      DoneStep(Scanner(BeginValue, open), s);
      DoneStep(Scanner(Neg, open), s[1..]);
      n, rest := TakeUnsigned(Scanner(Neg, open), true, s[1..]);
      assert "-" == [s[0]];
      assert PrintNumeral(n) == [s[0]] + (n.whole + (n.frac + (n.mark + n.exp)));
    } else {
      n, rest := TakeUnsigned(Scanner(BeginValue, open), false, s);
      assert PrintNumeral(n) == n.whole + (n.frac + (n.mark + n.exp));
    }
  }

  // ----- Strings and words -----

  lemma TakeEscape(open: seq<Container>, s: string) returns (c: Char, rest: string)
    requires Done(Scanner(InStringEsc, open), s)
    ensures GoodChar(c) && ['\\'] + s == PrintChar(c) + rest && |rest| < |s|
    ensures Done(Scanner(InString, open), rest)
  {
    DoneStep(Scanner(InStringEsc, open), s);
    if s[0] in "bfnrt\\/\"" {
      c, rest := Short(s[0]), s[1..];
    } else {
      var t := s[1..];
      DoneStep(Scanner(EscU, open), t);
      var u := t[1..];
      DoneStep(Scanner(EscU1, open), u);
      var v := u[1..];
      DoneStep(Scanner(EscU12, open), v);
      var w := v[1..];
      DoneStep(Scanner(EscU123, open), w);
      c, rest := Unicode(t[0], u[0], v[0], w[0]), w[1..];
      assert s == ['u'] + ([t[0]] + ([u[0]] + ([v[0]] + ([w[0]] + rest))));
    }
  }

  lemma {:induction false} TakeChars(open: seq<Container>, s: string) returns (chars: seq<Char>, rest: string)
    requires Done(Scanner(InString, open), s)
    ensures GoodChars(chars) && s == PrintChars(chars) + (['"'] + rest)
    ensures Done(Scanner(EndValue, open), rest)
    decreases |s|
  {
    DoneStep(Scanner(InString, open), s);
    if s[0] == '"' {
      chars, rest := [], s[1..];
    } else {
      var c, t;
      if s[0] == '\\' {
        c, t := TakeEscape(open, s[1..]);
      } else {
        c, t := Unescaped(s[0]), s[1..];
      }
      assert s == PrintChar(c) + t;
      var more;
      more, rest := TakeChars(open, t);
      chars := [c] + more;
      assert chars[1..] == more;
    }
  }

  lemma StringEnds(open: seq<Container>, rest: string)
    requires Done(Scanner(EndValue, open), rest)
    ensures Follows(open, rest)
  {
    NumberEnds(Scanner(EndValue, open), open, rest);
  }

  /** Inside a word only its next letter is accepted. */
  lemma TakeLetter(at: Position, open: seq<Container>, c: char, next: Position, s: string) returns (rest: string)
    requires Done(Scanner(at, open), s) && !at.EndTop?
    requires forall x :: x != c ==> Step(Scanner(at, open), x) == Failed
    requires Step(Scanner(at, open), c) == Scanner(next, open)
    ensures s == [c] + rest && Done(Scanner(next, open), rest)
  {
    DoneStep(Scanner(at, open), s);
    rest := s[1..];
  }

  lemma TakeRue(open: seq<Container>, s: string) returns (rest: string)
    requires Done(Scanner(T, open), s)
    ensures s == ['r', 'u', 'e'] + rest && Done(Scanner(EndValue, open), rest)
  {
    var t := TakeLetter(T, open, 'r', Tr, s);
    var u := TakeLetter(Tr, open, 'u', Tru, t);
    rest := TakeLetter(Tru, open, 'e', EndValue, u);
    assert s == ['r'] + (['u'] + (['e'] + rest));
  }

  lemma TakeUll(open: seq<Container>, s: string) returns (rest: string)
    requires Done(Scanner(N, open), s)
    ensures s == ['u', 'l', 'l'] + rest && Done(Scanner(EndValue, open), rest)
  {
    var t := TakeLetter(N, open, 'u', Nu, s);
    var u := TakeLetter(Nu, open, 'l', Nul, t);
    rest := TakeLetter(Nul, open, 'l', EndValue, u);
    assert s == ['u'] + (['l'] + (['l'] + rest));
  }

  lemma TakeAls(open: seq<Container>, s: string) returns (rest: string)
    requires Done(Scanner(F, open), s)
    ensures s == ['a'] + (['l'] + (['s'] + rest)) && Done(Scanner(Fals, open), rest)
  {
    var t := TakeLetter(F, open, 'a', Fa, s);
    var u := TakeLetter(Fa, open, 'l', Fal, t);
    rest := TakeLetter(Fal, open, 's', Fals, u);
  }

  lemma TakeAlse(open: seq<Container>, s: string) returns (rest: string)
    requires Done(Scanner(F, open), s)
    ensures s == ['a', 'l', 's', 'e'] + rest && Done(Scanner(EndValue, open), rest)
  {
    var t := TakeAls(open, s);
    rest := TakeLetter(Fals, open, 'e', EndValue, t);
    assert s == ['a'] + (['l'] + (['s'] + (['e'] + rest)));
  }

  lemma TakeWord(open: seq<Container>, s: string) returns (word: string, rest: string)
    requires Done(Scanner(BeginValue, open), s) && s != "" && (s[0] == 't' || s[0] == 'f' || s[0] == 'n')
    ensures (word == "true" || word == "false" || word == "null") && s == word + rest && Follows(open, rest)
  {
    DoneStep(Scanner(BeginValue, open), s);
    if s[0] == 't' {
      rest := TakeRue(open, s[1..]);
      word := "true";
      assert word == ['t'] + ['r', 'u', 'e'];
    } else if s[0] == 'n' {
      rest := TakeUll(open, s[1..]);
      word := "null";
      assert word == ['n'] + ['u', 'l', 'l'];
    } else {
      rest := TakeAlse(open, s[1..]);
      word := "false";
      assert word == ['f'] + ['a', 'l', 's', 'e'];
    }
    StringEnds(open, rest);
  }

  // ----- Values -----

  lemma PopFollows(open: seq<Container>, inside: Container, rest: string)
    requires Done(Pop(open + [inside]), rest)
    ensures Follows(open, rest)
  {
    assert (open + [inside])[..|open|] == open;
    if open == [] {
      OnlyBlanks(rest);
    }
  }

  lemma {:induction false} TakeValue(open: seq<Container>, s: string) returns (v: Value, rest: string)
    requires Done(Scanner(BeginValue, open), s) && s != "" && !IsBlank(s[0]) && |open| <= MAX_NESTING_DEPTH
    ensures Good(v) && |open| + Depth(v) <= MAX_NESTING_DEPTH
    ensures s == Print(v) + rest && Follows(open, rest)
    decreases |s|, 0
  {
    DoneStep(Scanner(BeginValue, open), s);
    var t := s[1..];
    if s[0] == '"' {
      var chars;
      chars, rest := TakeChars(open, t);
      StringEnds(open, rest);
      v := Text(chars);
      assert Print(v) + rest == ['"'] + (PrintChars(chars) + (['"'] + rest));
    } else if s[0] == '[' {
      v, rest := TakeArray(open, t);
    } else if s[0] == '{' {
      v, rest := TakeObject(open, t);
    } else if s[0] == '-' || IsDigit(s[0]) {
      var n;
      n, rest := TakeNumeral(open, s);
      v := Number(n);
    } else {
      var word;
      word, rest := TakeWord(open, s);
      v := Word(word);
    }
  }

  lemma {:induction false} TakeArray(open: seq<Container>, s: string) returns (v: Value, rest: string)
    requires |open| < MAX_NESTING_DEPTH && Done(Scanner(BeginValueOrEmpty, open + [ArrayValue]), s)
    ensures Good(v) && |open| + Depth(v) <= MAX_NESTING_DEPTH
    ensures ['['] + s == Print(v) + rest && Follows(open, rest)
    decreases |s|, 3
  {
    var inner := open + [ArrayValue];
    var begin := Scanner(BeginValueOrEmpty, inner);
    var pad, t := TakeBlanks(begin, s);
    DoneStep(begin, t);
    if t[0] == ']' {
      v, rest := EmptyArray(pad), t[1..];
      PopFollows(open, ArrayValue, rest);
      assert Print(v) + rest == ['['] + (pad + ([']'] + rest));
    } else {
      NotEmpty(begin, Scanner(BeginValue, inner), pad, t);
      var items;
      items, rest := TakeItems(open, s);
      v := Array(items);
      assert Print(v) + rest == ['['] + (PrintItems(items) + ([']'] + rest));
    }
  }

  lemma {:induction false} TakeObject(open: seq<Container>, s: string) returns (v: Value, rest: string)
    requires |open| < MAX_NESTING_DEPTH && Done(Scanner(BeginStringOrEmpty, open + [ObjectKey]), s)
    ensures Good(v) && |open| + Depth(v) <= MAX_NESTING_DEPTH
    ensures ['{'] + s == Print(v) + rest && Follows(open, rest)
    decreases |s|, 3
  {
    var inner := open + [ObjectKey];
    var begin := Scanner(BeginStringOrEmpty, inner);
    var pad, t := TakeBlanks(begin, s);
    DoneStep(begin, t);
    if t[0] == '}' {
      v, rest := EmptyObject(pad), t[1..];
      assert inner[..|open|] == open;
      PopFollows(open, ObjectValue, rest);
      assert Print(v) + rest == ['{'] + (pad + (['}'] + rest));
    } else {
      NotEmpty(begin, Scanner(BeginString, inner), pad, t);
      var fields;
      fields, rest := TakeFields(open, s);
      v := Object(fields);
      assert Print(v) + rest == ['{'] + (PrintFields(fields) + (['}'] + rest));
    }
  }

  lemma PaddedText(p: Padded, rest: string)
    ensures PrintPadded(p) + rest == p.before + (Print(p.value) + (p.after + rest))
  {
  }

  lemma FieldText(name: Name, p: Padded, rest: string)
    ensures PrintFields(OneField(name, p)) + rest == PrintName(name) + ([':'] + (PrintPadded(p) + rest))
  {
  }

  lemma FieldsText(name: Name, p: Padded, more: Fields, rest: string)
    ensures PrintFields(Fields(name, p, more)) + rest ==
            PrintName(name) + ([':'] + (PrintPadded(p) + ([','] + (PrintFields(more) + rest))))
  {
  }

  lemma {:induction false} TakePadded(open: seq<Container>, s: string) returns (p: Padded, rest: string)
    requires Done(Scanner(BeginValue, open), s) && |open| <= MAX_NESTING_DEPTH
    ensures GoodPadded(p) && |open| + Depth(p.value) <= MAX_NESTING_DEPTH && s == PrintPadded(p) + rest
    ensures |rest| < |s|
    ensures if open == [] then rest == "" else Done(Scanner(EndValue, open), rest) && rest != "" && !IsBlank(rest[0])
    decreases |s|, 1
  {
    var before, t := TakeBlanks(Scanner(BeginValue, open), s);
    DoneStep(Scanner(BeginValue, open), t);
    var v, u := TakeValue(open, t);
    var after;
    if open == [] {
      after, rest := u, "";
      assert u + "" == u;
    } else {
      after, rest := TakeBlanks(Scanner(EndValue, open), u);
      DoneStep(Scanner(EndValue, open), rest);
    }
    p := Padded(before, v, after);
    ValueStart(v);
    PaddedText(p, rest);
  }

  lemma {:induction false} TakeItems(open: seq<Container>, s: string) returns (items: Items, rest: string)
    requires |open| < MAX_NESTING_DEPTH && Done(Scanner(BeginValue, open + [ArrayValue]), s)
    ensures GoodItems(items) && |open| + 1 + DepthItems(items) <= MAX_NESTING_DEPTH
    ensures s == PrintItems(items) + ([']'] + rest) && Follows(open, rest)
    decreases |s|, 2
  {
    var inner := open + [ArrayValue];
    var p, t := TakePadded(inner, s);
    DoneStep(Scanner(EndValue, inner), t);
    if t[0] == ',' {
      var more;
      more, rest := TakeItems(open, t[1..]);
      items := Items(p, more);
      assert PrintItems(items) + ([']'] + rest) == PrintPadded(p) + ([','] + (PrintItems(more) + ([']'] + rest)));
    } else {
      items, rest := OneItem(p), t[1..];
      PopFollows(open, ArrayValue, rest);
    }
  }

  lemma TakeName(open: seq<Container>, s: string) returns (name: Name, rest: string)
    requires Done(Scanner(BeginString, open + [ObjectKey]), s)
    ensures GoodName(name) && s == PrintName(name) + ([':'] + rest)
    ensures Done(Scanner(BeginValue, open + [ObjectValue]), rest)
  {
    var key := open + [ObjectKey];
    var before, t := TakeBlanks(Scanner(BeginString, key), s);
    DoneStep(Scanner(BeginString, key), t);
    var chars, u := TakeChars(key, t[1..]);
    var after, w := TakeBlanks(Scanner(EndValue, key), u);
    DoneStep(Scanner(EndValue, key), w);
    assert key[..|open|] == open;
    name, rest := Name(before, chars, after), w[1..];
    assert w == [':'] + rest;
    NameFirst(name, [':'] + rest);
  }

  lemma {:induction false} TakeFields(open: seq<Container>, s: string) returns (fields: Fields, rest: string)
    requires |open| < MAX_NESTING_DEPTH && Done(Scanner(BeginString, open + [ObjectKey]), s)
    ensures GoodFields(fields) && |open| + 1 + DepthFields(fields) <= MAX_NESTING_DEPTH
    ensures s == PrintFields(fields) + (['}'] + rest) && Follows(open, rest)
    decreases |s|, 2
  {
    var val := open + [ObjectValue];
    var name, t := TakeName(open, s);
    var p, u := TakePadded(val, t);
    DoneStep(Scanner(EndValue, val), u);
    assert val[..|open|] == open;
    if u[0] == ',' {
      var more;
      more, rest := TakeFields(open, u[1..]);
      fields := Fields(name, p, more);
      FieldsText(name, p, more, ['}'] + rest);
    } else {
      fields, rest := OneField(name, p), u[1..];
      FieldText(name, p, ['}'] + rest);
      PopFollows(open, ObjectValue, rest);
    }
  }

  // ----- The scanner decides the grammar -----

  lemma LastOfTail(a: string, b: string)
    requires b != ""
    ensures (a + b)[|a + b| - 1] == b[|b| - 1]
  {
  }

  lemma NumeralLast(n: Numeral)
    requires GoodNumeral(n)
    ensures PrintNumeral(n) != "" && IsDigit(PrintNumeral(n)[|PrintNumeral(n)| - 1])
  {
    var sign, tail := if n.minus then "-" else "", n.mark + n.exp;
    LastOfTail(sign, n.whole);
    assert IsDigit(n.whole[|n.whole| - 1]);
    if n.exp != "" {
      LastOfTail(n.mark, n.exp);
      LastOfTail(n.frac, tail);
    } else if n.frac != "" {
      assert n.frac + tail == n.frac;
      assert n.frac[1..][|n.frac| - 2] == n.frac[|n.frac| - 1];
    } else {
      assert n.whole + (n.frac + tail) == n.whole;
    }
    if n.frac + tail != "" {
      LastOfTail(n.whole, n.frac + tail);
    }
    LastOfTail(sign, n.whole + (n.frac + tail));
  }

  lemma ValueLast(v: Value)
    requires Good(v)
    ensures Print(v) != "" && !IsBlank(Print(v)[|Print(v)| - 1])
  {
    if v.Number? {
      NumeralLast(v.n);
    }
  }

  /** The characters that documents are made of. */
  lemma CharacterClasses(c: char)
    ensures IsBlank(c) <==> c in " \t\n\r"
    ensures IsDigit(c) <==> c in "0123456789"
    ensures IsHex(c) <==> c in "0123456789abcdefABCDEF"
    ensures IsPlain(c) <==> c >= ' ' && c !in "\"\\"
  {
    assert forall d :: d in "0123456789" <==> d in ['0', '1', '2', '3', '4', '5', '6', '7', '8', '9'];
  }

  /** The document prints as the text, and does not nest too deeply. */
  predicate IsDocument(d: Padded, s: string) {
    GoodPadded(d) && Depth(d.value) <= 10000 && PrintPadded(d) == s
  }

  lemma PrintedIsValid(d: Padded, s: string)
    requires IsDocument(d, s)
    ensures Valid(s)
  {
    ScanPadded([], d);
    EndStep(Scan(Scanner(BeginValue, []), s), [], ' ');
  }

  lemma PaddedLast(p: Padded)
    requires GoodPadded(p) && p.after == ""
    ensures PrintPadded(p) != "" && !IsBlank(PrintPadded(p)[|PrintPadded(p)| - 1])
  {
    ValueLast(p.value);
    assert Print(p.value) + "" == Print(p.value);
    LastOfTail(p.before, Print(p.value));
  }

  lemma ValidIsPrinted(s: string) returns (d: Padded)
    requires Valid(s)
    ensures IsDocument(d, s)
  {
    var begin := Scanner(BeginValue, []);
    ScanAppend(begin, s, [' ']);
    ScanOne(Scan(begin, s), ' ');
    var p, rest := TakePadded([], s + [' ']);
    assert s + [' '] == PrintPadded(p);
    if p.after == "" {
      PaddedLast(p);
    }
    var n := |p.after|;
    d := Padded(p.before, p.value, p.after[..n - 1]);
    assert p.after == d.after + [p.after[n - 1]];
    assert PrintPadded(p) == PrintPadded(d) + [p.after[n - 1]];
    assert s == (s + [' '])[..|s|] == PrintPadded(d);
  }

  /** The text is JSON: some document of the grammar prints as it. */
  ghost predicate IsJson(s: string) {
    exists d :: IsDocument(d, s)
  }

  /** What the scanner decides, for every text. */
  lemma ValidIff(s: string)
    ensures Valid(s) <==> IsJson(s)
  {
    if Valid(s) {
      var d := ValidIsPrinted(s);
    }
    if d :| IsDocument(d, s) {
      PrintedIsValid(d, s);
    }
  }
}
