/** What the JSON scanner accepts, said without the scanner: the texts that the grammar of RFC 8259 produces, with
    any white space, escapes and number forms, nested at most as deeply as Go allows. */
module JsonGrammar {
  import opened JsonText

  // ----- The grammar, as a printer of laid-out documents -----

  /** A character of a string: itself, a two-character escape, or four hexadecimal digits. */
  datatype Char = Unescaped(c: char) | Short(c: char) | Unicode(a: char, b: char, c: char, d: char)

  /** Sign, whole part, fraction with its point, exponent with its letter and sign. */
  datatype Numeral = Numeral(minus: bool, whole: string, frac: string, mark: string, exp: string)

  datatype Value =
    | Word(word: string)
    | Number(n: Numeral)
    | Text(chars: seq<Char>)
    | EmptyArray(pad: string)
    | Array(items: Items)
    | EmptyObject(pad: string)
    | Object(fields: Fields)

  /** A value with the white space around it; also a whole document. */
  datatype Padded = Padded(before: string, value: Value, after: string)

  datatype Items = OneItem(item: Padded) | Items(item: Padded, rest: Items)

  datatype Name = Name(before: string, chars: seq<Char>, after: string)

  datatype Fields = OneField(name: Name, item: Padded) | Fields(name: Name, item: Padded, rest: Fields)

  function PrintChar(c: Char): string {
    match c
    case Unescaped(c) => [c]
    case Short(c) => ['\\', c]
    case Unicode(a, b, c, d) => ['\\', 'u', a, b, c, d]
  }

  function PrintChars(chars: seq<Char>): string {
    if chars == [] then "" else PrintChar(chars[0]) + PrintChars(chars[1..])
  }

  function PrintNumeral(n: Numeral): string {
    (if n.minus then "-" else "") + (n.whole + (n.frac + (n.mark + n.exp)))
  }

  function Print(v: Value): string {
    match v
    case Word(word) => word
    case Number(n) => PrintNumeral(n)
    case Text(chars) => ['"'] + (PrintChars(chars) + ['"'])
    case EmptyArray(pad) => ['['] + (pad + [']'])
    case Array(items) => ['['] + (PrintItems(items) + [']'])
    case EmptyObject(pad) => ['{'] + (pad + ['}'])
    case Object(fields) => ['{'] + (PrintFields(fields) + ['}'])
  }

  function PrintPadded(p: Padded): string {
    p.before + (Print(p.value) + p.after)
  }

  function PrintItems(items: Items): string {
    match items
    case OneItem(item) => PrintPadded(item)
    case Items(item, rest) => PrintPadded(item) + ([','] + PrintItems(rest))
  }

  function PrintName(name: Name): string {
    name.before + (['"'] + (PrintChars(name.chars) + (['"'] + name.after)))
  }

  function PrintFields(fields: Fields): string {
    match fields
    case OneField(name, item) => PrintName(name) + ([':'] + PrintPadded(item))
    case Fields(name, item, rest) => PrintName(name) + ([':'] + (PrintPadded(item) + ([','] + PrintFields(rest))))
  }

  predicate Blanks(ws: string) {
    forall i :: 0 <= i < |ws| ==> IsBlank(ws[i])
  }

  predicate AllDigits(s: string) {
    forall i :: 0 <= i < |s| ==> IsDigit(s[i])
  }

  predicate GoodChar(c: Char) {
    match c
    case Unescaped(c) => IsPlain(c)
    case Short(c) => c in "bfnrt\\/\""
    case Unicode(a, b, c, d) => IsHex(a) && IsHex(b) && IsHex(c) && IsHex(d)
  }

  predicate GoodChars(chars: seq<Char>) {
    forall i :: 0 <= i < |chars| ==> GoodChar(chars[i])
  }

  /** The letter of an exponent, and its sign if it has one. */
  predicate GoodMark(mark: string) {
    && mark != "" && (mark[0] == 'e' || mark[0] == 'E')
    && (|mark| == 1 || (|mark| == 2 && (mark[1] == '+' || mark[1] == '-')))
  }

  /** No leading zero; a fraction or exponent, if any, has a digit. */
  predicate GoodNumeral(n: Numeral) {
    && n.whole != "" && AllDigits(n.whole) && (n.whole[0] == '0' ==> |n.whole| == 1)
    && (n.frac != "" ==> |n.frac| > 1 && n.frac[0] == '.' && AllDigits(n.frac[1..]))
    && (n.mark == "" <==> n.exp == "") && AllDigits(n.exp)
    && (n.mark != "" ==> GoodMark(n.mark))
  }

  predicate Good(v: Value) {
    match v
    case Word(word) => word == "true" || word == "false" || word == "null"
    case Number(n) => GoodNumeral(n)
    case Text(chars) => GoodChars(chars)
    case EmptyArray(pad) => Blanks(pad)
    case Array(items) => GoodItems(items)
    case EmptyObject(pad) => Blanks(pad)
    case Object(fields) => GoodFields(fields)
  }

  predicate GoodPadded(p: Padded) {
    Blanks(p.before) && Good(p.value) && Blanks(p.after)
  }

  predicate GoodItems(items: Items) {
    GoodPadded(items.item) && (items.Items? ==> GoodItems(items.rest))
  }

  predicate GoodName(name: Name) {
    Blanks(name.before) && GoodChars(name.chars) && Blanks(name.after)
  }

  predicate GoodFields(fields: Fields) {
    GoodName(fields.name) && GoodPadded(fields.item) && (fields.Fields? ==> GoodFields(fields.rest))
  }

  function Max(a: nat, b: nat): nat {
    if a < b then b else a
  }

  /** How deeply arrays and objects nest. */
  function Depth(v: Value): nat {
    match v
    case EmptyArray(_) => 1
    case Array(items) => 1 + DepthItems(items)
    case EmptyObject(_) => 1
    case Object(fields) => 1 + DepthFields(fields)
    case _ => 0
  }

  function DepthItems(items: Items): nat {
    if items.OneItem? then Depth(items.item.value) else Max(Depth(items.item.value), DepthItems(items.rest))
  }

  function DepthFields(fields: Fields): nat {
    if fields.OneField? then Depth(fields.item.value) else Max(Depth(fields.item.value), DepthFields(fields.rest))
  }

  // ----- Pieces of text that leave a scanner state as it is -----

  lemma ScanCons(sc: Scanner, c: char, rest: string)
    ensures Scan(sc, [c] + rest) == Scan(Step(sc, c), rest)
  {
    assert ([c] + rest)[1..] == rest;
  }

  lemma ScanOne(sc: Scanner, c: char)
    ensures Scan(sc, [c]) == Step(sc, c)
  {
    assert [c][1..] == "";
  }

  lemma {:induction false} FailedStays(s: string)
    ensures Scan(Failed, s) == Failed
  {
    if s == "" {
    } else {
      FailedStays(s[1..]);
    }
  }

  lemma {:induction false} BlanksStay(sc: Scanner, ws: string)
    requires Blanks(ws) && forall c :: IsBlank(c) ==> Step(sc, c) == sc
    ensures Scan(sc, ws) == sc
    decreases |ws|
  {
    if ws == "" {
    } else {
      assert IsBlank(ws[0]);
      BlanksStay(sc, ws[1..]);
    }
  }

  lemma {:induction false} DigitsStay(sc: Scanner, ds: string)
    requires AllDigits(ds) && forall c :: IsDigit(c) ==> Step(sc, c) == sc
    ensures Scan(sc, ds) == sc
    decreases |ds|
  {
    if ds == "" {
    } else {
      assert IsDigit(ds[0]);
      DigitsStay(sc, ds[1..]);
    }
  }

  // ----- The end of a value -----

  /** A value has just been read inside `open`.  A number may still go on. */
  predicate AtEnd(sc: Scanner, open: seq<Container>) {
    && sc.Scanner? && sc.open == open
    && (sc.at.EndValue? || sc.at.Zero? || sc.at.Digits? || sc.at.Dot0? || sc.at.Exp0? || (open == [] && sc.at.EndTop?))
  }

  predicate GoesOn(c: char) {
    IsDigit(c) || c == '.' || c == 'e' || c == 'E'
  }

  lemma EndStep(sc: Scanner, open: seq<Container>, c: char)
    requires AtEnd(sc, open) && !GoesOn(c)
    ensures Step(sc, c) == StepEndValue(open, c)
  {
  }

  lemma {:induction false} EndBlanks(sc: Scanner, open: seq<Container>, ws: string)
    requires AtEnd(sc, open) && Blanks(ws)
    ensures AtEnd(Scan(sc, ws), open)
    decreases |ws|
  {
    if ws == "" {
    } else {
      assert IsBlank(ws[0]);
      EndStep(sc, open, ws[0]);
      EndBlanks(Step(sc, ws[0]), open, ws[1..]);
    }
  }

  // ----- Every printed document is accepted -----

  lemma {:induction false} ScanChars(open: seq<Container>, chars: seq<Char>)
    requires GoodChars(chars)
    ensures Scan(Scanner(InString, open), PrintChars(chars)) == Scanner(InString, open)
    decreases |chars|
  {
    if chars == [] {
    } else {
      ScanChar(open, chars[0]);
      ScanAppend(Scanner(InString, open), PrintChar(chars[0]), PrintChars(chars[1..]));
      ScanChars(open, chars[1..]);
    }
  }

  lemma ScanChar(open: seq<Container>, c: Char)
    requires GoodChar(c)
    ensures Scan(Scanner(InString, open), PrintChar(c)) == Scanner(InString, open)
  {
    match c
    case Unescaped(x) => ScanOne(Scanner(InString, open), x);
    case Short(x) =>
      assert ['\\', x] == ['\\'] + [x];
      ScanCons(Scanner(InString, open), '\\', [x]);
      ScanOne(Scanner(InStringEsc, open), x);
    case Unicode(w, x, y, z) => ScanUnicode(open, w, x, y, z);
  }

  lemma ScanEscU(open: seq<Container>)
    ensures Scan(Scanner(InString, open), ['\\'] + ['u']) == Scanner(EscU, open)
  {
    ScanCons(Scanner(InString, open), '\\', ['u']);
    ScanOne(Scanner(InStringEsc, open), 'u');
  }

  lemma ScanTwoHex(open: seq<Container>, a: char, b: char)
    requires IsHex(a) && IsHex(b)
    ensures Scan(Scanner(EscU, open), [a] + [b]) == Scanner(EscU12, open)
    ensures Scan(Scanner(EscU12, open), [a] + [b]) == Scanner(InString, open)
  {
    ScanCons(Scanner(EscU, open), a, [b]);
    ScanOne(Scanner(EscU1, open), b);
    ScanCons(Scanner(EscU12, open), a, [b]);
    ScanOne(Scanner(EscU123, open), b);
  }

  lemma ScanThree(sc: Scanner, a: string, b: string, c: string)
    ensures Scan(sc, a + (b + c)) == Scan(Scan(Scan(sc, a), b), c)
  {
    ScanAppend(sc, a, b + c);
    ScanAppend(Scan(sc, a), b, c);
  }

  lemma ScanUnicode(open: seq<Container>, a: char, b: char, c: char, d: char)
    requires IsHex(a) && IsHex(b) && IsHex(c) && IsHex(d)
    ensures Scan(Scanner(InString, open), ['\\', 'u', a, b, c, d]) == Scanner(InString, open)
  {
    assert ['\\', 'u', a, b, c, d] == (['\\'] + ['u']) + (([a] + [b]) + ([c] + [d]));
    ScanThree(Scanner(InString, open), ['\\'] + ['u'], [a] + [b], [c] + [d]);
    ScanEscU(open);
    ScanTwoHex(open, a, b);
    ScanTwoHex(open, c, d);
  }

  /** The state after the whole part of a number. */
  function WholeEnd(open: seq<Container>, whole: string): Scanner
    requires whole != ""
  {
    Scanner(if whole[0] == '0' then Zero else Digits, open)
  }

  /** From `first`, which is the start of a value or the place after its minus sign. */
  lemma ScanWholeFrom(first: Scanner, whole: string)
    requires first.Scanner? && (first.at.BeginValue? || first.at.Neg?)
    requires whole != "" && AllDigits(whole) && (whole[0] == '0' ==> |whole| == 1)
    ensures Scan(first, whole) == WholeEnd(first.open, whole)
  {
    assert IsDigit(whole[0]) && whole == [whole[0]] + whole[1..];
    ScanCons(first, whole[0], whole[1..]);
    FirstDigit(first, whole[0]);
    if whole[0] == '0' {
      assert whole[1..] == "";
    } else {
      DigitsStay(Scanner(Digits, first.open), whole[1..]);
    }
  }

  lemma FirstDigit(first: Scanner, c: char)
    requires first.Scanner? && (first.at.BeginValue? || first.at.Neg?) && IsDigit(c)
    ensures Step(first, c) == Scanner(if c == '0' then Zero else Digits, first.open)
  {
  }

  lemma ScanWhole(open: seq<Container>, minus: bool, whole: string)
    requires whole != "" && AllDigits(whole) && (whole[0] == '0' ==> |whole| == 1)
    ensures Scan(Scanner(BeginValue, open), (if minus then "-" else "") + whole) == WholeEnd(open, whole)
  {
    if minus {
      assert "-" + whole == ['-'] + whole;
      ScanCons(Scanner(BeginValue, open), '-', whole);
      ScanWholeFrom(Scanner(Neg, open), whole);
    } else {
      assert "" + whole == whole;
      ScanWholeFrom(Scanner(BeginValue, open), whole);
    }
  }

  lemma ScanPoint(sc: Scanner, d: char)
    requires sc.Scanner? && (sc.at.Zero? || sc.at.Digits?) && IsDigit(d)
    ensures Scan(sc, ['.'] + [d]) == Scanner(Dot0, sc.open)
  {
    ScanCons(sc, '.', [d]);
    ScanOne(Scanner(Dot, sc.open), d);
  }

  lemma ScanFrac(sc: Scanner, frac: string)
    requires sc.Scanner? && (sc.at.Zero? || sc.at.Digits?)
    requires frac != "" ==> |frac| > 1 && frac[0] == '.' && AllDigits(frac[1..])
    ensures Scan(sc, frac) == if frac == "" then sc else Scanner(Dot0, sc.open)
  {
    if frac == "" {
    } else {
      var ds := frac[2..];
      assert frac == (['.'] + [frac[1]]) + ds && frac[1..][0] == frac[1];
      assert forall i :: 0 <= i < |ds| ==> ds[i] == frac[1..][i + 1];
      ScanPoint(sc, frac[1]);
      ScanAppend(sc, ['.'] + [frac[1]], ds);
      DigitsStay(Scanner(Dot0, sc.open), ds);
    }
  }

  lemma ScanMark(sc: Scanner, mark: string)
    requires sc.Scanner? && (sc.at.Zero? || sc.at.Digits? || sc.at.Dot0?) && GoodMark(mark)
    ensures Scan(sc, mark) == Scanner(if |mark| == 1 then Exp else ExpSign, sc.open)
  {
    if |mark| == 1 {
      assert mark == [mark[0]];
      ScanOne(sc, mark[0]);
    } else {
      assert mark == [mark[0]] + [mark[1]];
      ScanCons(sc, mark[0], [mark[1]]);
      ScanOne(Scanner(Exp, sc.open), mark[1]);
    }
  }

  lemma ScanExpDigits(sc: Scanner, exp: string)
    requires sc.Scanner? && (sc.at.Exp? || sc.at.ExpSign?) && exp != "" && AllDigits(exp)
    ensures Scan(sc, exp) == Scanner(Exp0, sc.open)
  {
    assert IsDigit(exp[0]) && exp == [exp[0]] + exp[1..];
    ScanCons(sc, exp[0], exp[1..]);
    DigitsStay(Scanner(Exp0, sc.open), exp[1..]);
  }

  lemma ScanExp(sc: Scanner, mark: string, exp: string)
    requires sc.Scanner? && (sc.at.Zero? || sc.at.Digits? || sc.at.Dot0?)
    requires (mark == "" <==> exp == "") && AllDigits(exp) && (mark != "" ==> GoodMark(mark))
    ensures Scan(sc, mark + exp) == if mark == "" then sc else Scanner(Exp0, sc.open)
  {
    if mark == "" {
      assert mark + exp == "";
    } else {
      ScanMark(sc, mark);
      ScanAppend(sc, mark, exp);
      ScanExpDigits(Scan(sc, mark), exp);
    }
  }

  lemma ScanNumeral(open: seq<Container>, n: Numeral)
    requires GoodNumeral(n)
    ensures AtEnd(Scan(Scanner(BeginValue, open), PrintNumeral(n)), open)
  {
    var head, tail := (if n.minus then "-" else "") + n.whole, n.mark + n.exp;
    assert PrintNumeral(n) == head + (n.frac + tail);
    ScanWhole(open, n.minus, n.whole);
    ScanFrac(WholeEnd(open, n.whole), n.frac);
    ScanExp(if n.frac == "" then WholeEnd(open, n.whole) else Scanner(Dot0, open), n.mark, n.exp);
    ScanThree(Scanner(BeginValue, open), head, n.frac, tail);
  }

  lemma ScanTrue(open: seq<Container>)
    ensures Scan(Scanner(BeginValue, open), ['t'] + (['r'] + (['u'] + ['e']))) == Scanner(EndValue, open)
  {
    ScanCons(Scanner(BeginValue, open), 't', ['r'] + (['u'] + ['e']));
    ScanCons(Scanner(T, open), 'r', ['u'] + ['e']);
    ScanCons(Scanner(Tr, open), 'u', ['e']);
    ScanOne(Scanner(Tru, open), 'e');
  }

  lemma ScanLse(open: seq<Container>)
    ensures Scan(Scanner(Fa, open), ['l'] + (['s'] + ['e'])) == Scanner(EndValue, open)
  {
    ScanCons(Scanner(Fa, open), 'l', ['s'] + ['e']);
    ScanCons(Scanner(Fal, open), 's', ['e']);
    ScanOne(Scanner(Fals, open), 'e');
  }

  lemma ScanFalse(open: seq<Container>)
    ensures Scan(Scanner(BeginValue, open), ['f'] + (['a'] + (['l'] + (['s'] + ['e'])))) == Scanner(EndValue, open)
  {
    ScanCons(Scanner(BeginValue, open), 'f', ['a'] + (['l'] + (['s'] + ['e'])));
    ScanCons(Scanner(F, open), 'a', ['l'] + (['s'] + ['e']));
    ScanLse(open);
  }

  lemma ScanNull(open: seq<Container>)
    ensures Scan(Scanner(BeginValue, open), ['n'] + (['u'] + (['l'] + ['l']))) == Scanner(EndValue, open)
  {
    ScanCons(Scanner(BeginValue, open), 'n', ['u'] + (['l'] + ['l']));
    ScanCons(Scanner(N, open), 'u', ['l'] + ['l']);
    ScanCons(Scanner(Nu, open), 'l', ['l']);
    ScanOne(Scanner(Nul, open), 'l');
  }

  lemma Letters(word: string)
    ensures word == "true" ==> word == ['t'] + (['r'] + (['u'] + ['e']))
    ensures word == "false" ==> word == ['f'] + (['a'] + (['l'] + (['s'] + ['e'])))
    ensures word == "null" ==> word == ['n'] + (['u'] + (['l'] + ['l']))
  {
  }

  lemma ScanWord(open: seq<Container>, word: string)
    requires word == "true" || word == "false" || word == "null"
    ensures Scan(Scanner(BeginValue, open), word) == Scanner(EndValue, open)
  {
    Letters(word);
    ScanTrue(open);
    ScanFalse(open);
    ScanNull(open);
  }

  lemma ValueStart(v: Value)
    requires Good(v)
    ensures Print(v) != "" && !IsBlank(Print(v)[0]) && Print(v)[0] != ']' && Print(v)[0] != '}'
  {
    if v.Number? {
      assert IsDigit(v.n.whole[0]);
      assert PrintNumeral(v.n)[0] == if v.n.minus then '-' else v.n.whole[0];
    }
  }

  /** At the front of an array or object, text that is not its end is read as inside it. */
  lemma {:induction false} NotEmpty(sc: Scanner, inside: Scanner, ws: string, t: string)
    requires sc.Scanner? && sc.open != [] && Blanks(ws) && t != "" && !IsBlank(t[0])
    requires
      || (sc.at.BeginValueOrEmpty? && inside == Scanner(BeginValue, sc.open) && t[0] != ']')
      || (sc.at.BeginStringOrEmpty? && inside == Scanner(BeginString, sc.open) && t[0] != '}')
    ensures Scan(sc, ws + t) == Scan(inside, ws + t)
    decreases |ws|
  {
    if ws == "" {
      assert ws + t == t;
    } else {
      assert IsBlank(ws[0]);
      assert (ws + t)[1..] == ws[1..] + t;
      NotEmpty(sc, inside, ws[1..], t);
    }
  }

  lemma {:induction false} ScanValue(open: seq<Container>, v: Value)
    requires Good(v) && |open| + Depth(v) <= MAX_NESTING_DEPTH
    ensures AtEnd(Scan(Scanner(BeginValue, open), Print(v)), open)
    decreases v
  {
    var begin := Scanner(BeginValue, open);
    match v
    case Word(word) => ScanWord(open, word);
    case Number(n) => ScanNumeral(open, n);
    case Text(chars) =>
      ScanCons(begin, '"', PrintChars(chars) + ['"']);
      ScanChars(open, chars);
      ScanAppend(Scanner(InString, open), PrintChars(chars), ['"']);
      ScanOne(Scanner(InString, open), '"');
    case EmptyArray(pad) => ScanEmpty(open, pad, '[', ']', ArrayValue, BeginValueOrEmpty);
    case EmptyObject(pad) => ScanEmpty(open, pad, '{', '}', ObjectKey, BeginStringOrEmpty);
    case Array(items) =>
      var inner := open + [ArrayValue];
      ScanCons(begin, '[', PrintItems(items) + [']']);
      ScanItems(inner, items);
      FirstItem(inner, items);
      ScanAppend(Scanner(BeginValueOrEmpty, inner), PrintItems(items), [']']);
      CloseArray(Scan(Scanner(BeginValue, inner), PrintItems(items)), open);
    case Object(fields) =>
      var inner := open + [ObjectKey];
      ScanCons(begin, '{', PrintFields(fields) + ['}']);
      ScanFields(open, fields);
      FirstField(inner, fields);
      ScanAppend(Scanner(BeginStringOrEmpty, inner), PrintFields(fields), ['}']);
      CloseObject(Scan(Scanner(BeginString, inner), PrintFields(fields)), open);
  }

  lemma CloseArray(sc: Scanner, open: seq<Container>)
    requires AtEnd(sc, open + [ArrayValue])
    ensures AtEnd(Scan(sc, [']']), open)
  {
    EndStep(sc, open + [ArrayValue], ']');
    ScanOne(sc, ']');
    assert (open + [ArrayValue])[..|open|] == open;
  }

  lemma CloseObject(sc: Scanner, open: seq<Container>)
    requires AtEnd(sc, open + [ObjectValue])
    ensures AtEnd(Scan(sc, ['}']), open)
  {
    EndStep(sc, open + [ObjectValue], '}');
    ScanOne(sc, '}');
    assert (open + [ObjectValue])[..|open|] == open;
  }

  lemma ScanEmpty(open: seq<Container>, pad: string, l: char, r: char, inside: Container, next: Position)
    requires |open| < MAX_NESTING_DEPTH && Blanks(pad)
    requires
      || (l == '[' && r == ']' && inside == ArrayValue && next == BeginValueOrEmpty)
      || (l == '{' && r == '}' && inside == ObjectKey && next == BeginStringOrEmpty)
    ensures AtEnd(Scan(Scanner(BeginValue, open), [l] + (pad + [r])), open)
  {
    var inner := Scanner(next, open + [inside]);
    ScanCons(Scanner(BeginValue, open), l, pad + [r]);
    ScanAppend(inner, pad, [r]);
    BlanksStay(inner, pad);
    ScanOne(inner, r);
    assert (open + [inside])[..|open|] == open;
    assert (open + [ObjectValue])[..|open|] == open;
  }

  lemma {:induction false} ScanPadded(open: seq<Container>, p: Padded)
    requires GoodPadded(p) && |open| + Depth(p.value) <= MAX_NESTING_DEPTH
    ensures AtEnd(Scan(Scanner(BeginValue, open), PrintPadded(p)), open)
    decreases p
  {
    var begin := Scanner(BeginValue, open);
    BlanksStay(begin, p.before);
    ScanAppend(begin, p.before, Print(p.value) + p.after);
    ScanAppend(begin, Print(p.value), p.after);
    ScanValue(open, p.value);
    EndBlanks(Scan(begin, Print(p.value)), open, p.after);
  }

  lemma {:induction false} ScanItems(inner: seq<Container>, items: Items)
    requires inner != [] && inner[|inner| - 1] == ArrayValue
    requires GoodItems(items) && |inner| + DepthItems(items) <= MAX_NESTING_DEPTH
    ensures AtEnd(Scan(Scanner(BeginValue, inner), PrintItems(items)), inner)
    decreases items
  {
    var begin := Scanner(BeginValue, inner);
    ScanPadded(inner, items.item);
    if items.Items? {
      var end := Scan(begin, PrintPadded(items.item));
      ScanAppend(begin, PrintPadded(items.item), [','] + PrintItems(items.rest));
      ScanCons(end, ',', PrintItems(items.rest));
      EndStep(end, inner, ',');
      ScanItems(inner, items.rest);
    }
  }

  lemma FirstItem(inner: seq<Container>, items: Items)
    requires inner != [] && GoodItems(items)
    ensures Scan(Scanner(BeginValueOrEmpty, inner), PrintItems(items)) ==
            Scan(Scanner(BeginValue, inner), PrintItems(items))
  {
    var p := items.item;
    var tail := if items.OneItem? then "" else [','] + PrintItems(items.rest);
    var t := Print(p.value) + (p.after + tail);
    ValueStart(p.value);
    assert t[0] == Print(p.value)[0];
    assert PrintItems(items) == p.before + t;
    NotEmpty(Scanner(BeginValueOrEmpty, inner), Scanner(BeginValue, inner), p.before, t);
  }

  lemma ScanName(outer: seq<Container>, name: Name)
    requires GoodName(name)
    ensures Scan(Scanner(BeginString, outer + [ObjectKey]), PrintName(name)) == Scanner(EndValue, outer + [ObjectKey])
  {
    var open := outer + [ObjectKey];
    var begin, inside, end := Scanner(BeginString, open), Scanner(InString, open), Scanner(EndValue, open);
    var quoted := PrintChars(name.chars) + (['"'] + name.after);
    BlanksStay(begin, name.before);
    ScanAppend(begin, name.before, ['"'] + quoted);
    ScanCons(begin, '"', quoted);
    ScanAppend(inside, PrintChars(name.chars), ['"'] + name.after);
    ScanChars(open, name.chars);
    ScanCons(inside, '"', name.after);
    BlanksStay(end, name.after);
  }

  lemma ScanToItem(outer: seq<Container>, name: Name, body: string)
    requires GoodName(name)
    ensures Scan(Scanner(BeginString, outer + [ObjectKey]), PrintName(name) + ([':'] + body)) ==
            Scan(Scanner(BeginValue, outer + [ObjectValue]), body)
  {
    var key := outer + [ObjectKey];
    assert key[..|outer|] == outer;
    ScanName(outer, name);
    ScanAppend(Scanner(BeginString, key), PrintName(name), [':'] + body);
    ScanCons(Scanner(EndValue, key), ':', body);
  }

  lemma {:induction false} ScanFields(outer: seq<Container>, fields: Fields)
    requires GoodFields(fields) && |outer| + 1 + DepthFields(fields) <= MAX_NESTING_DEPTH
    ensures AtEnd(Scan(Scanner(BeginString, outer + [ObjectKey]), PrintFields(fields)), outer + [ObjectValue])
    decreases fields
  {
    var val := outer + [ObjectValue];
    var tail := if fields.OneField? then "" else [','] + PrintFields(fields.rest);
    var body := PrintPadded(fields.item) + tail;
    assert PrintFields(fields) == PrintName(fields.name) + ([':'] + body) by {
      assert PrintPadded(fields.item) + "" == PrintPadded(fields.item);
    }
    assert val[..|outer|] == outer;
    ScanToItem(outer, fields.name, body);
    ScanPadded(val, fields.item);
    var end := Scan(Scanner(BeginValue, val), PrintPadded(fields.item));
    ScanAppend(Scanner(BeginValue, val), PrintPadded(fields.item), tail);
    if fields.Fields? {
      ScanCons(end, ',', PrintFields(fields.rest));
      EndStep(end, val, ',');
      ScanFields(outer, fields.rest);
    }
  }

  lemma NameFirst(name: Name, tail: string)
    ensures PrintName(name) + tail ==
            name.before + (['"'] + (PrintChars(name.chars) + (['"'] + (name.after + tail))))
  {
    var chars := PrintChars(name.chars);
    assert (['"'] + name.after) + tail == ['"'] + (name.after + tail);
    assert (chars + (['"'] + name.after)) + tail == chars + ((['"'] + name.after) + tail);
  }

  lemma FirstField(inner: seq<Container>, fields: Fields)
    requires inner != [] && GoodFields(fields)
    ensures Scan(Scanner(BeginStringOrEmpty, inner), PrintFields(fields)) ==
            Scan(Scanner(BeginString, inner), PrintFields(fields))
  {
    var name := fields.name;
    var tail := if fields.OneField? then [':'] + PrintPadded(fields.item)
                else [':'] + (PrintPadded(fields.item) + ([','] + PrintFields(fields.rest)));
    NameFirst(name, tail);
    var t := ['"'] + (PrintChars(name.chars) + (['"'] + (name.after + tail)));
    NotEmpty(Scanner(BeginStringOrEmpty, inner), Scanner(BeginString, inner), name.before, t);
  }
}
