/** json.Valid: the scanner of Go's encoding/json, one byte at a time with a stack of open containers
    (the grammar of RFC 8259). */
module JsonText {
  import opened CustomerTag

  const MAX_NESTING_DEPTH: nat := 10000

  datatype Container = ObjectKey | ObjectValue | ArrayValue

  datatype Position =
    | BeginValue | BeginValueOrEmpty | BeginString | BeginStringOrEmpty | EndValue | EndTop
    | InString | InStringEsc | EscU | EscU1 | EscU12 | EscU123
    | Neg | Zero | Digits | Dot | Dot0 | Exp | ExpSign | Exp0
    | T | Tr | Tru | F | Fa | Fal | Fals | N | Nu | Nul

  datatype Scanner = Scanner(at: Position, open: seq<Container>) | Failed

  predicate IsBlank(c: char) {
    c == ' ' || c == '\t' || c == '\r' || c == '\n'
  }

  predicate IsDigit(c: char) {
    '0' <= c <= '9'
  }

  predicate IsHex(c: char) {
    IsDigit(c) || 'a' <= c <= 'f' || 'A' <= c <= 'F'
  }

  /** A byte that stands for itself inside a string literal. */
  predicate IsPlain(c: char) {
    c != '"' && c != '\\' && c >= ' '
  }

  function Push(open: seq<Container>, c: Container, next: Position): Scanner {
    if |open| < MAX_NESTING_DEPTH then Scanner(next, open + [c]) else Failed
  }

  function Pop(open: seq<Container>): Scanner
    requires open != []
  {
    var rest := open[..|open| - 1];
    Scanner(if rest == [] then EndTop else EndValue, rest)
  }

  function StepEndTop(c: char): Scanner {
    if IsBlank(c) then Scanner(EndTop, []) else Failed
  }

  function StepEndValue(open: seq<Container>, c: char): Scanner {
    if open == [] then StepEndTop(c)
    else if IsBlank(c) then Scanner(EndValue, open)
    else
      var outer := open[..|open| - 1];
      match open[|open| - 1]
      case ObjectKey => if c == ':' then Scanner(BeginValue, outer + [ObjectValue]) else Failed
      case ObjectValue =>
        if c == ',' then Scanner(BeginString, outer + [ObjectKey])
        else if c == '}' then Pop(open)
        else Failed
      case ArrayValue =>
        if c == ',' then Scanner(BeginValue, open) else if c == ']' then Pop(open) else Failed
  }

  function StepBeginValue(open: seq<Container>, c: char): Scanner {
    if IsBlank(c) then Scanner(BeginValue, open)
    else if c == '{' then Push(open, ObjectKey, BeginStringOrEmpty)
    else if c == '[' then Push(open, ArrayValue, BeginValueOrEmpty)
    else if c == '"' then Scanner(InString, open)
    else if c == '-' then Scanner(Neg, open)
    else if c == '0' then Scanner(Zero, open)
    else if IsDigit(c) then Scanner(Digits, open)
    else if c == 't' then Scanner(T, open)
    else if c == 'f' then Scanner(F, open)
    else if c == 'n' then Scanner(N, open)
    else Failed
  }

  function StepBeginString(open: seq<Container>, c: char): Scanner {
    if IsBlank(c) then Scanner(BeginString, open)
    else if c == '"' then Scanner(InString, open)
    else Failed
  }

  function StepZero(open: seq<Container>, c: char): Scanner {
    if c == '.' then Scanner(Dot, open)
    else if c == 'e' || c == 'E' then Scanner(Exp, open)
    else StepEndValue(open, c)
  }

  function Expect(open: seq<Container>, ok: bool, next: Position): Scanner {
    if ok then Scanner(next, open) else Failed
  }

  function Step(sc: Scanner, c: char): Scanner {
    if sc.Failed? then Failed
    else
      var open := sc.open;
      match sc.at
      case BeginValue => StepBeginValue(open, c)
      case BeginValueOrEmpty =>
        if IsBlank(c) then sc else if c == ']' then StepEndValue(open, c) else StepBeginValue(open, c)
      case BeginString => StepBeginString(open, c)
      case BeginStringOrEmpty =>
        if IsBlank(c) then sc
        else if c == '}' && open != [] then StepEndValue(open[..|open| - 1] + [ObjectValue], c)
        else StepBeginString(open, c)
      case EndValue => StepEndValue(open, c)
      case EndTop => StepEndTop(c)
      case InString =>
        if c == '"' then Scanner(EndValue, open)
        else if c == '\\' then Scanner(InStringEsc, open)
        else if c < ' ' then Failed
        else sc
      case InStringEsc =>
        if c in "bfnrt\\/\"" then Scanner(InString, open) else Expect(open, c == 'u', EscU)
      case EscU => Expect(open, IsHex(c), EscU1)
      case EscU1 => Expect(open, IsHex(c), EscU12)
      case EscU12 => Expect(open, IsHex(c), EscU123)
      case EscU123 => Expect(open, IsHex(c), InString)
      case Neg => if c == '0' then Scanner(Zero, open) else Expect(open, IsDigit(c), Digits)
      case Digits => if IsDigit(c) then sc else StepZero(open, c)
      case Zero => StepZero(open, c)
      case Dot => Expect(open, IsDigit(c), Dot0)
      case Dot0 =>
        if IsDigit(c) then sc
        else if c == 'e' || c == 'E' then Scanner(Exp, open)
        else StepEndValue(open, c)
      case Exp => if c == '+' || c == '-' then Scanner(ExpSign, open) else Expect(open, IsDigit(c), Exp0)
      case ExpSign => Expect(open, IsDigit(c), Exp0)
      case Exp0 => if IsDigit(c) then sc else StepEndValue(open, c)
      case T => Expect(open, c == 'r', Tr)
      case Tr => Expect(open, c == 'u', Tru)
      case Tru => Expect(open, c == 'e', EndValue)
      case F => Expect(open, c == 'a', Fa)
      case Fa => Expect(open, c == 'l', Fal)
      case Fal => Expect(open, c == 's', Fals)
      case Fals => Expect(open, c == 'e', EndValue)
      case N => Expect(open, c == 'u', Nu)
      case Nu => Expect(open, c == 'l', Nul)
      case Nul => Expect(open, c == 'l', EndValue)
  }

  function Scan(sc: Scanner, s: string): Scanner
    decreases |s|
  {
    if s == "" then sc else Scan(Step(sc, s[0]), s[1..])
  }

  /** The input may end here: the top value is complete, or one blank completes it. */
  predicate AcceptsEnd(sc: Scanner) {
    sc.Scanner? && (sc.at.EndTop? || (Step(sc, ' ').Scanner? && Step(sc, ' ').at.EndTop?))
  }

  predicate Valid(s: string) {
    AcceptsEnd(Scan(Scanner(BeginValue, []), s))
  }

  /** Everything but the plain bytes of string literals: the structure, every quote and every escape. */
  function Skeleton(sc: Scanner, s: string): string
    decreases |s|
  {
    if s == "" then ""
    else
      var rest := Skeleton(Step(sc, s[0]), s[1..]);
      if sc.Failed? || (sc.at.InString? && IsPlain(s[0])) then rest else [s[0]] + rest
  }

  // ----- Masking customer tags and JSON -----

  lemma {:induction false} ScanAppend(sc: Scanner, a: string, b: string)
    ensures Scan(sc, a + b) == Scan(Scan(sc, a), b)
    ensures Skeleton(sc, a + b) == Skeleton(sc, a) + Skeleton(Scan(sc, a), b)
    decreases |a|
  {
    if a == "" {
      assert a + b == b;
    } else {
      assert (a + b)[1..] == a[1..] + b;
      ScanAppend(Step(sc, a[0]), a[1..], b);
    }
  }

  /** Inside a string literal, or after an error, plain text moves nothing. */
  lemma {:induction false} PlainTextStays(sc: Scanner, s: string)
    requires sc.Failed? || sc.at.InString?
    requires forall c :: c in s ==> IsPlain(c)
    ensures Scan(sc, s) == sc && Skeleton(sc, s) == ""
    decreases |s|
  {
    if s == "" {
    } else {
      assert s[0] in s;
      PlainTextStays(Step(sc, s[0]), s[1..]);
    }
  }

  lemma OnlyStringsReadCU(sc: Scanner)
    ensures Step(Step(sc, 'c'), 'u').Failed? || Step(Step(sc, 'c'), 'u').at.InString?
  {
  }

  lemma ScanTwo(sc: Scanner, c: char, d: char, rest: string)
    ensures Scan(sc, [c, d] + rest) == Scan(Step(Step(sc, c), d), rest)
  {
  }

  lemma AfterCU(sc: Scanner, rest: string)
    requires forall c :: c in rest ==> IsPlain(c)
    ensures var end := Scan(sc, ['c', 'u'] + rest);
            end.Failed? || end.at.InString?
  {
    OnlyStringsReadCU(sc);
    ScanTwo(sc, 'c', 'u', rest);
    PlainTextStays(Step(Step(sc, 'c'), 'u'), rest);
  }

  lemma TagLetters(tag: string)
    requires tag == TAG
    ensures tag == ['c', 'u'] + tag[2..] && forall c :: c in tag[2..] ==> IsPlain(c)
  {
  }

  /** "customer:" can only be read inside a string literal: anywhere else it is an error.  Its first
      letter may be the last digit of a \u escape. */
  lemma TagIsInString(sc: Scanner, tag: string)
    requires tag == TAG
    ensures Scan(sc, tag).Failed? || Scan(sc, tag).at.InString?
  {
    TagLetters(tag);
    AfterCU(sc, tag[2..]);
  }

  /** Whatever plain value follows text that ends inside a string literal, the scan goes on as if it
      were not there. */
  lemma PlainValueIsPassive(sc: Scanner, front: string, v: string, rest: string)
    requires Scan(sc, front).Failed? || Scan(sc, front).at.InString?
    requires forall c :: c in v ==> IsPlain(c)
    ensures Scan(sc, front + v + rest) == Scan(Scan(sc, front), rest)
    ensures Skeleton(sc, front + v + rest) == Skeleton(sc, front) + Skeleton(Scan(sc, front), rest)
  {
    PlainTextStays(Scan(sc, front), v);
    ScanAppend(sc, front, v);
    ScanAppend(sc, front + v, rest);
    assert Skeleton(sc, front) + "" == Skeleton(sc, front);
  }

  lemma SameAfterTag(sc: Scanner, s: string, masked: string)
    requires StartsTag(s)
    requires Scan(Scan(sc, s[..|TAG|]), masked) == Scan(Scan(sc, s[..|TAG|]), AfterTag(s))
    requires Skeleton(Scan(sc, s[..|TAG|]), masked) == Skeleton(Scan(sc, s[..|TAG|]), AfterTag(s))
    ensures Scan(sc, TAG + MASK + masked) == Scan(sc, s)
    ensures Skeleton(sc, TAG + MASK + masked) == Skeleton(sc, s)
  {
    var front := s[..|TAG|];
    TagParts(s);
    TagIsInString(sc, front);
    PlainValueIsPassive(sc, front, TagValue(s), AfterTag(s));
    PlainValueIsPassive(sc, front, MASK, masked);
  }

  lemma SameAfterByte(sc: Scanner, c: char, a: string, b: string)
    requires Scan(Step(sc, c), a) == Scan(Step(sc, c), b)
    requires Skeleton(Step(sc, c), a) == Skeleton(Step(sc, c), b)
    ensures Scan(sc, [c] + a) == Scan(sc, [c] + b) && Skeleton(sc, [c] + a) == Skeleton(sc, [c] + b)
  {
    assert ([c] + a)[1..] == a && ([c] + b)[1..] == b;
  }

  /** From every state of the scanner, the masked text leads to the same state as the original and
      shows the same structure. */
  lemma {:induction false} MaskKeepsScan(sc: Scanner, s: string)
    ensures Scan(sc, Mask(s)) == Scan(sc, s)
    ensures Skeleton(sc, Mask(s)) == Skeleton(sc, s)
    decreases |s|
  {
    if s == "" {
    } else {
      if StartsTag(s) {
        MaskKeepsScan(Scan(sc, s[..|TAG|]), AfterTag(s));
        SameAfterTag(sc, s, Mask(AfterTag(s)));
      } else {
        MaskKeepsScan(Step(sc, s[0]), s[1..]);
        SameAfterByte(sc, s[0], Mask(s[1..]), s[1..]);
        assert s == [s[0]] + s[1..];
      }
    }
  }

  /** Masking keeps JSON valid, and cannot make invalid text valid. */
  lemma MaskKeepsJson(s: string)
    ensures Valid(Mask(s)) <==> Valid(s)
  {
    MaskKeepsScan(Scanner(BeginValue, []), s);
  }
}
