/** The fail-closed driver of the redactor: walk, scrub, and fall back to the mode without strings
    when the scrubbed text is no longer JSON.

    The JSON decoder, the encoder and the regex passes after the customer-tag pass are arbitrary
    functions. */
module RedactBody {
  import opened Options
  import opened Redact
  import opened RedactLaws
  import opened CustomerTag
  import opened JsonText
  import opened JsonParse

  /** Decoding succeeds only on an object. */
  type Decoder = string -> Option<map<string, Json>>
  type Encoder = Json -> Option<string>
  type Passes = string -> string

  /** String: the customer-tag pass, then the other regex passes. */
  function Scrub(s: string, rest: Passes): string {
    if s == "" then s else rest(Mask(s))
  }

  function Walk(b: string, drop: bool, decode: Decoder, encode: Encoder): Option<string> {
    var v := decode(b);
    if v.None? then None else encode(CleanObject(Obj(v.value), drop))
  }

  function BodyOf(b: string, decode: Decoder, encode: Encoder, rest: Passes): string {
    var walked, bare := Walk(b, false, decode, encode), Walk(b, true, decode, encode);
    if b == "" then ""
    else if walked.None? then "{}"
    else if Valid(Scrub(walked.value, rest)) then Scrub(walked.value, rest)
    else if bare.None? || !Valid(Scrub(bare.value, rest)) then "{}"
    else Scrub(bare.value, rest)
  }

  class Redactor {
    // failClosedTotal, by reason
    var nonObjectBody: nat
    var regexInvalidJson: nat
    var regexInvalidJsonFallback: nat

    constructor ()
      ensures nonObjectBody == regexInvalidJson == regexInvalidJsonFallback == 0
    {
      nonObjectBody, regexInvalidJson, regexInvalidJsonFallback := 0, 0, 0;
    }

    method WalkBody(b: string, drop: bool, decode: Decoder, encode: Encoder) returns (out: Option<string>)
      ensures out == Walk(b, drop, decode, encode)
    {
      var v := decode(b);
      if v.None? {
        return None;
      }
      var cleaned := RedactObject(Obj(v.value), drop);
      return encode(cleaned);
    }

    method Body(b: string, decode: Decoder, encode: Encoder, rest: Passes) returns (out: string)
      modifies this
      ensures out == BodyOf(b, decode, encode, rest)
      // Every degraded answer is counted, and nothing else is.
      ensures nonObjectBody == old(nonObjectBody) + (if b != "" && Walk(b, false, decode, encode).None? then 1 else 0)
      ensures regexInvalidJson == old(regexInvalidJson) +
        (if b != "" && Walk(b, false, decode, encode).Some?
            && !Valid(Scrub(Walk(b, false, decode, encode).value, rest)) then 1 else 0)
      ensures regexInvalidJsonFallback == old(regexInvalidJsonFallback) +
        (if regexInvalidJson > old(regexInvalidJson) && Walk(b, true, decode, encode).Some?
            && !Valid(Scrub(Walk(b, true, decode, encode).value, rest)) then 1 else 0)
    {
      if b == "" {
        return b;
      }
      var walked := WalkBody(b, false, decode, encode);
      if walked.None? {
        nonObjectBody := nonObjectBody + 1;
        return "{}";
      }
      var s := Scrub(walked.value, rest);
      if Valid(s) {
        return s;
      }
      regexInvalidJson := regexInvalidJson + 1;
      var safe := WalkBody(b, true, decode, encode);
      if safe.None? {
        return "{}";
      }
      var scrubbed := Scrub(safe.value, rest);
      if !Valid(scrubbed) {
        regexInvalidJsonFallback := regexInvalidJsonFallback + 1;
        return "{}";
      }
      return scrubbed;
    }
  }

  lemma BracesEndTop()
    ensures Step(Step(Scanner(BeginValue, []), '{'), '}') == Scanner(EndTop, [])
  {
  }

  lemma EmptyObjectIsValid(s: string)
    requires s == "{}"
    ensures Valid(s)
  {
    BracesEndTop();
    ScanTwo(Scanner(BeginValue, []), '{', '}', "");
    assert s == ['{', '}'] + "";
  }

  /** What Body may forward, in its order of preference: the scrubbed walk, then the one without strings. */
  function Candidates(b: string, decode: Decoder, encode: Encoder, rest: Passes): seq<string> {
    var walked, bare := Walk(b, false, decode, encode), Walk(b, true, decode, encode);
    if walked.None? then [] else
      [Scrub(walked.value, rest)] + if bare.None? then [] else [Scrub(bare.value, rest)]
  }

  /** The first of the texts that is JSON, or the empty object if none is. */
  ghost predicate IsFirstJson(out: string, from: seq<string>) {
    if from == [] then out == "{}"
    else if IsJson(from[0]) then out == from[0]
    else IsFirstJson(out, from[1..])
  }

  /** Whatever the regex passes do, a non-empty body becomes JSON, and the first candidate that is JSON. */
  lemma BodyIsFirstJson(b: string, decode: Decoder, encode: Encoder, rest: Passes)
    requires b != ""
    ensures IsJson(BodyOf(b, decode, encode, rest))
    ensures IsFirstJson(BodyOf(b, decode, encode, rest), Candidates(b, decode, encode, rest))
  {
    var out, from := BodyOf(b, decode, encode, rest), Candidates(b, decode, encode, rest);
    EmptyObjectIsValid("{}");
    ValidIff(out);
    if from != [] {
      ValidIff(from[0]);
      if |from| > 1 {
        ValidIff(from[1]);
        assert from[1..] == [from[1]];
      }
      assert IsFirstJson(out, from[1..]) || Valid(from[0]);
    }
  }

  /** When only the customer-tag pass finds something, the body never degrades: the result is the
      redacted document with its tags masked, valid, and without any customer name in a tag. */
  lemma MaskingNeverFailsClosed(b: string, decode: Decoder, encode: Encoder, rest: Passes)
    requires b != "" && Walk(b, false, decode, encode).Some?
    requires var text := Walk(b, false, decode, encode).value;
             text != "" && IsJson(text) && rest(Mask(text)) == Mask(text)
    ensures var text, out := Walk(b, false, decode, encode).value, BodyOf(b, decode, encode, rest);
            out == Mask(text) && IsJson(out) && NoMatch(out)
            && Skeleton(Scanner(BeginValue, []), out) == Skeleton(Scanner(BeginValue, []), text)
  {
    var text := Walk(b, false, decode, encode).value;
    ValidIff(text);
    MaskKeepsScan(Scanner(BeginValue, []), text);
    ValidIff(Mask(text));
    MaskIsComplete(text);
  }

  /** Whatever the passes do, what they are given holds, at every depth, only what its key lets
      through; and the fallback is given no string at all. */
  lemma OnlyAllowedLeavesReachThePasses(
    b: string, decode: Decoder, encode: Encoder, rest: Passes, drop: bool, path: seq<PathStep>)
    requires decode(b).Some? && path != []
    requires At(CleanObject(Obj(decode(b).value), drop), path).Some?
    ensures var doc := CleanObject(Obj(decode(b).value), drop);
            LeafAllowed("", drop, path, At(doc, path).value)
    ensures var normal := encode(CleanObject(Obj(decode(b).value), false));
            var bare := encode(CleanObject(Obj(decode(b).value), true));
            var out := BodyOf(b, decode, encode, rest);
            b == "" || out == "{}" || (normal.Some? && out == Scrub(normal.value, rest))
            || (bare.Some? && out == Scrub(bare.value, rest))
  {
    BodyDeniesByDefault(Obj(decode(b).value), drop, path);
  }
}
