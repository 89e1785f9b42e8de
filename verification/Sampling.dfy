/** Trace-ID ratio sampling in front of a span exporter. Rates are reals: multiplying a float64 by 2^63
    is exact. */
module Sampling {
  const HALF: nat := 0x8000_0000_0000_0000
  const WORDS: nat := 2 * HALF

  type Byte = b: int | 0 <= b < 256
  type TraceId = id: seq<Byte> | |id| == 16 witness seq(16, _ => 0)

  datatype Span = Span(trace: TraceId, name: string)

  // ----- The decision -----

  function BigEndian(bytes: seq<Byte>): nat {
    if bytes == [] then 0 else BigEndian(bytes[..|bytes| - 1]) * 256 + bytes[|bytes| - 1]
  }

  /** The low word of a trace ID. */
  function LowWord(id: TraceId): nat {
    BigEndian(id[8..16])
  }

  function Threshold(rate: real): nat
    requires rate < 1.0
  {
    if rate <= 0.0 then 0 else (rate * HALF as real).Floor
  }

  /** Does the span of a trace with this low word reach the exporter at this rate? */
  predicate Kept(rate: real, word: nat) {
    rate >= 1.0 || (Threshold(rate) != 0 && word / 2 < Threshold(rate))
  }

  function Filter(kept: Span -> bool, spans: seq<Span>): seq<Span> {
    if spans == [] then []
    else if kept(spans[0]) then [spans[0]] + Filter(kept, spans[1..])
    else Filter(kept, spans[1..])
  }

  function Gate(rate: real): Span -> bool {
    (s: Span) => Kept(rate, LowWord(s.trace))
  }

  /** What the exporter gets when these spans end in this order. */
  function Forwarded(rate: real, spans: seq<Span>): seq<Span> {
    Filter(Gate(rate), spans)
  }

  lemma {:induction false} FilterAppend(kept: Span -> bool, spans: seq<Span>, more: seq<Span>)
    ensures Filter(kept, spans + more) == Filter(kept, spans) + Filter(kept, more)
  {
    if spans == [] {
      assert spans + more == more;
    } else {
      FilterAppend(kept, spans[1..], more);
      assert (spans + more)[1..] == spans[1..] + more;
    }
  }

  lemma {:induction false} FilterIff(kept: Span -> bool, spans: seq<Span>, s: Span)
    ensures s in Filter(kept, spans) <==> s in spans && kept(s)
  {
    if spans == [] {
    } else {
      FilterIff(kept, spans[1..], s);
    }
  }

  /** The processor installed below a rate of 1; `inner` is what the wrapped processor got, `ended` every
      span that ended. */
  class SamplingSpanProcessor {
    var inner: seq<Span>
    const threshold: nat
    ghost const rate: real
    ghost var ended: seq<Span>

    ghost predicate Valid()
      reads this
    {
      rate < 1.0 && threshold == Threshold(rate) && inner == Forwarded(rate, ended)
    }

    constructor (rate: real)
      requires rate < 1.0
      ensures Valid() && this.rate == rate && ended == []
    {
      if rate <= 0.0 {
        threshold := 0;
      } else {
        threshold := (rate * HALF as real).Floor;
      }
      inner := [];
      this.rate := rate;
      ended := [];
    }

    method OnEnd(span: Span)
      requires Valid()
      modifies this
      ensures Valid() && ended == old(ended) + [span]
    {
      FilterAppend(Gate(rate), ended, [span]);
      ended := ended + [span];
      if threshold == 0 {
        return;
      }
      var x := LowWord(span.trace) / 2;
      if x < threshold {
        inner := inner + [span];
      }
    }
  }

  // ----- How many words are kept -----

  function KeptWords(rate: real): set<nat> {
    set w: nat | w < WORDS && Kept(rate, w)
  }

  function Below(n: nat): (words: set<nat>)
    ensures |words| == n && forall w: nat :: w in words <==> w < n
  {
    if n == 0 then {} else Below(n - 1) + {n - 1}
  }

  /** The kept words are the lowest ones, and an even number of them. */
  lemma KeptWordsAreLowest(rate: real)
    requires rate < 1.0
    ensures Threshold(rate) < HALF
    ensures KeptWords(rate) == Below(2 * Threshold(rate))
  {
  }

  lemma ShareOfWords(rate: real, t: nat)
    requires t as real <= rate * HALF as real < t as real + 1.0
    ensures rate - 1.0 / HALF as real < (2 * t) as real / WORDS as real <= rate
  {
  }

  /** Exactly 2 * floor(rate * 2^63) of the 2^64 words are kept, so the share kept is the rate, short of it
      by less than 2^-63. */
  lemma KeptShare(rate: real)
    requires 0.0 < rate < 1.0
    ensures |KeptWords(rate)| == 2 * (rate * HALF as real).Floor
    ensures rate - 1.0 / HALF as real < |KeptWords(rate)| as real / WORDS as real <= rate
  {
    KeptWordsAreLowest(rate);
    var t := Threshold(rate);
    ShareOfWords(rate, t);
  }

  /** All or none at the ends. */
  lemma KeptAtTheEnds(rate: real)
    ensures rate <= 0.0 ==> KeptWords(rate) == {}
    ensures rate >= 1.0 ==> |KeptWords(rate)| == WORDS
  {
    if rate >= 1.0 {
      assert KeptWords(rate) == Below(WORDS);
    }
  }

  /** An exporter with a higher rate gets every trace an exporter with a lower rate gets. */
  lemma KeptGrowsWithRate(low: real, high: real, word: nat)
    requires low <= high && Kept(low, word) && word < WORDS
    ensures Kept(high, word)
  {
  }

  // ----- Whole traces -----

  lemma ForwardedIff(rate: real, spans: seq<Span>, s: Span)
    ensures s in Forwarded(rate, spans) <==> s in spans && Kept(rate, LowWord(s.trace))
  {
    FilterIff(Gate(rate), spans, s);
  }

  /** The bytes 8 to 15 of a trace ID as a big-endian number, one weight to each. */
  function Weighted(id: TraceId): nat {
    var b: seq<nat> := id;
    b[8] * 0x100_0000_0000_0000 + b[9] * 0x1_0000_0000_0000 + b[10] * 0x100_0000_0000 + b[11] * 0x1_0000_0000
    + b[12] * 0x100_0000 + b[13] * 0x1_0000 + b[14] * 0x100 + b[15]
  }

  lemma BigEndianStep(id: TraceId, n: nat)
    requires 8 <= n < 16
    ensures BigEndian(id[8..n + 1]) == BigEndian(id[8..n]) * 256 + id[n]
  {
    assert id[8..n + 1][..n - 8] == id[8..n];
  }

  lemma LowWordIsWeighted(id: TraceId)
    ensures LowWord(id) == Weighted(id)
  {
    BigEndianStep(id, 8);
    BigEndianStep(id, 9);
    BigEndianStep(id, 10);
    BigEndianStep(id, 11);
    BigEndianStep(id, 12);
    BigEndianStep(id, 13);
    BigEndianStep(id, 14);
    BigEndianStep(id, 15);
    assert id[8..8] == [];
  }

  /** A span reaches the exporter exactly if the upper 63 bits of its trace ID's last eight bytes, as a big-endian
      number, are below the rate's share of 2^63. */
  lemma SpanIsKeptIff(rate: real, spans: seq<Span>, s: Span)
    requires 0.0 < rate < 1.0
    ensures s in Forwarded(rate, spans) <==>
            s in spans && Weighted(s.trace) / 2 < (rate * 0x8000_0000_0000_0000 as real).Floor
  {
    ForwardedIff(rate, spans, s);
    LowWordIsWeighted(s.trace);
  }

  /** However the spans of many traces interleave, a trace is forwarded whole or not at all. */
  lemma TraceIsAllOrNothing(rate: real, spans: seq<Span>, a: Span, b: Span)
    requires a in spans && b in spans && a.trace == b.trace
    ensures a in Forwarded(rate, spans) <==> b in Forwarded(rate, spans)
  {
    ForwardedIff(rate, spans, a);
    ForwardedIff(rate, spans, b);
  }

  /** Every span a low-rate exporter gets, a high-rate exporter gets too. */
  lemma ExportersNest(low: real, high: real, spans: seq<Span>, s: Span)
    requires low <= high && s in Forwarded(low, spans)
    ensures s in Forwarded(high, spans)
  {
    ForwardedIff(low, spans, s);
    ForwardedIff(high, spans, s);
    BigEndianFits(s.trace[8..16]);
    KeptGrowsWithRate(low, high, LowWord(s.trace));
  }

  // ----- The low word is eight free bytes -----

  function Power256(n: nat): nat {
    if n == 0 then 1 else 256 * Power256(n - 1)
  }

  lemma {:induction false} BigEndianBound(bytes: seq<Byte>)
    ensures BigEndian(bytes) < Power256(|bytes|)
  {
    if bytes == [] {
    } else {
      BigEndianBound(bytes[..|bytes| - 1]);
    }
  }

  lemma BigEndianFits(bytes: seq<Byte>)
    requires |bytes| == 8
    ensures BigEndian(bytes) < WORDS
  {
    BigEndianBound(bytes);
    assert Power256(4) == 0x1_0000_0000;
    assert Power256(8) == 0x1_0000_0000_0000_0000;
  }

  /** Different low bytes give different words, so shares of words are shares of trace IDs. */
  lemma {:induction false} BigEndianInjective(a: seq<Byte>, b: seq<Byte>)
    requires |a| == |b| && BigEndian(a) == BigEndian(b)
    ensures a == b
  {
    if a == [] {
    } else {
      BigEndianInjective(a[..|a| - 1], b[..|b| - 1]);
      assert a == a[..|a| - 1] + [a[|a| - 1]];
      assert b == b[..|b| - 1] + [b[|b| - 1]];
    }
  }
}
