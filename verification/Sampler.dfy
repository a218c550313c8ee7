/** Sampling by the Knuth factor, in exact arithmetic: rates are real numbers between 0 and 100. */
module Sampling {
  import opened Wrappers

  const TWO_POW_64: nat := 0x1_0000_0000_0000_0000
  const KNUTH_FACTOR: nat := 1111111111111111111

  /** The inverse of the factor modulo 2^64. */
  const KNUTH_INVERSE: nat := 3396998997810348023
  const KNUTH_QUOTIENT: nat := 204612982964281147

  function Hash(identifier: nat): nat {
    identifier * KNUTH_FACTOR % TWO_POW_64
  }

  function Threshold(sampleRate: real): real {
    sampleRate / 100.0 * TWO_POW_64 as real
  }

  predicate SampleUsingKnuthFactor(identifier: nat, sampleRate: real) {
    Hash(identifier) as real <= Threshold(sampleRate)
  }

  function CorrectedChildSampleRate(parentRate: real, childRate: real): real {
    parentRate * childRate / 100.0
  }

  // ---- Identifiers --------------------------------------------------------------------------------

  function HexDigit(c: char): Option<nat> {
    if '0' <= c <= '9' then Some(c as nat - '0' as nat)
    else if 'a' <= c <= 'f' then Some(c as nat - 'a' as nat + 10)
    else if 'A' <= c <= 'F' then Some(c as nat - 'A' as nat + 10)
    else None
  }

  /** The number that some hexadecimal digits stand for; no digits are a syntax error, as for `BigInt("0x")`. */
  function ParseHex(digits: string): Option<nat> {
    if digits == "" then None
    else
      var last := HexDigit(digits[|digits| - 1]);
      if last.None? then None
      else if |digits| == 1 then last
      else
        var before := ParseHex(digits[..|digits| - 1]);
        if before.None? then None else Some(16 * before.value + last.value)
  }

  /** The n-th part of a text that is split at dashes. */
  function Part(text: string, n: nat): Option<string>
    decreases |text|
  {
    var i := FirstDash(text);
    if n == 0 then Some(text[..i])
    else if i == |text| then None
    else Part(text[i + 1..], n - 1)
  }

  function FirstDash(text: string): (i: nat)
    ensures i <= |text|
  {
    if text == "" || text[0] == '-' then 0 else 1 + FirstDash(text[1..])
  }

  /** The identifier in a session id: its fifth part. */
  function Identifier(sessionId: string): Option<nat> {
    var part := Part(sessionId, 4);
    if part.None? then None else ParseHex(part.value)
  }

  // ---- Decisions ----------------------------------------------------------------------------------

  datatype Decision = Decided(sampled: bool) | SyntaxError

  function Decide(sessionId: string, sampleRate: real): Decision {
    if sampleRate == 100.0 then Decided(true)
    else if sampleRate == 0.0 then Decided(false)
    else
      match Identifier(sessionId)
      case None => SyntaxError
      case Some(identifier) => Decided(SampleUsingKnuthFactor(identifier, sampleRate))
  }

  datatype CachedDecision = CachedDecision(sessionId: string, decision: bool)

  /** `isSampled` with its cache, one entry for each rate. */
  class Sampler {
    var sampleDecisionCache: map<real, CachedDecision>

    ghost predicate Valid()
      reads this
    {
      forall rate | rate in sampleDecisionCache ::
        && rate != 100.0 && rate != 0.0
        && Decide(sampleDecisionCache[rate].sessionId, rate) == Decided(sampleDecisionCache[rate].decision)
    }

    constructor ()
      ensures Valid() && sampleDecisionCache == map[]
    {
      sampleDecisionCache := map[];
    }

    /** Whatever was asked before, the answer is the uncached one. */
    method IsSampled(sessionId: string, sampleRate: real) returns (decision: Decision)
      requires Valid()
      modifies this
      ensures Valid() && decision == Decide(sessionId, sampleRate)
      ensures forall rate | rate != sampleRate ::
                rate in sampleDecisionCache <==> rate in old(sampleDecisionCache)
      ensures forall rate | rate != sampleRate && rate in sampleDecisionCache ::
                sampleDecisionCache[rate] == old(sampleDecisionCache)[rate]
    {
      if sampleRate == 100.0 {
        return Decided(true);
      }
      if sampleRate == 0.0 {
        return Decided(false);
      }
      if sampleRate in sampleDecisionCache && sampleDecisionCache[sampleRate].sessionId == sessionId {
        return Decided(sampleDecisionCache[sampleRate].decision);
      }
      var identifier := Identifier(sessionId);
      if identifier.None? {
        return SyntaxError;
      }
      var sampled := SampleUsingKnuthFactor(identifier.value, sampleRate);
      sampleDecisionCache := sampleDecisionCache[sampleRate := CachedDecision(sessionId, sampled)];
      return Decided(sampled);
    }
  }

  datatype SessionReplayState = Off | Sampled | Forced

  /** Without an event bridge. */
  function ComputeSessionReplayState(
    sessionId: string, isReplayForced: bool, sessionSampleRate: real, sessionReplaySampleRate: real
  ): Option<SessionReplayState> {
    match Decide(sessionId, CorrectedChildSampleRate(sessionSampleRate, sessionReplaySampleRate))
    case SyntaxError => None
    case Decided(true) => Some(SessionReplayState.Sampled)
    case Decided(false) => Some(if isReplayForced then Forced else Off)
  }

  // ---- The identifier of a session --------------------------------------------------------------------

  function DigitText(d: nat): char
    requires d < 16
  {
    if d < 10 then '0' + d as char else 'a' + (d - 10) as char
  }

  /** A number in hexadecimal digits. */
  function HexText(n: nat): (digits: string)
    ensures digits != ""
  {
    if n < 16 then [DigitText(n)] else HexText(n / 16) + [DigitText(n % 16)]
  }

  lemma DigitsParse(d: nat)
    requires d < 16
    ensures HexDigit(DigitText(d)) == Some(d)
  {}

  lemma ParseOneMore(before: string, m: nat, c: char, d: nat)
    requires before != "" && ParseHex(before) == Some(m) && HexDigit(c) == Some(d)
    ensures ParseHex(before + [c]) == Some(16 * m + d)
  {
    assert (before + [c])[..|before|] == before;
  }

  lemma ParseOne(c: char)
    ensures ParseHex([c]) == HexDigit(c)
  {}

  /** Parsing reads the number that was written. */
  lemma {:induction false} HexTextParses(n: nat)
    ensures ParseHex(HexText(n)) == Some(n)
  {
    var q, d := n / 16, n % 16;
    assert n == 16 * q + d;
    DigitsParse(d);
    if n >= 16 {
      HexTextParses(q);
      ParseOneMore(HexText(q), q, DigitText(d), d);
    } else {
      ParseOne(DigitText(d));
    }
  }

  predicate HasNoDash(text: string) {
    forall k | 0 <= k < |text| :: text[k] != '-'
  }

  lemma {:induction false} FirstDashIs(part: string, rest: string)
    requires HasNoDash(part)
    ensures FirstDash(part + "-" + rest) == |part| && FirstDash(part) == |part|
  {
    if part != "" {
      assert (part + "-" + rest)[1..] == part[1..] + "-" + rest;
      FirstDashIs(part[1..], rest);
    }
  }

  lemma NextPart(part: string, rest: string, n: nat)
    requires HasNoDash(part) && n > 0
    ensures Part(part + "-" + rest, n) == Part(rest, n - 1)
  {
    FirstDashIs(part, rest);
    assert (part + "-" + rest)[|part| + 1..] == rest;
  }

  lemma {:induction false} HexTextHasNoDash(n: nat)
    ensures HasNoDash(HexText(n))
  {
    if n >= 16 {
      HexTextHasNoDash(n / 16);
    }
  }

  /** The last of the five groups of a session id is its identifier, read as a hexadecimal number; the other groups
      do not matter. */
  lemma LastGroupIdentifies(a: string, b: string, c: string, d: string, n: nat)
    requires HasNoDash(a) && HasNoDash(b) && HasNoDash(c) && HasNoDash(d)
    ensures Identifier(a + "-" + (b + "-" + (c + "-" + (d + "-" + HexText(n))))) == Some(n)
  {
    var last := HexText(n);
    NextPart(a, b + "-" + (c + "-" + (d + "-" + last)), 4);
    NextPart(b, c + "-" + (d + "-" + last), 3);
    NextPart(c, d + "-" + last, 2);
    NextPart(d, last, 1);
    HexTextHasNoDash(n);
    FirstDashIs(last, "");
    assert last[..|last|] == last;
    HexTextParses(n);
  }

  predicate IsHex(c: char) {
    '0' <= c <= '9' || 'a' <= c <= 'f' || 'A' <= c <= 'F'
  }

  lemma {:induction false} OnlyHexParses(digits: string)
    ensures ParseHex(digits).Some? <==> digits != "" && forall k | 0 <= k < |digits| :: IsHex(digits[k])
  {
    if |digits| > 1 {
      OnlyHexParses(digits[..|digits| - 1]);
    }
  }

  /** A last group that is empty, or holds anything but hexadecimal digits, is a syntax error, */
  lemma LastGroupMustBeHex(a: string, b: string, c: string, d: string, e: string)
    requires HasNoDash(a) && HasNoDash(b) && HasNoDash(c) && HasNoDash(d) && HasNoDash(e)
    ensures Identifier(a + "-" + (b + "-" + (c + "-" + (d + "-" + e)))).Some? <==>
            e != "" && forall k | 0 <= k < |e| :: IsHex(e[k])
  {
    NextPart(a, b + "-" + (c + "-" + (d + "-" + e)), 4);
    NextPart(b, c + "-" + (d + "-" + e), 3);
    NextPart(c, d + "-" + e, 2);
    NextPart(d, e, 1);
    FirstDashIs(e, "");
    assert e[..|e|] == e;
    OnlyHexParses(e);
  }

  function DashCount(text: string): nat {
    if text == "" then 0 else (if text[0] == '-' then 1 else 0) + DashCount(text[1..])
  }

  lemma {:induction false} DashesAfterFirst(text: string)
    ensures DashCount(text) == if FirstDash(text) == |text| then 0 else 1 + DashCount(text[FirstDash(text) + 1..])
  {
    if text != "" && text[0] != '-' {
      DashesAfterFirst(text[1..]);
      if FirstDash(text) < |text| {
        assert text[1..][FirstDash(text[1..]) + 1..] == text[FirstDash(text) + 1..];
      }
    }
  }

  lemma {:induction false} NoPartWithoutDash(text: string, n: nat)
    ensures Part(text, n).None? <==> DashCount(text) < n
    decreases |text|
  {
    DashesAfterFirst(text);
    if n > 0 && FirstDash(text) < |text| {
      NoPartWithoutDash(text[FirstDash(text) + 1..], n - 1);
    }
  }

  /** and so is an id of less than five groups. */
  lemma FiveGroupsAreNeeded(sessionId: string, sampleRate: real)
    requires DashCount(sessionId) < 4 && sampleRate != 100.0 && sampleRate != 0.0
    ensures Decide(sessionId, sampleRate) == SyntaxError
  {
    NoPartWithoutDash(sessionId, 4);
  }

  /** So a session is sampled exactly if the hash of that number, as a share of 2^64, is at most the rate; always at
      the rate 100, and never at the rate 0. */
  lemma SessionsAreSampledByHash(a: string, b: string, c: string, d: string, n: nat, sampleRate: real)
    requires HasNoDash(a) && HasNoDash(b) && HasNoDash(c) && HasNoDash(d)
    ensures
      Decide(a + "-" + (b + "-" + (c + "-" + (d + "-" + HexText(n)))), sampleRate) ==
      Decided(
        if sampleRate == 100.0 then true
        else if sampleRate == 0.0 then false
        else (n * 1111111111111111111 % 0x1_0000_0000_0000_0000) as real <= sampleRate / 100.0 * 18446744073709551616.0)
  {
    LastGroupIdentifies(a, b, c, d, n);
  }

  /** Replay: sampled at the product of the rates; if not, recorded only when it is forced. */
  lemma ReplayIsForcedOrSampled(
    sessionId: string, isReplayForced: bool, sessionSampleRate: real, sessionReplaySampleRate: real
  )
    ensures
      var state := ComputeSessionReplayState(sessionId, isReplayForced, sessionSampleRate, sessionReplaySampleRate);
      match Decide(sessionId, sessionSampleRate * sessionReplaySampleRate / 100.0)
      case SyntaxError => state == None
      case Decided(sampled) =>
        && (state == Some(SessionReplayState.Sampled) <==> sampled)
        && (state == Some(Forced) <==> !sampled && isReplayForced)
        && (state == Some(Off) <==> !sampled && !isReplayForced)
  {}

  // ---- Permutation --------------------------------------------------------------------------------

  lemma ModOfSum(r: nat, t: int)
    requires r < TWO_POW_64
    ensures (r + TWO_POW_64 * t) % TWO_POW_64 == r
  {}

  /** Multiplying by the inverse undoes the hash. */
  lemma HashInverts(identifier: nat)
    requires identifier < TWO_POW_64
    ensures Hash(identifier) < TWO_POW_64
    ensures Hash(identifier) * KNUTH_INVERSE % TWO_POW_64 == identifier
  {
    var a := identifier * KNUTH_FACTOR / TWO_POW_64;
    var h := Hash(identifier);
    assert h == identifier * KNUTH_FACTOR - TWO_POW_64 * a;
    assert KNUTH_FACTOR * KNUTH_INVERSE == 1 + TWO_POW_64 * KNUTH_QUOTIENT;
    assert h * KNUTH_INVERSE == identifier + TWO_POW_64 * (identifier * KNUTH_QUOTIENT - a * KNUTH_INVERSE);
    ModOfSum(identifier, identifier * KNUTH_QUOTIENT - a * KNUTH_INVERSE);
  }

  lemma HashOfInverse(h: nat)
    requires h < TWO_POW_64
    ensures Hash(h * KNUTH_INVERSE % TWO_POW_64) == h
  {
    var a := h * KNUTH_INVERSE / TWO_POW_64;
    var identifier := h * KNUTH_INVERSE % TWO_POW_64;
    assert identifier == h * KNUTH_INVERSE - TWO_POW_64 * a;
    assert identifier * KNUTH_FACTOR == h + TWO_POW_64 * (h * KNUTH_QUOTIENT - a * KNUTH_FACTOR);
    ModOfSum(h, h * KNUTH_QUOTIENT - a * KNUTH_FACTOR);
  }

  /** The hash permutes the 64-bit identifiers. */
  lemma HashPermutes(h: nat)
    requires h < TWO_POW_64
    ensures exists identifier: nat ::
              && identifier < TWO_POW_64 && Hash(identifier) == h
              && forall other: nat | other < TWO_POW_64 && Hash(other) == h :: other == identifier
  {
    var identifier := h * KNUTH_INVERSE % TWO_POW_64;
    HashOfInverse(h);
    forall other: nat | other < TWO_POW_64 && Hash(other) == h ensures other == identifier {
      HashInverts(other);
    }
  }

  // ---- Counting -----------------------------------------------------------------------------------

  /** The identifiers below a bound whose hash is below another. */
  ghost function HashedBelow(threshold: nat): set<nat> {
    set identifier: nat | identifier < TWO_POW_64 && Hash(identifier) < threshold :: identifier
  }

  lemma {:induction false} CountHashedBelow(threshold: nat)
    requires threshold <= TWO_POW_64
    ensures |HashedBelow(threshold)| == threshold
    decreases threshold
  {
    if threshold == 0 {
      assert HashedBelow(0) == {};
    } else {
      var h := threshold - 1;
      var identifier := h * KNUTH_INVERSE % TWO_POW_64;
      CountHashedBelow(h);
      HashOfInverse(h);
      forall other | other in HashedBelow(threshold) ensures other in HashedBelow(h) + {identifier} {
        HashInverts(other);
      }
      assert HashedBelow(threshold) == HashedBelow(h) + {identifier};
      assert identifier !in HashedBelow(h);
    }
  }

  ghost function Kept(sampleRate: real): set<nat> {
    set identifier: nat | identifier < TWO_POW_64 && SampleUsingKnuthFactor(identifier, sampleRate) :: identifier
  }

  /** For a rate between 0 and 100, floor(rate / 100 * 2^64) + 1 identifiers are kept. */
  lemma ExactlyTheRateIsKept(sampleRate: real)
    requires 0.0 < sampleRate < 100.0
    ensures |Kept(sampleRate)| == Threshold(sampleRate).Floor + 1
  {
    var t := Threshold(sampleRate);
    ThresholdBelow(sampleRate);
    var n := t.Floor + 1;
    CountHashedBelow(n);
    forall identifier: nat ensures identifier in Kept(sampleRate) <==> identifier in HashedBelow(n) {
      KeptBelow(identifier, sampleRate);
    }
    assert Kept(sampleRate) == HashedBelow(n);
  }

  lemma KeptBelow(identifier: nat, sampleRate: real)
    ensures SampleUsingKnuthFactor(identifier, sampleRate) <==> Hash(identifier) < Threshold(sampleRate).Floor + 1
  {
    FloorBounds(Hash(identifier), Threshold(sampleRate));
  }

  lemma FloorBounds(h: nat, t: real)
    ensures h as real <= t <==> h < t.Floor + 1
  {}

  lemma ThresholdBelow(sampleRate: real)
    requires 0.0 < sampleRate < 100.0
    ensures 0.0 < Threshold(sampleRate) < TWO_POW_64 as real
  {}

  /** Whoever is sampled at a rate is sampled at every higher one. */
  lemma SamplingIsMonotone(sessionId: string, lower: real, higher: real)
    requires 0.0 <= lower <= higher <= 100.0
    requires Decide(sessionId, lower) == Decided(true)
    ensures Decide(sessionId, higher) == Decided(true)
  {}

  lemma ChildRateIsLower(parentRate: real, childRate: real)
    requires 0.0 <= parentRate && 0.0 <= childRate <= 100.0
    ensures 0.0 <= CorrectedChildSampleRate(parentRate, childRate) <= parentRate
    ensures 0.0 < parentRate && 0.0 < childRate ==> 0.0 < CorrectedChildSampleRate(parentRate, childRate)
  {
    assert parentRate * childRate <= parentRate * 100.0;
  }

  /** A session whose replay is sampled is itself sampled. */
  lemma ReplaySampledImpliesSessionSampled(
    sessionId: string, isReplayForced: bool, sessionSampleRate: real, sessionReplaySampleRate: real
  )
    requires 0.0 <= sessionSampleRate <= 100.0 && 0.0 <= sessionReplaySampleRate <= 100.0
    requires ComputeSessionReplayState(sessionId, isReplayForced, sessionSampleRate, sessionReplaySampleRate) ==
             Some(SessionReplayState.Sampled)
    ensures Decide(sessionId, sessionSampleRate) == Decided(true)
  {
    var corrected := CorrectedChildSampleRate(sessionSampleRate, sessionReplaySampleRate);
    ChildRateIsLower(sessionSampleRate, sessionReplaySampleRate);
    SamplingIsMonotone(sessionId, corrected, sessionSampleRate);
  }

  /** The share of kept identifiers of a nested rate is the product of the shares, up to one identifier. */
  lemma NestedRatesMultiply(parentRate: real, childRate: real)
    requires 0.0 < parentRate < 100.0 && 0.0 < childRate < 100.0
    ensures Kept(CorrectedChildSampleRate(parentRate, childRate)) <= Kept(parentRate)
    ensures |Kept(CorrectedChildSampleRate(parentRate, childRate))| ==
            (parentRate / 100.0 * (childRate / 100.0) * TWO_POW_64 as real).Floor + 1
  {
    var corrected := CorrectedChildSampleRate(parentRate, childRate);
    ChildRateIsLower(parentRate, childRate);
    CorrectedInRange(corrected, parentRate);
    ThresholdOfProduct(parentRate, childRate);
  }

  lemma CorrectedInRange(corrected: real, parentRate: real)
    requires 0.0 < corrected <= parentRate < 100.0
    ensures Kept(corrected) <= Kept(parentRate) && |Kept(corrected)| == Threshold(corrected).Floor + 1
  {
    forall identifier | identifier in Kept(corrected) ensures identifier in Kept(parentRate) {
      SampledAtHigher(identifier, corrected, parentRate);
    }
    ExactlyTheRateIsKept(corrected);
  }

  lemma ThresholdOfProduct(parentRate: real, childRate: real)
    ensures Threshold(CorrectedChildSampleRate(parentRate, childRate)) ==
            parentRate / 100.0 * (childRate / 100.0) * TWO_POW_64 as real
  {
    assert parentRate / 100.0 * (childRate / 100.0) == parentRate * childRate / 100.0 / 100.0;
  }

  lemma SampledAtHigher(identifier: nat, lower: real, higher: real)
    requires lower <= higher && SampleUsingKnuthFactor(identifier, lower)
    ensures SampleUsingKnuthFactor(identifier, higher)
  {
    ThresholdIsMonotone(lower, higher);
  }

  lemma ThresholdIsMonotone(lower: real, higher: real)
    requires lower <= higher
    ensures Threshold(lower) <= Threshold(higher)
  {}
}
