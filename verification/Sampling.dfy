/** The sampled part of a simulation: the generator, and the draws for one node with their
    bounded retries. */
module Sampling {
  import opened Machine

  // ---------------------------------------------------------------------- generator

  const SEED_MASK: bv64 := 0x9e37_79b9_7f4a_7c15

  function First(s: bv64): bv64 { s ^ (s << 13) }

  function Second(s: bv64): bv64 { s ^ (s >> 7) }

  function Third(s: bv64): bv64 { s ^ (s << 17) }

  /** One step of the xorshift generator. */
  function Shifted(s: bv64): bv64 {
    Third(Second(First(s)))
  }

  lemma FirstZero(s: bv64)
    requires s ^ (s << 13) == 0
    ensures s == 0
  {
  }

  lemma SecondZero(s: bv64)
    requires s ^ (s >> 7) == 0
    ensures s == 0
  {
  }

  lemma ThirdZero(s: bv64)
    requires s ^ (s << 17) == 0
    ensures s == 0
  {
  }

  lemma ShiftedZeroIff(s: bv64)
    ensures Shifted(s) == 0 <==> s == 0
  {
    if Shifted(s) == 0 {
      ThirdZero(Second(First(s)));
      SecondZero(First(s));
      FirstZero(s);
    }
  }

  /** From state one the generator draws 1082269761. */
  lemma ShiftedOne()
    ensures Shifted(1) == 0x4082_2041
  {
  }

  /** The state after `n` steps. */
  function After(s: bv64, n: nat): bv64 {
    if n == 0 then s else Shifted(After(s, n - 1))
  }

  /** A generator draws zero exactly if its seed is the mask, and then draws nothing else. */
  lemma {:induction false} DrawsZeroIff(seed: bv64, n: nat)
    ensures After(seed ^ SEED_MASK, n) == 0 <==> seed == SEED_MASK
  {
    if n == 0 {
      XorZero(seed);
    } else {
      DrawsZeroIff(seed, n - 1);
      ShiftedZeroIff(After(seed ^ SEED_MASK, n - 1));
    }
  }

  lemma XorZero(seed: bv64)
    ensures seed ^ SEED_MASK == 0 <==> seed == SEED_MASK
  {
  }

  // ------------------------------------------------------------------------- draws

  /** A closed range of 64-bit numbers. */
  datatype Range = Range(minimum: nat, maximum: nat)

  predicate ValidRange(r: Range) {
    r.minimum <= r.maximum <= U64_MAX
  }

  /** What a draw in state `s` gives for a range. */
  function Drawn(s: bv64, r: Range): nat {
    if r.maximum <= r.minimum then r.minimum
    else SaturatingAdd(r.minimum, Modulo(Shifted(s) as nat, SaturatingAdd(r.maximum - r.minimum, 1)))
  }

  function Modulo(x: nat, m: nat): (r: nat)
    requires m > 0
    ensures r < m
  {
    x % m
  }

  /** The draw counts up from the minimum by the next number of the generator, modulo the width. */
  lemma DrawnMeaning(s: bv64, r: Range)
    requires ValidRange(r) && r.maximum - r.minimum < 0xFFFF_FFFF_FFFF_FFFF
    ensures Drawn(s, r) == if r.minimum == r.maximum then r.minimum
      else r.minimum + (Shifted(s) as nat) % (r.maximum - r.minimum + 1)
  {
  }

  /** Every draw stays inside its range; the upper end of the range of all numbers is the only
      end that is never drawn. */
  lemma DrawnInRange(s: bv64, r: Range)
    requires ValidRange(r)
    ensures r.minimum <= Drawn(s, r) <= r.maximum
    ensures r == Range(0, U64_MAX) ==> Drawn(s, r) < U64_MAX
    ensures s == 0 ==> Drawn(s, r) == r.minimum
  {
    ShiftedZeroIff(s);
  }

  class SeededRng {
    var state: bv64

    constructor (seed: bv64)
      ensures state == seed ^ SEED_MASK
    {
      state := seed ^ SEED_MASK;
    }

    method Next() returns (value: bv64)
      modifies this
      ensures value == state == Shifted(old(state))
    {
      value := state;
      value := First(value);
      value := Second(value);
      value := Third(value);
      state := value;
    }

    method Sample(r: Range) returns (x: nat)
      modifies this
      ensures x == Drawn(old(state), r)
      ensures state == Moved(old(state), r)
    {
      var width := if r.maximum <= r.minimum then 0 else r.maximum - r.minimum;
      if width == 0 { return r.minimum; }
      var value := Next();
      x := SaturatingAdd(r.minimum, Modulo(value as nat, SaturatingAdd(width, 1)));
    }

    /** The retry loop for a failure probability in basis points. */
    method Attempts(probability: nat, maximum: nat) returns (attempts: nat, failed: bool)
      requires maximum > 0
      modifies this
      ensures 1 <= attempts <= maximum && (failed ==> attempts == maximum)
      ensures probability == 0 ==> attempts == 1 && !failed
      ensures probability >= 10_000 || (old(state) == 0 && probability > 0) ==> attempts == maximum && failed
      ensures old(state) == 0 ==> state == 0
      ensures IsRetried(old(state), probability, maximum, attempts, failed) && state == After(old(state), attempts)
    {
      attempts, failed := 1, false;
      while true
        invariant 1 <= attempts <= maximum && (probability == 0 ==> attempts == 1) && (old(state) == 0 ==> state == 0)
        invariant state == After(old(state), attempts - 1)
        invariant forall i :: 1 <= i < attempts ==> Fails(After(old(state), i), probability)
        decreases maximum - attempts
      {
        var draw := Next();
        if Modulo(draw as nat, 10_000) >= probability { return attempts, false; }
        if attempts >= maximum { return attempts, true; }
        attempts := attempts + 1;
      }
    }
  }

  // ----------------------------------------------------------------------- one node

  /** The state after a draw from the range: a range of one number draws nothing. */
  function Moved(s: bv64, r: Range): bv64 {
    if r.maximum <= r.minimum then s else Shifted(s)
  }

  /** A draw below the probability, in basis points, is a failure. */
  predicate Fails(draw: bv64, probability: nat) {
    (draw as nat) % 10_000 < probability
  }

  /** One draw per attempt: all but the last fail, and the last does not or is the last allowed. */
  ghost predicate IsRetried(s: bv64, probability: nat, maximum: nat, attempts: nat, failed: bool) {
    && 1 <= attempts <= maximum && (failed ==> attempts == maximum)
    && (forall i :: 1 <= i < attempts ==> Fails(After(s, i), probability))
    && (failed <==> Fails(After(s, attempts), probability))
  }

  /** What is known about one node: its latency, cost and token ranges, its failure
      probability in basis points, and the bounds of its expansion policy. */
  datatype Calibration = Calibration(
    latency: Option<Range>,
    cost: Option<Range>,
    tokens: Option<(Range, Range)>,
    failure: Option<nat>,
    expansion: Option<Range>)

  datatype SampledNode = SampledNode(latency: nat, cost: Option<nat>, tokens: Option<nat>, failed: bool)

  predicate ValidOption(r: Option<Range>) {
    r.Some? ==> ValidRange(r.value)
  }

  predicate ValidCalibration(c: Calibration) {
    && ValidOption(c.latency) && ValidOption(c.cost) && ValidOption(c.expansion)
    && (c.tokens.Some? ==> ValidRange(c.tokens.value.0) && ValidRange(c.tokens.value.1))
    && (c.failure.Some? ==> c.failure.value <= 10_000)
  }

  /** The least and the greatest value a draw from `r` can be scaled to: by at least one and at
      most `maximumAttempts` attempts, and by the drawn number of spawned nodes. */
  function Least(r: Range, expansion: Option<Range>): nat {
    SaturatingMul(r.minimum, if expansion.None? then 1 else Max(1, expansion.value.minimum))
  }

  function Most(r: Range, expansion: Option<Range>, maximumAttempts: nat): nat {
    SaturatingMul(SaturatingMul(r.maximum, maximumAttempts),
                  if expansion.None? then 1 else Max(1, expansion.value.maximum))
  }

  predicate InScale(x: nat, r: Range, expansion: Option<Range>, maximumAttempts: nat) {
    Least(r, expansion) <= x <= Most(r, expansion, maximumAttempts)
  }

  /** Input and output tokens together. */
  function Together(a: Range, b: Range): Range {
    Range(SaturatingAdd(a.minimum, b.minimum), SaturatingAdd(a.maximum, b.maximum))
  }

  /** The sampled values lie in the scaled ranges, and are there exactly if the ranges are. */
  predicate SampledWithin(s: SampledNode, c: Calibration, maximumAttempts: nat) {
    && (if c.latency.None? then s.latency == 0
        else InScale(s.latency, c.latency.value, c.expansion, maximumAttempts))
    && (if c.cost.None? then s.cost.None?
        else s.cost.Some? && InScale(s.cost.value, c.cost.value, c.expansion, maximumAttempts))
    && (if c.tokens.None? then s.tokens.None?
        else s.tokens.Some? && InScale(s.tokens.value, Together(c.tokens.value.0, c.tokens.value.1), c.expansion,
          maximumAttempts))
    && (s.failed ==> c.failure.Some? && c.failure.value > 0)
  }

  /** Scaling draws up saturates monotonically. */
  lemma ScaledBounds(low: nat, x: nat, high: nat, attempts: nat, maximum: nat, e0: nat, e: nat, e1: nat)
    requires low <= x <= high && 1 <= attempts <= maximum && e0 <= e <= e1
    ensures SaturatingMul(low, e0) <= SaturatingMul(SaturatingMul(x, attempts), e)
    ensures SaturatingMul(SaturatingMul(x, attempts), e) <= SaturatingMul(SaturatingMul(high, maximum), e1)
  {
    ProductMonotone(x, attempts, high, maximum);
    ProductMonotone(Saturate(x * attempts), e, Saturate(high * maximum), e1);
    ProductMonotone(low, 1, x, attempts);
    if x * attempts <= U64_MAX {
      ProductMonotone(low, e0, x * attempts, e);
    } else if e > 0 {
      ProductMonotone(U64_MAX, 1, U64_MAX, e);
    }
  }

  lemma ProductMonotone(a: nat, b: nat, c: nat, d: nat)
    requires a <= c && b <= d
    ensures a * b <= c * d
  {
    assert a * b <= c * b <= c * d by {
      assert c * b - a * b == (c - a) * b;
      assert c * d - c * b == c * (d - b);
    }
  }

  function Scaled(x: nat, attempts: nat, expansion: nat): nat {
    SaturatingMul(SaturatingMul(x, attempts), expansion)
  }

  predicate ExpansionIn(e: nat, expansion: Option<Range>) {
    if expansion.None? then e == 1 else Max(1, expansion.value.minimum) <= e <= Max(1, expansion.value.maximum)
  }

  lemma ScaledInScale(x: nat, r: Range, attempts: nat, maximumAttempts: nat, e: nat, expansion: Option<Range>)
    requires r.minimum <= x <= r.maximum && 1 <= attempts <= maximumAttempts && ExpansionIn(e, expansion)
    ensures InScale(Scaled(x, attempts, e), r, expansion, maximumAttempts)
  {
    ScaledBounds(r.minimum, x, r.maximum, attempts, maximumAttempts,
      if expansion.None? then 1 else Max(1, expansion.value.minimum), e,
      if expansion.None? then 1 else Max(1, expansion.value.maximum));
  }

  /** `x` is the drawn value for every attempt and every spawned node, as far as 64 bits go. */
  predicate IsProduct(x: nat, drawn: nat, attempts: nat, spawned: nat) {
    x == if drawn * attempts * spawned <= 0xFFFF_FFFF_FFFF_FFFF then drawn * attempts * spawned
         else 0xFFFF_FFFF_FFFF_FFFF
  }

  lemma ScaledMeaning(drawn: nat, attempts: nat, spawned: nat)
    requires spawned > 0
    ensures IsProduct(Scaled(drawn, attempts, spawned), drawn, attempts, spawned)
  {
    var y := drawn * attempts;
    if y > U64_MAX {
      ProductMonotone(y, 1, y, spawned);
      ProductMonotone(U64_MAX, 1, U64_MAX, spawned);
    }
  }

  function MovedBy(s: bv64, r: Option<Range>): bv64 {
    if r.None? then s else Moved(s, r.value)
  }

  /** A known range gives a value, for every attempt and every spawned node. */
  ghost predicate IsDrawn(x: Option<nat>, r: Option<Range>, s: bv64, attempts: nat, spawned: nat) {
    if r.None? then x.None? else x.Some? && IsProduct(x.value, Drawn(s, r.value), attempts, spawned)
  }

  /** Input and output tokens are drawn one after the other. */
  ghost predicate AreDrawn(x: Option<nat>, r: Option<(Range, Range)>, s: bv64, attempts: nat, spawned: nat,
      after: bv64)
  {
    if r.None? then x.None? && after == s else
      var between := Moved(s, r.value.0);
      && x.Some? && after == Moved(between, r.value.1)
      && IsProduct(x.value, SaturatingAdd(Drawn(s, r.value.0), Drawn(between, r.value.1)), attempts, spawned)
  }

  /** What is drawn for a node, in order: the number of spawned nodes, the attempts, latency,
      cost and tokens. */
  ghost predicate IsSample(s: bv64, c: Calibration, maximumAttempts: nat, attempts: nat, n: SampledNode, after: bv64) {
    var spawned := if c.expansion.None? then 1 else Max(1, Drawn(s, c.expansion.value));
    var s1 := MovedBy(s, c.expansion);
    var s2 := if c.failure.None? then s1 else After(s1, attempts);
    var s3 := MovedBy(s2, c.latency);
    && (if c.failure.None? then attempts == 1 && !n.failed
        else IsRetried(s1, c.failure.value, maximumAttempts, attempts, n.failed))
    && (if c.latency.None? then n.latency == 0 else IsDrawn(Some(n.latency), c.latency, s2, attempts, spawned))
    && IsDrawn(n.cost, c.cost, s3, attempts, spawned)
    && AreDrawn(n.tokens, c.tokens, MovedBy(s3, c.cost), attempts, spawned, after)
  }

  /** Source: the closure that samples one node. */
  method SampleNode(rng: SeededRng, c: Calibration, maximumAttempts: nat) returns (s: SampledNode, ghost tries: nat)
    requires ValidCalibration(c) && maximumAttempts > 0
    modifies rng
    ensures SampledWithin(s, c, maximumAttempts)
    ensures IsSample(old(rng.state), c, maximumAttempts, tries, s, rng.state)
  {
    var spawned := DrawExpansion(rng, c.expansion);
    var attempts, failed := 1, false;
    if c.failure.Some? { attempts, failed := rng.Attempts(c.failure.value, maximumAttempts); }
    tries := attempts;
    var latency := DrawScaled(rng, c.latency, attempts, maximumAttempts, spawned, c.expansion);
    var cost := DrawScaled(rng, c.cost, attempts, maximumAttempts, spawned, c.expansion);
    var tokens := DrawTokens(rng, c.tokens, attempts, maximumAttempts, spawned, c.expansion);
    s := SampledNode(if latency.None? then 0 else latency.value, cost, tokens, failed);
  }

  /** The number of spawned nodes, at least one. */
  method DrawExpansion(rng: SeededRng, r: Option<Range>) returns (spawned: nat)
    requires ValidOption(r)
    modifies rng
    ensures ExpansionIn(spawned, r) && rng.state == MovedBy(old(rng.state), r)
    ensures spawned == if r.None? then 1 else Max(1, Drawn(old(rng.state), r.value))
  {
    if r.None? { return 1; }
    var drawn := DrawIn(rng, r.value);
    spawned := Max(1, drawn);
  }

  method DrawScaled(rng: SeededRng, r: Option<Range>, attempts: nat, ghost maximumAttempts: nat, spawned: nat,
      ghost expansion: Option<Range>)
    returns (x: Option<nat>)
    requires ValidOption(r) && 1 <= attempts <= maximumAttempts && ExpansionIn(spawned, expansion)
    modifies rng
    ensures IsDrawn(x, r, old(rng.state), attempts, spawned) && rng.state == MovedBy(old(rng.state), r)
    ensures r.Some? ==> InScale(x.value, r.value, expansion, maximumAttempts)
  {
    if r.None? { return None; }
    var drawn := DrawIn(rng, r.value);
    ScaledInScale(drawn, r.value, attempts, maximumAttempts, spawned, expansion);
    ScaledMeaning(drawn, attempts, spawned);
    x := Some(Scaled(drawn, attempts, spawned));
  }

  method DrawTokens(rng: SeededRng, r: Option<(Range, Range)>, attempts: nat, ghost maximumAttempts: nat, spawned: nat,
      ghost expansion: Option<Range>)
    returns (x: Option<nat>)
    requires r.Some? ==> ValidRange(r.value.0) && ValidRange(r.value.1)
    requires 1 <= attempts <= maximumAttempts && ExpansionIn(spawned, expansion)
    modifies rng
    ensures AreDrawn(x, r, old(rng.state), attempts, spawned, rng.state)
    ensures r.Some? ==> InScale(x.value, Together(r.value.0, r.value.1), expansion, maximumAttempts)
  {
    if r.None? { return None; }
    var (ins, outs) := r.value;
    var input := DrawIn(rng, ins);
    var output := DrawIn(rng, outs);
    var drawn := SaturatingAdd(input, output);
    ScaledInScale(drawn, Together(ins, outs), attempts, maximumAttempts, spawned, expansion);
    ScaledMeaning(drawn, attempts, spawned);
    x := Some(Scaled(drawn, attempts, spawned));
  }

  method DrawIn(rng: SeededRng, r: Range) returns (x: nat)
    requires ValidRange(r)
    modifies rng
    ensures r.minimum <= x <= r.maximum && x == Drawn(old(rng.state), r) && rng.state == Moved(old(rng.state), r)
  {
    DrawnInRange(rng.state, r);
    x := rng.Sample(r);
  }
}
