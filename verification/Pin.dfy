/** Six-digit PINs by rejection sampling. */
module Pin {
  import opened Prelude
  import opened Decimal

  const U32_MAX: nat := 0xFFFF_FFFF
  const PINS: nat := 1_000_000

  /** Samples from here on are rejected. */
  const LIMIT: nat := U32_MAX / PINS * PINS

  /** `{:06}`: zeros in front up to the width. */
  function Pad(s: string, width: nat): (r: string)
    requires AllDigits(s)
    ensures AllDigits(r) && |r| == if |s| < width then width else |s|
    decreases width
  {
    if |s| >= width then s else ['0'] + Pad(s, width - 1)
  }

  function PinOf(sample: nat): string {
    Pad(Print(sample % PINS), 6)
  }

  predicate IsPin(s: string) {
    |s| == 6 && AllDigits(s)
  }

  lemma {:induction false} LeadingZero(s: string)
    requires AllDigits(s)
    ensures AllDigits(['0'] + s) && Value(['0'] + s) == Value(s)
  {
    if s == [] {
      assert ['0'][..0] == [];
    } else {
      LeadingZero(s[..|s| - 1]);
      assert (['0'] + s)[..|s|] == ['0'] + s[..|s| - 1];
    }
  }

  lemma {:induction false} PadValue(s: string, width: nat)
    requires AllDigits(s)
    ensures Value(Pad(s, width)) == Value(s)
    decreases width
  {
    if |s| < width {
      PadValue(s, width - 1);
      LeadingZero(Pad(s, width - 1));
    }
  }

  function Power10(k: nat): nat {
    if k == 0 then 1 else 10 * Power10(k - 1)
  }

  lemma {:induction false} PrintLength(n: nat, width: nat)
    requires width > 0 && n < Power10(width)
    ensures |Print(n)| <= width
  {
    if n >= 10 {
      PrintLength(n / 10, width - 1);
    }
  }

  /** Strings of digits of one length are told apart by their values. */
  lemma {:induction false} ValueInjective(s: string, t: string)
    requires AllDigits(s) && AllDigits(t) && |s| == |t| && Value(s) == Value(t)
    ensures s == t
  {
    if s != [] {
      var k := |s| - 1;
      ValueInjective(s[..k], t[..k]);
      assert s == s[..k] + [s[k]] && t == t[..k] + [t[k]];
    }
  }

  lemma {:induction false} ValueBound(s: string)
    requires AllDigits(s)
    ensures Value(s) < Power10(|s|)
  {
    if s != [] {
      ValueBound(s[..|s| - 1]);
    }
  }

  lemma SixDigits()
    ensures Power10(6) == PINS
  {
  }

  /** The PIN of a sample is six digits whose value is the sample modulo a
      million, and no other six digits have that value. */
  lemma PinOfExact(n: nat, pin: string)
    requires IsPin(pin)
    ensures IsPin(PinOf(n)) && Value(PinOf(n)) == n % PINS && Value(pin) < PINS
    ensures PinOf(n) == pin <==> n % PINS == Value(pin)
  {
    SixDigits();
    PrintLength(n % PINS, 6);
    PadValue(Print(n % PINS), 6);
    ValueOfPrint(n % PINS);
    ValueBound(pin);
    if n % PINS == Value(pin) {
      ValueInjective(PinOf(n), pin);
    }
  }

  /** The samples below `bound` that give this PIN. */
  ghost function Hits(pin: string, bound: nat): set<nat> {
    set n: nat | n < bound && PinOf(n) == pin
  }

  lemma RoundRemainder(n: nat, q: nat, v: nat)
    requires q * PINS <= n < q * PINS + PINS && v < PINS
    ensures n % PINS == v <==> n == q * PINS + v
  {
  }

  /** In every round of a million samples exactly one more gives this PIN. */
  lemma OneHitPerRound(pin: string, q: nat)
    requires IsPin(pin)
    ensures Hits(pin, q * PINS + PINS) == Hits(pin, q * PINS) + {q * PINS + Value(pin)}
  {
    PinOfExact(0, pin);
    forall n: nat | q * PINS <= n < q * PINS + PINS
      ensures PinOf(n) == pin <==> n == q * PINS + Value(pin)
    {
      PinOfExact(n, pin);
      RoundRemainder(n, q, Value(pin));
    }
  }

  lemma {:induction false} HitsInRounds(pin: string, q: nat)
    requires IsPin(pin)
    ensures |Hits(pin, q * PINS)| == q
  {
    if q == 0 {
      assert Hits(pin, 0) == {};
    } else {
      HitsInRounds(pin, q - 1);
      OneHitPerRound(pin, q - 1);
      assert (q - 1) * PINS + PINS == q * PINS;
    }
  }

  /** Every six-digit PIN is produced by exactly 4294 of the accepted samples. */
  lemma PinsAreUnbiased(pin: string)
    requires IsPin(pin)
    ensures LIMIT <= U32_MAX && |Hits(pin, LIMIT)| == 4294
  {
    assert LIMIT == 4294 * PINS;
    HitsInRounds(pin, 4294);
  }

  /** `gen_pin` on the samples the generator will give: the first accepted one
      decides. */
  method GenPin(samples: seq<nat>) returns (pin: Option<string>, used: nat)
    requires forall i :: 0 <= i < |samples| ==> samples[i] <= U32_MAX
    ensures used <= |samples|
    ensures pin.Some? ==>
              && used > 0 && samples[used - 1] < LIMIT
              && IsPin(pin.value) && Value(pin.value) == samples[used - 1] % PINS
    ensures pin.Some? ==> samples[used - 1] in Hits(pin.value, LIMIT)
    ensures forall i :: 0 <= i < (if pin.Some? then used - 1 else |samples|) ==> samples[i] >= LIMIT
  {
    used := 0;
    while used < |samples|
      invariant used <= |samples|
      invariant forall i :: 0 <= i < used ==> samples[i] >= LIMIT
    {
      var n := samples[used];
      used := used + 1;
      if n < LIMIT {
        PinOfExact(n, "000000");
        return Some(PinOf(n)), used;
      }
    }
    return None, used;
  }
}
