/**
  `PseudoAzar` of the second engine (EXTRA.py): a generator that mixes the
  wall clock into its state with xorshift steps and a linear congruential
  step, masking to 32 bits. Python's integers are unbounded, so the state is a
  natural number and the bit operations are written out on naturals: the
  first seed, taken from the clock in milliseconds, is wider than 32 bits and
  its high bits do reach the first output through the right shift.

  The clock is an oracle: `clock(n)` is `int(time() * 1000)` at the n-th
  reading of the clock in the whole program. Both the generator and the
  energy transfer of an encounter read it, so the environment counts the
  readings.
 */
module PseudoRandom {

  function Pow2(k: nat): (r: nat)
    ensures r >= 1
  {
    if k == 0 then 1 else 2 * Pow2(k - 1)
  }

  /** `0x100000000`: one more than the 32-bit mask `0xFFFFFFFF`. */
  const Modulus: nat := 0x1_0000_0000

  /** `v & 0xFFFFFFFF` for a non-negative `v`: its low 32 bits. */
  function Mask(v: nat): (r: nat)
    ensures r < Modulus
    ensures v < Modulus ==> r == v
  {
    v % Modulus
  }

  lemma {:induction false} Pow2Add(a: nat, b: nat)
    ensures Pow2(a + b) == Pow2(a) * Pow2(b)
    decreases a
  {
    if a > 0 {
      Pow2Add(a - 1, b);
    }
  }

  lemma ModulusIsPow2()
    ensures Pow2(32) == Modulus
  {
    assert Pow2(4) == 16;
    Pow2Add(4, 4);
    Pow2Add(8, 8);
    Pow2Add(16, 16);
  }

  /** Python's `a ^ b` on non-negative integers, bit by bit from the lowest. */
  function Xor(a: nat, b: nat): nat
    decreases a + b
  {
    if a == 0 then b
    else if b == 0 then a
    else 2 * Xor(a / 2, b / 2) + (if a % 2 == b % 2 then 0 else 1)
  }

  /** Exclusive or never sets a bit above the operands' width. */
  lemma {:induction false} XorBound(a: nat, b: nat, k: nat)
    requires a < Pow2(k) && b < Pow2(k)
    ensures Xor(a, b) < Pow2(k)
    decreases k
  {
    if a != 0 && b != 0 {
      assert k > 0;
      XorBound(a / 2, b / 2, k - 1);
    }
  }

  /** Bit `k` of a non-negative integer. */
  function Bit(a: nat, k: nat): (r: nat)
    ensures r <= 1
  {
    if k == 0 then a % 2 else Bit(a / 2, k - 1)
  }

  /** Zero has no bits set. */
  lemma {:induction false} BitOfZero(k: nat)
    ensures Bit(0, k) == 0
  {
    if k > 0 {
      BitOfZero(k - 1);
    }
  }

  /** `Xor` is Python's `^`: each bit of the result is set exactly when the
      operands' bits in that position differ. */
  lemma {:induction false} XorBits(a: nat, b: nat, k: nat)
    ensures Bit(Xor(a, b), k) == if Bit(a, k) == Bit(b, k) then 0 else 1
    decreases k
  {
    if a == 0 {
      BitOfZero(k);
    } else if b == 0 {
      BitOfZero(k);
    } else if k > 0 {
      var x := Xor(a, b);
      assert x / 2 == Xor(a / 2, b / 2);
      XorBits(a / 2, b / 2, k - 1);
    }
  }

  /** The generator: its whole state is `s`; `readings` counts the clock
      readings made so far by anyone. */
  datatype Env = Env(seed: nat, readings: nat)

  /** The `semilla` argument: absent, or a given non-negative number. */
  datatype Seed = FromClock | Given(value: nat)

  /** `PseudoAzar(semilla)`, the clock having been read `readings` times
      before: only a missing seed costs a clock reading. */
  function NewEnv(seed: Seed, clock: nat -> nat, readings: nat): (e: Env)
    ensures e.readings == readings + (if seed.FromClock? then 1 else 0)
    ensures seed.Given? ==> e.seed == seed.value
    ensures seed.FromClock? ==> e.seed == clock(readings)
  {
    match seed
    case Given(v) => Env(v, readings)
    case FromClock => Env(clock(readings), readings + 1)
  }

  /** The mixing of `next_u32`, as a function of the state and the clock
      reading `tms`: fold in the low 32 bits of the clock, three xorshift
      steps (left 13, right 17, left 5, i.e. times 8192, divided by 131072,
      times 32, the left shifts masked to 32 bits) and the step
      `(1103515245 * s + 12345) & 0xFFFFFFFF`. */
  function Mix(s: nat, tms: nat): (r: nat)
    ensures r < Modulus
  {
    var s1 := Xor(s, Mask(tms));
    var s2 := Xor(s1, Mask(s1 * 8192));
    var s3 := Xor(s2, s2 / 131072);
    var s4 := Xor(s3, Mask(s3 * 32));
    Mask(1103515245 * s4 + 12345)
  }

  /** From a 32-bit state every intermediate value of the xorshift steps
      stays within 32 bits, so only the multiplication of the congruential
      step ever needs more. */
  lemma MixStaysNarrow(s: nat, tms: nat)
    requires s < Modulus
    ensures var s1 := Xor(s, Mask(tms));
      var s2 := Xor(s1, Mask(s1 * 8192));
      var s3 := Xor(s2, s2 / 131072);
      var s4 := Xor(s3, Mask(s3 * 32));
      s1 < Modulus && s2 < Modulus && s3 < Modulus && s4 < Modulus
  {
    ModulusIsPow2();
    var s1 := Xor(s, Mask(tms));
    XorBound(s, Mask(tms), 32);
    var s2 := Xor(s1, Mask(s1 * 8192));
    XorBound(s1, Mask(s1 * 8192), 32);
    var s3 := Xor(s2, s2 / 131072);
    XorBound(s2, s2 / 131072, 32);
    XorBound(s3, Mask(s3 * 32), 32);
  }

  /** `next_u32()`: readings the clock once, mixes, and returns the new state,
      which is always below 2^32 whatever the seed and the clock say. */
  function NextU32(e: Env, clock: nat -> nat): (r: (Env, nat))
    ensures r.1 < Modulus
    ensures r.0 == Env(r.1, e.readings + 1)
    ensures r.1 == Mix(e.seed, clock(e.readings))
  {
    var v := Mix(e.seed, clock(e.readings));
    (Env(v, e.readings + 1), v)
  }

  /** After the first draw the state is a 32-bit number, so from then on the
      generator never leaves 32-bit arithmetic. */
  lemma NextU32Narrows(e: Env, clock: nat -> nat)
    ensures NextU32(e, clock).0.seed < Modulus
    ensures NextU32(NextU32(e, clock).0, clock).0.seed < Modulus
  {
  }

  /** `indice(modulo)`: one draw reduced modulo `m`. Python raises for a zero
      modulus; the engine only ever asks for 9 and 4. */
  function Index(e: Env, m: nat, clock: nat -> nat): (r: (Env, nat))
    requires m > 0
    ensures r.1 < m
    ensures r.0 == NextU32(e, clock).0
    ensures r.1 == NextU32(e, clock).1 % m
  {
    var (e1, u) := NextU32(e, clock);
    (e1, u % m)
  }

  /** `rand01() < 0.6` on a draw `u`: `(u & 0xFFFFFF) / 2^24 < 0.6`. */
  predicate Biased(u: nat) {
    u % 0x100_0000 < 10066330
  }

  /** The integer threshold is the exact one: the low 24 bits `x` satisfy
      `x / 2^24 < 3/5` exactly when `x < 10066330`. The float `0.6` lies
      below 3/5 by less than 2^-54, and no multiple of 2^-24 falls in
      between, so the float comparison agrees too. */
  lemma BiasedIsSixTenths(u: nat)
    ensures Biased(u) <==> ((u % 0x100_0000) as real) / 16777216.0 < 0.6
  {
    var x := u % 0x100_0000;
    assert (x as real) / 16777216.0 < 0.6 <==> 5 * x < 3 * 16777216;
  }

  /** `int(time() * 1000)` read outside the generator (the energy transfer
      of an encounter): the state is untouched, the reading is counted. */
  function Now(e: Env, clock: nat -> nat): (r: (Env, nat))
    ensures r.0 == e.(readings := e.readings + 1)
    ensures r.1 == clock(e.readings)
  {
    (e.(readings := e.readings + 1), clock(e.readings))
  }
}
