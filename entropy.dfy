/**
 * The entropy fold of `generate_rng`: starting from a hardware seed, every
 * raw IR duration is added to its index and XORed into the seed, all in
 * 32-bit unsigned arithmetic. The seed (a hardware random word XOR the cycle
 * counter) and the durations (read from the received signal) are inputs.
 */
module Entropy {
  import opened Word32

  /** `times[i] + i` in 32-bit unsigned arithmetic. */
  function Term(t: u32, i: nat): u32 {
    Add(t, FromNat(i))
  }

  /** The left-to-right fold `seed ^= times[i] + i` over all durations. */
  function Fold(seed: u32, times: seq<u32>): u32
    decreases |times|
  {
    if times == [] then seed
    else Xor32(Fold(seed, times[..|times| - 1]), Term(times[|times| - 1], |times| - 1))
  }

  /** generate_rng with its hardware seed and its signal's durations passed in. */
  method GenerateRng(seed: u32, times: seq<u32>) returns (rng: u32)
    ensures rng == Fold(seed, times)
    ensures times == [] ==> rng == seed
  {
    rng := seed;
    for i := 0 to |times|
      invariant rng == Fold(seed, times[..i])
    {
      assert times[..i + 1][..i] == times[..i];
      rng := Xor32(rng, Term(times[i], i));
    }
    assert times[..|times|] == times;
  }

  /** For a fixed index, distinct durations give distinct terms. */
  lemma TermInjective(a: u32, b: u32, i: nat)
    ensures Term(a, i) == Term(b, i) ==> a == b
  {
    AddCancel(a, b, FromNat(i));
  }

  /** The seed enters the fold linearly: XORing it with b XORs the result with b. */
  lemma {:induction false} FoldSeedShift(a: u32, b: u32, times: seq<u32>)
    ensures Fold(Xor32(a, b), times) == Xor(Fold(a, times), b)
    decreases |times|
  {
    if times != [] {
      var n := |times|;
      var t := Term(times[n - 1], n - 1);
      FoldSeedShift(a, b, times[..n - 1]);
      var f := Fold(a, times[..n - 1]);
      XorAssoc(f, b, t);
      XorComm(b, t);
      XorAssoc(f, t, b);
    }
  }

  /** Distinct seeds give distinct results for the same durations. */
  lemma SeedSensitive(a: u32, b: u32, times: seq<u32>)
    ensures Fold(a, times) == Fold(b, times) ==> a == b
  {
    XorComm(0, a);
    XorZero(a);
    XorComm(0, b);
    XorZero(b);
    FoldSeedShift(0, a, times);
    FoldSeedShift(0, b, times);
    var z := Fold(0, times);
    if Xor(z, a) == Xor(z, b) {
      XorAssoc(z, z, a);
      XorAssoc(z, z, b);
      XorSelf(z);
    }
  }

  /** Replacing the duration at k swaps its term out of the fold and the new term in. */
  lemma {:induction false} FoldPointChange(seed: u32, times: seq<u32>, k: nat, v: u32)
    requires k < |times|
    ensures Fold(seed, times[k := v]) == Xor(Xor(Fold(seed, times), Term(times[k], k)), Term(v, k))
    decreases |times|
  {
    var n := |times|;
    var changed := times[k := v];
    var f := Fold(seed, times[..n - 1]);
    var oldTerm, newTerm := Term(times[k], k), Term(v, k);
    if k == n - 1 {
      assert changed[..n - 1] == times[..n - 1];
      XorUndo(f, oldTerm);
    } else {
      assert changed[..n - 1] == times[..n - 1][k := v];
      FoldPointChange(seed, times[..n - 1], k, v);
      var last := Term(times[n - 1], n - 1);
      // ((f ^ o) ^ w) ^ last == ((f ^ last) ^ o) ^ w: the last term commutes to the front.
      XorAssoc(Xor(f, oldTerm), newTerm, last);
      XorComm(newTerm, last);
      XorAssoc(Xor(f, oldTerm), last, newTerm);
      XorAssoc(f, oldTerm, last);
      XorComm(oldTerm, last);
      XorAssoc(f, last, oldTerm);
    }
  }

  /** Changing any single duration changes the result: no term cancels out. */
  lemma DurationSensitive(seed: u32, times: seq<u32>, k: nat, v: u32)
    requires k < |times| && v != times[k]
    ensures Fold(seed, times[k := v]) != Fold(seed, times)
  {
    FoldPointChange(seed, times, k, v);
    TermInjective(times[k], v, k);
    var f, o, w := Fold(seed, times), Term(times[k], k), Term(v, k);
    if Xor(Xor(f, o), w) == f {
      // then o ^ w == 0, so o == w
      XorAssoc(f, o, w);
      XorAssoc(f, f, Xor(o, w));
      XorSelf(f);
      XorComm(0, Xor(o, w));
      XorZero(Xor(o, w));
      XorZeroOnlyEqual(o, w);
    }
  }
}
