/**
 * The generator's random numbers: the xorshift state of random_bits, the
 * rejection sampling of random_upto and the Fisher-Yates shuffle.
 *
 * unsigned long is taken to be 64 bits wide.  Its values are Words.Word;
 * x << k is (x * 2^k) mod 2^64, x >> k is x / 2^k, ^ is Words.Xor, and the
 * mask x & ((1 << k) - 1) is x mod 2^k.
 */
module Random {

  import opened Tiles
  import opened Words

  /** x << 11 on unsigned long. */
  function Shl11(x: Word): Word
  {
    (x * 0x800) % HashSpace
  }

  /** The state words after one step of random_bits. */
  function NextState(s: seq<Word>): (r: seq<Word>)
    requires |s| == 4
  {
    [s[1], s[2], s[3], Xor(Xor(s[3], s[3] / 0x8_0000), Xor(Xor(s[0], Shl11(s[0])), Xor(s[0], Shl11(s[0])) / 0x100))]
  }

  lemma Pow2Positive(k: nat)
    ensures Pow2(k) >= 1
  {
  }

  /** The low k bits of v, bit by bit: v & ((1 << k) - 1). */
  function LowBits(v: nat, k: nat): (r: nat)
    ensures r <= v
  {
    if k == 0 then 0 else 2 * LowBits(v / 2, k - 1) + v % 2
  }

  /** The low k bits make a number below 2^k. */
  lemma {:induction false} LowBitsBelow(v: nat, k: nat)
    ensures LowBits(v, k) < Pow2(k)
  {
    if k > 0 {
      LowBitsBelow(v / 2, k - 1);
    }
  }

  /** A number below 2^k is its own low k bits. */
  lemma {:induction false} LowBitsKeeps(v: nat, k: nat)
    ensures v < Pow2(k) ==> LowBits(v, k) == v
  {
    if k > 0 && v < Pow2(k) {
      LowBitsKeeps(v / 2, k - 1);
    }
  }

  /** random_bits' result from the new last state word: its low bits bits when bits < 32. */
  function Mask(v: Word, bits: nat): (r: Word)
    ensures bits < 32 ==> r < Pow2(bits)
    ensures v < Pow2(bits) ==> r == v
  {
    if bits < 32 then
      LowBitsBelow(v, bits);
      LowBitsKeeps(v, bits);
      LowBits(v, bits)
    else
      v
  }

  /** The state of random_bits: four unsigned longs. */
  class Rng {
    const state: array<Word>

    ghost predicate Valid()
      reads this
    {
      state.Length == 4
    }

    /** A state with the four given words (random_new's seeding is not part of this model). */
    constructor (s0: Word, s1: Word, s2: Word, s3: Word)
      ensures Valid() && fresh(state) && state[..] == [s0, s1, s2, s3]
    {
      var a := new Word[4];
      a[0], a[1], a[2], a[3] := s0, s1, s2, s3;
      state := a;
    }

    /**
     * random_bits: one xorshift step of the state; the result is the new
     * last word, cut to its low bits bits when bits < 32.
     */
    method RandomBits(bits: nat) returns (r: Word)
      requires Valid()
      modifies state
      ensures state[..] == NextState(old(state[..]))
      ensures r == Mask(state[3], bits)
      ensures bits < 32 ==> r < Pow2(bits)
    {
      var ret := Xor(state[0], Shl11(state[0]));
      state[0] := state[1];
      state[1] := state[2];
      state[2] := state[3];
      state[3] := Xor(Xor(state[3], state[3] / 0x8_0000), Xor(ret, ret / 0x100));
      r := Mask(state[3], bits);
    }

    /**
     * random_upto: 0 for a zero limit; otherwise draws of random_bits with
     * the bit length of limit until one falls below limit, at most fuel of
     * them (None when all fuel draws fail).
     */
    method RandomUpto(limit: Word, fuel: nat) returns (r: Option<Word>)
      requires Valid()
      modifies state
      ensures limit == 0 ==> r == Some(0) && state[..] == old(state[..])
      ensures limit != 0 && r.Some? ==> r.value < limit
    {
      if limit == 0 {
        return Some(0);
      }
      var bits := BitLength(limit);
      var n := fuel;
      while n > 0
        decreases n
      {
        var v := RandomBits(bits);
        if v < limit {
          return Some(v);
        }
        n := n - 1;
      }
      return None;
    }
  }

  /** A halving step of the bit count: (P, max) -> (2P, max / 2) keeps P * max <= v < P * (max + 1). */
  lemma Halve(v: int, p: int, m: int)
    requires p >= 1 && m >= 1 && p * m <= v < p * (m + 1)
    ensures p <= v
    ensures (2 * p) * (m / 2) <= v < (2 * p) * (m / 2 + 1)
  {
    var h, b := m / 2, m % 2;
    assert m == 2 * h + b;
    assert p * m == (2 * p) * h + p * b;
    assert p * (m + 1) == (2 * p) * h + p * (b + 1);
    assert p * (b + 1) <= 2 * p;
    assert p <= p * m;
  }

  /** The loop of random_upto counting the bits of limit: 2^(bits-1) <= limit < 2^bits. */
  method BitLength(limit: Word) returns (bits: nat)
    ensures limit < Pow2(bits)
    ensures bits > 0 ==> Pow2(bits - 1) <= limit
    ensures limit > 0 ==> bits > 0
  {
    bits := 0;
    var max: int := limit;
    while max > 0
      invariant Pow2(bits) * max <= limit < Pow2(bits) * (max + 1)
      invariant bits > 0 ==> Pow2(bits - 1) <= limit
      invariant limit > 0 ==> bits > 0 || max > 0
      decreases max
    {
      Pow2Positive(bits);
      Halve(limit, Pow2(bits), max);
      bits := bits + 1;
      max := max / 2;
    }
  }

  /**
   * shuffle: Fisher-Yates from the last position down, each position i
   * swapped with the draw random_upto(i + 1) (kept in place when a draw
   * runs out of fuel); the array stays a permutation of its contents.
   */
  method Shuffle<T>(a: array<T>, rs: Rng, fuel: nat)
    requires rs.Valid() && a as object != rs.state && a.Length < 0x8000_0000
    modifies a, rs.state
    ensures multiset(a[..]) == multiset(old(a[..]))
  {
    var i := a.Length;
    while i > 1
      invariant 0 <= i <= a.Length
      invariant multiset(a[..]) == multiset(old(a[..]))
      decreases i
    {
      i := i - 1;
      var d := rs.RandomUpto(i + 1, fuel);
      var j := if d.Some? then d.value else i;
      if j != i {
        a[i], a[j] := a[j], a[i];
      }
    }
  }
}
