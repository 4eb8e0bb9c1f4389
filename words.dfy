/**
 * 64-bit words and their exclusive or.
 *
 * The solvers keep a Zobrist hash in a uint64_t and update it with ^.  A
 * word is modelled as an integer in [0, 2^64) and ^ as the bitwise exclusive
 * or of two naturals, defined one bit at a time from the lowest bit up; on
 * words this is exactly the C operator, and it keeps the algebra (associative,
 * commutative, self-inverse) provable by induction on the bits.
 */
module Words {

  const HashSpace: int := 0x1_0000_0000_0000_0000

  /** A uint64_t value. */
  type Word = w: int | 0 <= w < HashSpace

  function Pow2(k: nat): nat { if k == 0 then 1 else 2 * Pow2(k - 1) }

  lemma {:induction false} Pow2Add(a: nat, b: nat)
    ensures Pow2(a + b) == Pow2(a) * Pow2(b)
    decreases a
  {
    if a > 0 {
      Pow2Add(a - 1, b);
    }
  }

  lemma Pow2Of64()
    ensures Pow2(64) == HashSpace
  {
    assert Pow2(1) == 2;
    Pow2Add(1, 1);
    Pow2Add(2, 2);
    Pow2Add(4, 4);
    Pow2Add(8, 8);
    Pow2Add(16, 16);
    Pow2Add(32, 32);
  }

  /** Bitwise exclusive or of two naturals. */
  function BitXor(a: nat, b: nat): nat
    decreases a + b
  {
    if a == 0 then b
    else if b == 0 then a
    else 2 * BitXor(a / 2, b / 2) + (a % 2 + b % 2) % 2
  }

  /** The lowest bit of a ^ b is the sum of the lowest bits mod 2, the rest is the ^ of the rest. */
  lemma BitXorSplit(a: nat, b: nat)
    ensures BitXor(a, b) / 2 == BitXor(a / 2, b / 2)
    ensures BitXor(a, b) % 2 == (a % 2 + b % 2) % 2
  {
    var r := (a % 2 + b % 2) % 2;
    if a == 0 {
      assert BitXor(a / 2, b / 2) == b / 2;
      assert r == b % 2;
    } else if b == 0 {
      assert BitXor(a / 2, b / 2) == a / 2;
      assert r == a % 2;
    } else {
      assert BitXor(a, b) == 2 * BitXor(a / 2, b / 2) + r;
      HalvesOf(BitXor(a / 2, b / 2), r);
    }
  }

  /** 2q + r, for a bit r, halves to q with remainder r. */
  lemma HalvesOf(q: nat, r: nat)
    requires r < 2
    ensures (2 * q + r) / 2 == q && (2 * q + r) % 2 == r
  {
  }

  lemma EqualByHalves(l: nat, r: nat)
    requires l / 2 == r / 2 && l % 2 == r % 2
    ensures l == r
  {
  }

  lemma ParityXor3(a: nat, b: nat, c: nat)
    ensures ((a % 2 + b % 2) % 2 + c % 2) % 2 == (a % 2 + (b % 2 + c % 2) % 2) % 2
  {
  }

  lemma {:induction false} BitXorComm(a: nat, b: nat)
    ensures BitXor(a, b) == BitXor(b, a)
    decreases a + b
  {
    if a != 0 && b != 0 {
      BitXorComm(a / 2, b / 2);
    }
  }

  lemma {:induction false} BitXorAssoc(a: nat, b: nat, c: nat)
    ensures BitXor(BitXor(a, b), c) == BitXor(a, BitXor(b, c))
    decreases a + b + c
  {
    var ab := BitXor(a, b);
    var bc := BitXor(b, c);
    if a == 0 {
      assert ab == b && BitXor(a, bc) == bc;
    } else if b == 0 {
      assert ab == a && bc == c;
    } else if c == 0 {
      assert bc == b && BitXor(ab, c) == ab;
    } else {
      BitXorAssoc(a / 2, b / 2, c / 2);
      BitXorSplit(a, b);
      BitXorSplit(ab, c);
      BitXorSplit(b, c);
      BitXorSplit(a, bc);
      ParityXor3(a, b, c);
      var l, r := BitXor(ab, c), BitXor(a, bc);
      assert l / 2 == r / 2;
      EqualByHalves(l, r);
    }
  }

  lemma {:induction false} BitXorSelf(a: nat)
    ensures BitXor(a, a) == 0
    decreases a
  {
    if a != 0 {
      BitXorSelf(a / 2);
    }
  }

  lemma {:induction false} BitXorBound(a: nat, b: nat, k: nat)
    requires a < Pow2(k) && b < Pow2(k)
    ensures BitXor(a, b) < Pow2(k)
    decreases k
  {
    if a != 0 && b != 0 {
      BitXorBound(a / 2, b / 2, k - 1);
    }
  }

  /** a ^ b on uint64_t. */
  function Xor(a: Word, b: Word): Word
  {
    Pow2Of64();
    BitXorBound(a, b, 64);
    BitXor(a, b)
  }

  lemma XorAssoc(a: Word, b: Word, c: Word)
    ensures Xor(Xor(a, b), c) == Xor(a, Xor(b, c))
  {
    BitXorAssoc(a, b, c);
  }

  lemma XorComm(a: Word, b: Word)
    ensures Xor(a, b) == Xor(b, a)
  {
    BitXorComm(a, b);
  }

  lemma XorZero(a: Word)
    ensures Xor(a, 0) == a
  {
  }

  /** XORing the same key twice cancels it: this is what makes undo restore the hash. */
  lemma XorCancel(a: Word, b: Word)
    ensures Xor(Xor(a, b), b) == a
  {
    XorAssoc(a, b, b);
    BitXorSelf(b);
  }

  /** Moving a final term past two others: ((p ^ a) ^ b) ^ e == ((p ^ e) ^ a) ^ b. */
  lemma XorRotate(p: Word, a: Word, b: Word, e: Word)
    ensures Xor(Xor(Xor(p, a), b), e) == Xor(Xor(Xor(p, e), a), b)
  {
    XorAssoc(Xor(p, a), b, e);
    XorComm(b, e);
    XorAssoc(Xor(p, a), e, b);
    XorAssoc(p, a, e);
    XorComm(a, e);
    XorAssoc(p, e, a);
  }

  /** Replacing the final term: ((p ^ a) ^ a) ^ b == p ^ b. */
  lemma XorReplace(p: Word, a: Word, b: Word)
    ensures Xor(Xor(Xor(p, a), a), b) == Xor(p, b)
  {
    XorCancel(p, a);
  }

  /** Two keys XORed in and then out again in the same order leave the hash unchanged. */
  lemma XorUndoTwo(h: Word, k1: Word, k2: Word)
    ensures Xor(Xor(Xor(Xor(h, k1), k2), k1), k2) == h
  {
    XorRotate(h, k1, k2, k1);
    XorReplace(h, k1, k2);
    XorCancel(h, k2);
  }

  /** The integers 0 .. n-1. */
  function Below(n: nat): (r: set<int>)
    ensures forall i :: i in r <==> 0 <= i < n
    ensures |r| == n
  {
    if n == 0 then {} else Below(n - 1) + {n - 1}
  }

  /** Adding a hash to a set grows it by one exactly when the hash is new. */
  lemma AddHash(s: set<Word>, h: Word)
    ensures |s + {h}| == if h in s then |s| else |s| + 1
  {
    if h in s {
      assert s + {h} == s;
    }
  }

  /** A set of 64-bit hashes has at most 2^64 elements. */
  lemma HashSetBound(s: set<Word>)
    ensures |s| <= HashSpace
  {
    var t: set<int> := s;
    var b := Below(HashSpace);
    assert t <= b;
    assert |b - t| == |b| - |t|;
  }
}
