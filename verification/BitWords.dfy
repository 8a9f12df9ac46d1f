/** Machine words as the sets of their bit numbers: `|` is union, `&` is intersection, `& ~` is difference. */
module BitWords {

  type Word = s: set<int> | forall b <- s :: 0 <= b < 32

  type Byte = s: set<int> | forall b <- s :: 0 <= b < 8

  type Nibble = s: set<int> | forall b <- s :: 0 <= b < 4

  function Xor(a: Word, b: Word): Word {
    (a - b) + (b - a)
  }

  /** The bits from the first up to, not including, the second number. */
  function Field(lo: nat, hi: nat): (f: set<int>)
    ensures forall b: int :: b in f <==> lo <= b < hi
  {
    if lo >= hi then {} else Field(lo, hi - 1) + {hi - 1}
  }

  function ShiftUp(s: set<int>, n: nat): set<int> {
    set b <- s :: b + n
  }

  function ShiftLeft(w: Word, n: nat): Word {
    ShiftUp(w, n) * Field(0, 32)
  }

  /** Masking a field out and putting bits in. */
  function Replaced(w: Word, field: set<int>, bits: Word): Word {
    (w - field) + bits
  }

  lemma Shifted(s: set<int>, n: nat, b: int)
    ensures b in ShiftUp(s, n) <==> b - n in s
  {
    if b - n in s {
      assert b - n + n in ShiftUp(s, n);
    }
  }

  /** The bits of a number. */
  function BitsOf(n: nat): set<int> {
    if n == 0 then {} else (if n % 2 == 1 then {0} else {}) + ShiftUp(BitsOf(n / 2), 1)
  }

  function Halved(n: nat, k: nat): nat {
    if k == 0 then n else Halved(n / 2, k - 1)
  }

  /** The bit of a number is the parity of what is left after shifting right. */
  lemma {:induction false} BitIs(n: nat, k: nat)
    ensures k in BitsOf(n) <==> Halved(n, k) % 2 == 1
  {
    Shifted(BitsOf(n / 2), 1, k);
    if k == 0 {
      NoNegativeBits(n / 2, -1);
    } else if n > 0 {
      BitIs(n / 2, k - 1);
    } else {
      ZeroHalved(k);
    }
  }

  lemma {:induction false} ZeroHalved(k: nat)
    ensures Halved(0, k) == 0
  {
    if k == 0 {
    } else {
      ZeroHalved(k - 1);
    }
  }

  lemma {:induction false} NoNegativeBits(n: nat, b: int)
    ensures b in BitsOf(n) ==> b >= 0
  {
    if n == 0 {
    } else {
      Shifted(BitsOf(n / 2), 1, b);
      NoNegativeBits(n / 2, b - 1);
    }
  }

  function Pow2(k: nat): (p: nat)
    ensures p > 0
  {
    if k == 0 then 1 else 2 * Pow2(k - 1)
  }

  lemma {:induction false} SmallHasNoBit(n: nat, k: nat, b: int)
    requires n < Pow2(k)
    ensures b in BitsOf(n) ==> 0 <= b < k
  {
    if n == 0 {
    } else {
      assert k > 0;
      Shifted(BitsOf(n / 2), 1, b);
      SmallHasNoBit(n / 2, k - 1, b - 1);
    }
  }

  lemma {:induction false} LargeHasABit(n: nat, k: nat) returns (b: nat)
    requires n >= Pow2(k)
    ensures b >= k && b in BitsOf(n)
  {
    if n == 1 {
      b := 0;
    } else {
      var c := LargeHasABit(n / 2, if k == 0 then 0 else k - 1);
      b := c + 1;
      Shifted(BitsOf(n / 2), 1, b);
    }
  }

  /** A number needs no more than k bits exactly when it is below two to the k. */
  lemma BitsBelow(n: nat, k: nat)
    ensures n < Pow2(k) <==> BitsOf(n) <= Field(0, k)
  {
    if n < Pow2(k) {
      forall b | b in BitsOf(n) ensures b in Field(0, k) {
        SmallHasNoBit(n, k, b);
      }
    } else {
      var b := LargeHasABit(n, k);
    }
  }

  const WORD_SIZE: nat := 0x1_0000_0000

  lemma Powers()
    ensures Pow2(5) == 32 && Pow2(8) == 0x100 && Pow2(32) == WORD_SIZE
  {
    assert Pow2(5) == 32 && Pow2(8) == 0x100;
    assert Pow2(16) == 0x1_0000;
    assert Pow2(24) == 0x100_0000;
  }

  /** The 32-bit word of an integer; a negative one is in two's complement. */
  function WordOf(n: int): Word {
    Powers();
    BitsBelow(n % WORD_SIZE, 32);
    BitsOf(n % WORD_SIZE)
  }

  lemma SmallWord(n: nat)
    requires n < WORD_SIZE
    ensures WordOf(n) == BitsOf(n)
  {
    hide BitsOf;
    assert n % WORD_SIZE == n;
  }

  /** A negative 8-bit number keeps its sign in bit 7. */
  lemma NegativeHasBit7(n: int)
    requires -0x80 <= n < 0
    ensures 7 in WordOf(n)
  {
    var w := n + WORD_SIZE;
    assert n % WORD_SIZE == w;
    HalvedTo(w, 7, 0x1FF_FFFF);
    BitIs(w, 7);
    hide BitsOf;
  }

  lemma {:induction false} HalvedTo(n: nat, k: nat, h: nat)
    requires Pow2(k) * h <= n < Pow2(k) * (h + 1)
    ensures Halved(n, k) == h
  {
    if k == 0 {
    } else {
      var p := Pow2(k - 1);
      assert Pow2(k) * h == 2 * (p * h) && Pow2(k) * (h + 1) == 2 * (p * (h + 1));
      HalvedTo(n / 2, k - 1, h);
    }
  }
}
