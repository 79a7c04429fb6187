/** Machine words as naturals, with their widths written out. */
module Words {
  const TWO32: nat := 0x1_0000_0000
  const TWO64: nat := 0x1_0000_0000_0000_0000

  type Byte = n: nat | n < 256
  type U32 = n: nat | n < TWO32
  type U64 = n: nat | n < TWO64

  /** Bitwise exclusive or of two words of the given width. */
  function Xor(width: nat, x: nat, y: nat): nat {
    if width == 0 then 0 else 2 * Xor(width - 1, x / 2, y / 2) + (x + y) % 2
  }

  /** Sixty-four bit positions make a 64-bit word; the remainder only states the width. */
  function Xor64(x: U64, y: U64): U64 {
    Xor(64, x, y) % TWO64
  }

  function Xor32(x: U32, y: U32): U32 {
    Xor(32, x, y) % TWO32
  }

  function Pow2(k: nat): (p: nat)
    ensures p > 0
  {
    if k == 0 then 1 else 2 * Pow2(k - 1)
  }

  function Bit(x: nat, k: nat): nat {
    if k == 0 then x % 2 else Bit(x / 2, k - 1)
  }

  lemma XorParts(width: nat, x: nat, y: nat)
    requires width > 0
    ensures Xor(width, x, y) / 2 == Xor(width - 1, x / 2, y / 2)
    ensures Xor(width, x, y) % 2 == (x + y) % 2
  {
  }

  lemma ParityOfSum(x: nat, y: nat)
    ensures (x + y) % 2 == if x % 2 != y % 2 then 1 else 0
  {
  }

  /** Bit by bit: a bit is set where the two words differ. */
  lemma {:induction false} XorBit(width: nat, x: nat, y: nat, k: nat)
    requires k < width
    ensures Bit(Xor(width, x, y), k) == if Bit(x, k) != Bit(y, k) then 1 else 0
  {
    hide Xor;
    XorParts(width, x, y);
    if k == 0 {
      ParityOfSum(x, y);
    } else {
      XorBit(width - 1, x / 2, y / 2, k - 1);
    }
  }

  lemma {:induction false} XorFits(width: nat, x: nat, y: nat)
    ensures Xor(width, x, y) < Pow2(width)
  {
    if width > 0 { XorFits(width - 1, x / 2, y / 2); }
  }

  lemma CancelBit(x: nat, y: nat)
    ensures ((x + y) % 2 + y) % 2 == x % 2
  {
  }

  lemma FromParts(x: nat, z: nat)
    requires z / 2 == x / 2 && z % 2 == x % 2
    ensures z == x
  {
  }

  lemma HalfFits(x: nat, p: nat)
    requires x < 2 * p
    ensures x / 2 < p
  {
  }

  lemma ParityAfterXor(width: nat, x: nat, y: nat)
    requires width > 0
    ensures Xor(width, Xor(width, x, y), y) % 2 == x % 2
  {
    hide Xor;
    var once := Xor(width, x, y);
    XorParts(width, x, y);
    XorParts(width, once, y);
    CancelBit(x, y);
    ParityOfSum(once, y);
    ParityOfSum((x + y) % 2, y);
  }

  /** Applied twice, the second word cancels. */
  lemma {:induction false} XorCancels(width: nat, x: nat, y: nat)
    requires x < Pow2(width)
    ensures Xor(width, Xor(width, x, y), y) == x
  {
    if width > 0 {
      hide Xor;
      HalfFits(x, Pow2(width - 1));
      XorCancels(width - 1, x / 2, y / 2);
      XorParts(width, x, y);
      XorParts(width, Xor(width, x, y), y);
      ParityAfterXor(width, x, y);
      FromParts(x, Xor(width, Xor(width, x, y), y));
    }
  }

  lemma {:induction false} XorCommutes(width: nat, x: nat, y: nat)
    ensures Xor(width, x, y) == Xor(width, y, x)
  {
    if width > 0 { XorCommutes(width - 1, x / 2, y / 2); }
  }

  lemma {:induction false} Pow2Add(a: nat, b: nat)
    ensures Pow2(a + b) == Pow2(a) * Pow2(b)
    decreases a
  {
    if a > 0 { Pow2Add(a - 1, b); }
  }

  lemma Pow2Doubles(a: nat, p: nat)
    requires Pow2(a) == p
    ensures Pow2(2 * a) == p * p
  {
    Pow2Add(a, a);
  }

  lemma Pow2OfOne(a: nat)
    requires a == 1
    ensures Pow2(a) == 2
  {
    assert Pow2(a - 1) == 1;
  }

  lemma Pow2Of64(width: nat)
    requires width == 64
    ensures Pow2(width) == TWO64
  {
    hide Pow2;
    Pow2OfOne(1);
    Pow2Doubles(1, 2);
    Pow2Doubles(2, 4);
    Pow2Doubles(4, 16);
    Pow2Doubles(8, 0x100);
    Pow2Doubles(16, 0x1_0000);
    Pow2Doubles(32, 0x1_0000_0000);
  }

  lemma Xor64Is(x: U64, y: U64)
    ensures Xor64(x, y) == Xor(64, x, y)
  {
    hide Xor;
    Pow2Of64(64);
    XorFits(64, x, y);
  }

  lemma Xor64Cancels(x: U64, y: U64)
    ensures Xor64(Xor64(x, y), y) == x
  {
    hide Xor, Xor64, Pow2;
    Pow2Of64(64);
    Xor64Is(x, y);
    Xor64Is(Xor64(x, y), y);
    XorCancels(64, x, y);
  }

  /** For a fixed second word, exclusive or loses nothing of the first. */
  lemma XorIsInjective(x: U64, y: U64, c: U64)
    requires Xor64(x, c) == Xor64(y, c)
    ensures x == y
  {
    hide Xor64;
    Xor64Cancels(x, c);
    Xor64Cancels(y, c);
  }

  lemma Xor64Commutes(x: U64, y: U64)
    ensures Xor64(x, y) == Xor64(y, x)
  {
    XorCommutes(64, x, y);
  }
}
