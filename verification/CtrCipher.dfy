/** AES-CTR at arbitrary file offsets. Models `AESCTRCipherStream` of
    Enterprise/RocksDBEngine/EncryptionProvider.cpp against counter mode, section 6.5 of
    NIST SP 800-38A, with the standard incrementing function of its Appendix B.1 on all 128 bits.
    The block cipher under the stream's key is an uninterpreted function. */
module CtrCipher {
  /** A counter byte is added to and carried; a data byte is combined by exclusive or. */
  type CounterByte = n: nat | n < 256
  type DataByte = bv8

  type Counter = b: seq<CounterByte> | |b| == 16 witness seq(16, _ => 0)
  type Block = b: seq<DataByte> | |b| == 16 witness seq(16, _ => 0)
  type BlockCipher = Counter -> Block

  // ---------- sixteen bytes as one big-endian number ----------

  function Pow256(n: nat): (r: nat)
    ensures r > 0
  {
    if n == 0 then 1 else 256 * Pow256(n - 1)
  }

  function ToNat(b: seq<CounterByte>): nat {
    if b == [] then 0 else 256 * ToNat(b[..|b| - 1]) + b[|b| - 1]
  }

  /** The first byte weighs most. */
  lemma ToNatSnoc(b: seq<CounterByte>, x: CounterByte)
    ensures ToNat([]) == 0 && ToNat(b + [x]) == 256 * ToNat(b) + x
  {
    assert (b + [x])[..|b|] == b;
  }

  /** The low `len` bytes of n. */
  function FromNat(n: nat, len: nat): (b: seq<CounterByte>)
    ensures |b| == len
  {
    if len == 0 then [] else FromNat(n / 256, len - 1) + [n % 256]
  }

  /** The standard incrementing function, applied n times. */
  function CounterPlus(c: Counter, n: nat): Counter {
    FromNat(ToNat(c) + n, |c|)
  }

  lemma {:induction false} ToNatBound(b: seq<CounterByte>)
    ensures ToNat(b) < Pow256(|b|)
  {
    if b != [] { ToNatBound(b[..|b| - 1]); }
  }

  lemma {:induction false} ToNatFromNat(b: seq<CounterByte>)
    ensures FromNat(ToNat(b), |b|) == b
  {
    if b != [] {
      ToNatFromNat(b[..|b| - 1]);
    }
  }

  lemma Regroup(n: nat, high: nat, k: nat, w: nat)
    requires n / 256 == high + k * w
    ensures n == 256 * high + n % 256 + k * (256 * w)
  {
    assert 256 * (k * w) == k * (256 * w);
  }

  /** What `FromNat` cuts off is a multiple of the modulus. */
  lemma {:induction false} FromNatCuts(n: nat, len: nat) returns (k: nat)
    ensures n == ToNat(FromNat(n, len)) + k * Pow256(len)
  {
    if len == 0 {
      k := n;
    } else {
      k := FromNatCuts(n / 256, len - 1);
      var b := FromNat(n, len);
      assert b[..len - 1] == FromNat(n / 256, len - 1) && b[len - 1] == n % 256;
      Regroup(n, ToNat(b[..len - 1]), k, Pow256(len - 1));
    }
  }

  lemma ShiftedByByte(n: nat, k: nat, w: nat)
    ensures (n + k * (256 * w)) / 256 == n / 256 + k * w && (n + k * (256 * w)) % 256 == n % 256
  {
    assert k * (256 * w) == 256 * (k * w);
  }

  lemma {:induction false} FromNatIgnoresMultiples(n: nat, k: nat, len: nat)
    ensures FromNat(n + k * Pow256(len), len) == FromNat(n, len)
    decreases len
  {
    if len > 0 {
      ShiftedByByte(n, k, Pow256(len - 1));
      FromNatIgnoresMultiples(n / 256, k, len - 1);
    }
  }

  lemma Pow256Is128Bits(len: nat)
    requires len == 16
    ensures Pow256(len) == 0x1_0000_0000_0000_0000_0000_0000_0000_0000
  {
    assert Pow256(8) == 0x1_0000_0000_0000_0000;
    assert Pow256(12) == 0x1_0000_0000_0000_0000_0000_0000;
    assert Pow256(16) == 0x1_0000_0000_0000_0000_0000_0000_0000_0000;
  }

  lemma RemainderIs(x: nat, q: nat, m: nat, r: nat)
    requires x == r + q * m && r < m
    ensures x % m == r
  {
    var d: int := q - x / m;
    var e: int := x % m - r;
    assert d * m == e;
    assert d >= 1 ==> d * m >= m;
    assert d <= -1 ==> d * m <= -(m as int);
  }

  /** Read as numbers, counters count modulo 2^128. */
  lemma CounterCountsMod128Bits(c: Counter, n: nat)
    ensures ToNat(CounterPlus(c, n)) == (ToNat(c) + n) % 0x1_0000_0000_0000_0000_0000_0000_0000_0000
  {
    var k := FromNatCuts(ToNat(c) + n, |c|);
    ToNatBound(CounterPlus(c, n));
    Pow256Is128Bits(|c|);
    RemainderIs(ToNat(c) + n, k, Pow256(|c|), ToNat(CounterPlus(c, n)));
  }

  /** Changing one byte changes the number by its weight. */
  lemma {:induction false} ToNatUpdate(b: seq<CounterByte>, i: nat, v: CounterByte)
    requires i < |b|
    ensures ToNat(b[i := v]) == ToNat(b) + (v - b[i]) * Pow256(|b| - 1 - i)
  {
    var n := |b| - 1;
    var c := b[i := v];
    if i == n {
      assert c[..n] == b[..n];
    } else {
      ToNatUpdate(b[..n], i, v);
      assert c[..n] == b[..n][i := v];
      var d, w: int := v - b[i], Pow256(n - 1 - i);
      assert 256 * (d * w) == d * (256 * w);
    }
  }

  // ---------- the reference: counter mode, block by block ----------

  function XorSeq(data: seq<DataByte>, stream: seq<DataByte>): (r: seq<DataByte>)
    requires |data| <= |stream|
    ensures |r| == |data|
  {
    seq(|data|, i requires 0 <= i < |data| => data[i] ^ stream[i])
  }

  /** CTR encryption of a whole message: each block of 16 bytes, the last perhaps shorter, is
      combined with the cipher of the next counter. */
  function CtrMode(cipher: BlockCipher, counter: Counter, data: seq<DataByte>): (r: seq<DataByte>)
    ensures |r| == |data|
    decreases |data|
  {
    if |data| <= 16 then XorSeq(data, cipher(counter))
    else XorSeq(data[..16], cipher(counter)) + CtrMode(cipher, CounterPlus(counter, 1), data[16..])
  }

  /** The key stream byte at an absolute position. */
  function StreamByte(cipher: BlockCipher, counter: Counter, n: nat): DataByte {
    cipher(CounterPlus(counter, n / 16))[n % 16]
  }

  /** The data combined with the key stream from the given position on. */
  function Transformed(cipher: BlockCipher, counter: Counter, offset: nat, data: seq<DataByte>): (r: seq<DataByte>)
    ensures |r| == |data|
  {
    seq(|data|, i requires 0 <= i < |data| => data[i] ^ StreamByte(cipher, counter, offset + i))
  }

  /** Byte by byte, without the key stream's name. */
  lemma TransformedAt(cipher: BlockCipher, counter: Counter, offset: nat, data: seq<DataByte>, after: seq<DataByte>)
    requires after == Transformed(cipher, counter, offset, data)
    ensures |after| == |data|
    ensures forall i :: 0 <= i < |data| ==>
              after[i] == data[i] ^ cipher(CounterPlus(counter, (offset + i) / 16))[(offset + i) % 16]
  {
    forall i | 0 <= i < |data|
      ensures after[i] == data[i] ^ cipher(CounterPlus(counter, (offset + i) / 16))[(offset + i) % 16]
    {
      assert after[i] == data[i] ^ StreamByte(cipher, counter, offset + i);
    }
  }

  lemma CounterPlusZero(c: Counter)
    ensures CounterPlus(c, 0) == c
  {
    ToNatFromNat(c);
  }

  lemma CounterPlusPlus(c: Counter, i: nat, j: nat)
    ensures CounterPlus(CounterPlus(c, i), j) == CounterPlus(c, i + j)
  {
    hide ToNat, FromNat, Pow256;
    var k := FromNatCuts(ToNat(c) + i, |c|);
    FromNatIgnoresMultiples(ToNat(CounterPlus(c, i)) + j, k, |c|);
    assert ToNat(c) + (i + j) == ToNat(CounterPlus(c, i)) + j + k * Pow256(|c|);
  }

  lemma StreamFromBlock(cipher: BlockCipher, counter: Counter, block: nat, n: nat)
    ensures StreamByte(cipher, CounterPlus(counter, block), n) == StreamByte(cipher, counter, 16 * block + n)
  {
    assert (16 * block + n) / 16 == block + n / 16 && (16 * block + n) % 16 == n % 16;
    CounterPlusPlus(counter, block, n / 16);
  }

  lemma FirstBlock(cipher: BlockCipher, counter: Counter, i: nat)
    requires i < 16
    ensures StreamByte(cipher, counter, i) == cipher(counter)[i]
  {
    CounterPlusZero(counter);
  }

  /** Counter mode is the position-wise combination with the key stream from position 0. */
  lemma {:induction false} CtrModeIsPointwise(cipher: BlockCipher, counter: Counter, data: seq<DataByte>)
    ensures CtrMode(cipher, counter, data) == Transformed(cipher, counter, 0, data)
    decreases |data|
  {
    var next := CounterPlus(counter, 1);
    if |data| > 16 {
      CtrModeIsPointwise(cipher, next, data[16..]);
    }
    forall i | 0 <= i < |data|
      ensures CtrMode(cipher, counter, data)[i] == data[i] ^ StreamByte(cipher, counter, i)
    {
      if i < 16 {
        FirstBlock(cipher, counter, i);
      } else {
        StreamFromBlock(cipher, counter, 1, i - 16);
        assert data[16..][i - 16] == data[i];
        assert CtrMode(cipher, counter, data)[i] == CtrMode(cipher, next, data[16..])[i - 16];
      }
    }
  }

  // ---------- the library's cipher context ----------

  lemma NextPosition(c: Counter, p: nat)
    ensures (p + 1) % 16 == if p % 16 == 15 then 0 else p % 16 + 1
    ensures CounterPlus(c, (p + 1) / 16) ==
            if p % 16 == 15 then CounterPlus(CounterPlus(c, p / 16), 1) else CounterPlus(c, p / 16)
  {
    CounterPlusPlus(c, p / 16, 1);
    assert (p + 1) / 16 == if p % 16 == 15 then p / 16 + 1 else p / 16;
  }

  /** `EVP_EncryptUpdate` in CTR mode: the context is the current counter block and the number of
      its key stream bytes already used. */
  class EvpContext {
    const cipher: BlockCipher
    ghost const initial: Counter
    ghost var position: nat
    var counter: Counter
    var used: nat

    ghost predicate Valid()
      reads this
    {
      used == position % 16 && counter == CounterPlus(initial, position / 16)
    }

    constructor (cipher: BlockCipher, counter: Counter)
      ensures Valid() && this.cipher == cipher && initial == counter && position == 0
    {
      this.cipher := cipher;
      this.counter := counter;
      initial := counter;
      position := 0;
      used := 0;
      new;
      CounterPlusZero(counter);
    }

    method EncryptUpdate(data: array<DataByte>, len: nat)
      requires Valid() && len <= data.Length
      modifies this, data
      ensures Valid() && position == old(position) + len
      ensures data[..len] == Transformed(cipher, initial, old(position), old(data[..len]))
      ensures data[len..] == old(data[len..])
    {
      XorBytes(data, len);
    }

    /** The bytes one by one, combined with the key stream from the position on. */
    method XorBytes(data: array<DataByte>, len: nat)
      requires Valid() && len <= data.Length
      modifies this, data
      ensures Valid() && position == old(position) + len
      ensures forall j :: 0 <= j < len ==> data[j] == old(data[j]) ^ StreamByte(cipher, initial, old(position) + j)
      ensures forall j :: len <= j < data.Length ==> data[j] == old(data[j])
    {
      var i := 0;
      while i < len
        invariant 0 <= i <= len
        invariant Valid() && position == old(position) + i
        invariant forall j :: 0 <= j < i ==> data[j] == old(data[j]) ^ StreamByte(cipher, initial, old(position) + j)
        invariant forall j :: i <= j < data.Length ==> data[j] == old(data[j])
      {
        var k := NextByte();
        data[i] := data[i] ^ k;
        i := i + 1;
      }
    }

    /** The key stream byte at the position, which moves on. */
    method NextByte() returns (k: DataByte)
      requires Valid()
      modifies this
      ensures Valid() && position == old(position) + 1
      ensures k == StreamByte(cipher, initial, old(position))
    {
      NextPosition(initial, position);
      k := cipher(counter)[used];
      used := used + 1;
      position := position + 1;
      if used == 16 {
        used := 0;
        counter := CounterPlus(counter, 1);
      }
    }
  }

  // ---------- the stream ----------

  /** The counter and the carry still to be added at byte i amount to the given total. */
  ghost predicate Amounts(b: seq<CounterByte>, i: int, carry: nat, total: nat) {
    -1 <= i < |b| && ToNat(b) + carry * Pow256(|b| - 1 - i) == total
  }

  function ByteSum(x: nat, carry: nat): nat {
    x + carry % 256
  }

  lemma MoveCarry(d: int, c: int, carry: int, w: int)
    requires d + c * 256 == carry
    ensures d * w + c * (256 * w) == carry * w
  {
  }

  /** One byte of the addition keeps counter plus pending carry. */
  lemma AmountsStep(b: seq<CounterByte>, after: seq<CounterByte>, i: nat, carry: nat, total: nat)
    requires i < |b| && Amounts(b, i, carry, total)
    requires after == b[i := ByteSum(b[i], carry) % 256]
    ensures Amounts(after, i - 1, carry / 256 + ByteSum(b[i], carry) / 256, total)
  {
    var sum := ByteSum(b[i], carry);
    ToNatUpdate(b, i, sum % 256);
    MoveCarry((sum % 256 as int) - b[i], carry / 256 + sum / 256, carry, Pow256(|b| - 1 - i));
  }

  /** One turn of the loop: a byte takes its part of the carry and passes the rest on. */
  method AddByte(counter: array<CounterByte>, i: nat, carry: nat, ghost total: nat) returns (rest: nat)
    requires i < counter.Length && Amounts(counter[..], i, carry, total)
    modifies counter
    ensures Amounts(counter[..], i - 1, rest, total)
  {
    ghost var was := counter[..];
    var sum := ByteSum(counter[i], carry);
    counter[i] := sum % 256;
    assert counter[..] == was[i := sum % 256];
    AmountsStep(was, counter[..], i, carry, total);
    rest := carry / 256 + sum / 256;
  }

  lemma AmountsAtStart(c: seq<CounterByte>, n: nat)
    requires c != []
    ensures Amounts(c, |c| - 1, n, ToNat(c) + n)
  {
    assert n * Pow256(0) == n;
  }

  lemma DoneWithoutCarry(b: seq<CounterByte>, i: int, total: nat)
    requires Amounts(b, i, 0, total)
    ensures b == FromNat(total, |b|)
  {
    assert 0 * Pow256(|b| - 1 - i) == 0;
    ToNatFromNat(b);
  }

  /** What is carried out of the first byte is lost. */
  lemma DoneAtTop(b: seq<CounterByte>, carry: nat, total: nat)
    requires Amounts(b, -1, carry, total)
    ensures b == FromNat(total, |b|)
  {
    ToNatFromNat(b);
    FromNatIgnoresMultiples(ToNat(b), carry, |b|);
  }

  /** With no carry left, or none to pass on to, the total is added modulo the counter's width. */
  lemma AmountsDone(b: seq<CounterByte>, i: int, carry: nat, total: nat)
    requires Amounts(b, i, carry, total) && (i < 0 || carry == 0)
    ensures b == FromNat(total, |b|)
  {
    if i < 0 { DoneAtTop(b, carry, total); } else { DoneWithoutCarry(b, i, total); }
  }

  /** The byte-wise big-endian addition of a block index to the counter. */
  method AddBlockIndex(counter: array<CounterByte>, blockIndex: nat)
    requires counter.Length == 16
    modifies counter
    ensures counter[..] == CounterPlus(old(counter[..]), blockIndex)
  {
    ghost var initial: Counter := counter[..];
    ghost var total := ToNat(initial) + blockIndex;
    var carry := blockIndex;
    var i := counter.Length - 1;
    AmountsAtStart(initial, blockIndex);
    while i >= 0 && carry > 0
      invariant Amounts(counter[..], i, carry, total)
    {
      carry := AddByte(counter, i, carry, total);
      i := i - 1;
    }
    AmountsDone(counter[..], i, carry, total);
  }

  /** Starting at a counter advanced by whole blocks is starting at the matching position. */
  lemma TransformedFromBlock(cipher: BlockCipher, counter: Counter, block: nat, offset: nat, data: seq<DataByte>)
    ensures Transformed(cipher, CounterPlus(counter, block), offset, data) ==
            Transformed(cipher, counter, 16 * block + offset, data)
  {
    var l := Transformed(cipher, CounterPlus(counter, block), offset, data);
    var r := Transformed(cipher, counter, 16 * block + offset, data);
    forall i | 0 <= i < |data| ensures l[i] == r[i] {
      StreamFromBlock(cipher, counter, block, offset + i);
    }
  }

  class CtrCipherStream {
    const cipher: BlockCipher
    const iv: Counter

    constructor (cipher: BlockCipher, iv: Counter)
      ensures this.cipher == cipher && this.iv == iv
    {
      this.cipher := cipher;
      this.iv := iv;
    }

    /** Transforms the data in place as the bytes of the file from `fileOffset` on. */
    method CtrTransform(fileOffset: nat, data: array<DataByte>)
      requires fileOffset < 0x1_0000_0000_0000_0000 && data.Length < 0x8000_0000
      modifies data
      ensures data[..] == Transformed(cipher, iv, fileOffset, old(data[..]))
      ensures forall i :: 0 <= i < data.Length ==>
                data[i] == old(data[i]) ^ cipher(CounterPlus(iv, (fileOffset + i) / 16))[(fileOffset + i) % 16]
    {
      if data.Length == 0 {
        return;
      }
      var blockIndex := fileOffset / 16;
      var blockOffset := fileOffset % 16;
      var counter := new CounterByte[16](i requires 0 <= i < 16 => iv[i]);
      assert counter[..] == iv;
      AddBlockIndex(counter, blockIndex);
      var ctx := new EvpContext(cipher, counter[..]);
      if blockOffset > 0 {
        var scratch := new DataByte[16](_ => 0);
        ctx.EncryptUpdate(scratch, blockOffset);
      }
      ctx.EncryptUpdate(data, data.Length);
      TransformedFromBlock(cipher, iv, blockIndex, blockOffset, old(data[..]));
      assert data[..data.Length] == data[..];
      assert old(data[..data.Length]) == old(data[..]);
      TransformedAt(cipher, iv, fileOffset, old(data[..]), data[..]);
    }

    method Encrypt(fileOffset: nat, data: array<DataByte>)
      requires fileOffset < 0x1_0000_0000_0000_0000 && data.Length < 0x8000_0000
      modifies data
      ensures data[..] == Transformed(cipher, iv, fileOffset, old(data[..]))
      ensures forall i :: 0 <= i < data.Length ==>
                data[i] == old(data[i]) ^ cipher(CounterPlus(iv, (fileOffset + i) / 16))[(fileOffset + i) % 16]
    {
      CtrTransform(fileOffset, data);
    }

    method Decrypt(fileOffset: nat, data: array<DataByte>)
      requires fileOffset < 0x1_0000_0000_0000_0000 && data.Length < 0x8000_0000
      modifies data
      ensures data[..] == Transformed(cipher, iv, fileOffset, old(data[..]))
      ensures forall i :: 0 <= i < data.Length ==>
                data[i] == old(data[i]) ^ cipher(CounterPlus(iv, (fileOffset + i) / 16))[(fileOffset + i) % 16]
    {
      CtrTransform(fileOffset, data);
    }
  }

  // ---------- what random access promises ----------

  /** Transforming a chunk at its offset gives the matching slice of the whole file in CTR mode. */
  lemma ChunkIsSlice(cipher: BlockCipher, iv: Counter, file: seq<DataByte>, offset: nat, len: nat)
    requires offset + len <= |file|
    ensures Transformed(cipher, iv, offset, file[offset..offset + len]) ==
            CtrMode(cipher, iv, file)[offset..offset + len]
  {
    CtrModeIsPointwise(cipher, iv, file);
  }

  /** Two adjacent calls compose into one. */
  lemma AdjacentCallsCompose(cipher: BlockCipher, iv: Counter, offset: nat, a: seq<DataByte>, b: seq<DataByte>)
    ensures Transformed(cipher, iv, offset, a + b) ==
            Transformed(cipher, iv, offset, a) + Transformed(cipher, iv, offset + |a|, b)
  {
    var whole := Transformed(cipher, iv, offset, a + b);
    var parts := Transformed(cipher, iv, offset, a) + Transformed(cipher, iv, offset + |a|, b);
    forall i | 0 <= i < |a + b| ensures whole[i] == parts[i] {
      if i >= |a| { assert offset + |a| + (i - |a|) == offset + i; }
    }
  }

  lemma XorTwice(x: DataByte, k: DataByte)
    ensures x ^ k ^ k == x
  {
  }

  /** Decryption at an offset undoes encryption at it. */
  lemma DecryptUndoesEncrypt(cipher: BlockCipher, iv: Counter, offset: nat, data: seq<DataByte>)
    ensures Transformed(cipher, iv, offset, Transformed(cipher, iv, offset, data)) == data
  {
    forall i | 0 <= i < |data|
      ensures Transformed(cipher, iv, offset, Transformed(cipher, iv, offset, data))[i] == data[i]
    {
      XorTwice(data[i], StreamByte(cipher, iv, offset + i));
    }
  }

  /** Any read of a file written by one encryption of the whole returns that part of the plaintext. */
  lemma ReadBackAnywhere(cipher: BlockCipher, iv: Counter, file: seq<DataByte>, offset: nat, len: nat)
    requires offset + len <= |file|
    ensures Transformed(cipher, iv, offset, CtrMode(cipher, iv, file)[offset..offset + len]) ==
            file[offset..offset + len]
  {
    ChunkIsSlice(cipher, iv, file, offset, len);
    DecryptUndoesEncrypt(cipher, iv, offset, file[offset..offset + len]);
  }
}
