/** MinHash signatures over a hash family in the field of 2^61 - 1.
    Models Enterprise/Aql/MinHashFunctions.cpp. Words are naturals with their width written out:
    `x & p` is the low 61 bits, `x >> 61` the rest, a cast to 64 bits a remainder. */
module MinHash {
  import opened Words

  const P: nat := 0x1FFF_FFFF_FFFF_FFFF
  const TWO61: nat := 0x2000_0000_0000_0000

  /** What an untouched slot holds. */
  const NOTHING: U64 := 0xFFFF_FFFF_FFFF_FFFF

  datatype PermutationSeed = PermutationSeed(a: U64, b: U64)

  predicate ValidSeed(s: PermutationSeed) {
    1 <= s.a < P && s.b < P
  }

  // ---------- arithmetic on machine words ----------

  /** The fold shared by both reductions: low bits plus high bits, one conditional subtraction. */
  function Fold(lo: U64, hi: U64): U64 {
    var val := (lo + hi) % TWO64;
    if val >= P then val - P else val
  }

  function MulMod(a: U64, b: U64): U64 {
    var result := a * b;
    Fold(result % TWO61, (result / TWO61) % TWO64)
  }

  function ReduceMod(x: U64): U64 {
    Fold(x % TWO61, x / TWO61)
  }

  function AddMod(x: U64, y: U64): U64 {
    var result := (x + y) % TWO64;
    if result >= P then result - P else result
  }

  function PermutationHash(x: U64, seed: PermutationSeed): U64 {
    AddMod(MulMod(seed.a, ReduceMod(x)), seed.b)
  }

  lemma NoSmallMultiple(k: int, p: int, e: int)
    requires e == k * p && -p < e < p
    ensures k == 0 && e == 0
  {
    assert k >= 1 ==> k * p >= p;
    assert k <= -1 ==> k * p <= -p;
  }

  lemma ModIs(x: int, q: int, r: int)
    requires x == q * P + r && 0 <= r < P
    ensures x % P == r
  {
    NoSmallMultiple(x / P - q, P, r - x % P);
  }

  /** Folding is reduction mod P, because 2^61 is 1 mod P. */
  lemma FoldReduces(x: nat)
    requires x / TWO61 < P
    ensures Fold(x % TWO61, x / TWO61) == x % P
  {
    var lo, hi := x % TWO61, x / TWO61;
    assert x == hi * TWO61 + lo;
    if lo + hi >= P {
      ModIs(x, hi + 1, lo + hi - P);
    } else {
      ModIs(x, hi, lo + hi);
    }
  }

  lemma ProductBound(a: nat, b: nat, m: nat)
    requires a <= m && b <= m
    ensures a * b <= m * m
  {
    assert a * b <= m * b by { assert (m - a) * b >= 0; }
    assert m * b <= m * m by { assert m * (m - b) >= 0; }
  }

  lemma DivBound(x: nat)
    requires x <= (P - 1) * (P - 1)
    ensures x / TWO61 < P
  {
  }

  lemma ProductFits(a: nat, b: nat)
    requires a < P && b < P
    ensures a * b / TWO61 < P
  {
    ProductBound(a, b, P - 1);
    DivBound(a * b);
  }

  lemma ProductOfResidue(a: nat, x: nat)
    ensures (a * (x % P)) % P == (a * x) % P
  {
    var q, r := x / P, x % P;
    var w := a * r / P;
    calc {
      a * x;
      { assert x == q * P + r; }
      a * (q * P + r);
      a * (q * P) + a * r;
      (a * q) * P + a * r;
      { assert a * r == w * P + a * r % P; }
      (a * q) * P + w * P + a * r % P;
      (a * q + w) * P + a * r % P;
    }
    ModIs(a * x, a * q + w, a * r % P);
  }

  lemma AddModReduces(y: nat, b: U64)
    requires b < P
    ensures AddMod(y % P, b) == (y + b) % P
  {
    var r := y % P + b;
    ModIs(y + b, if r >= P then y / P + 1 else y / P, if r >= P then r - P else r);
  }

  lemma MulModReduces(a: U64, b: U64)
    requires a < P && b < P
    ensures MulMod(a, b) == a * b % P
  {
    var result := a * b;
    ProductFits(a, b);
    FoldReduces(result);
    assert (result / TWO61) % TWO64 == result / TWO61;
  }

  /** For every 64-bit x and every valid seed the permutation hash is (a*x + b) mod 2^61 - 1:
      no 64-bit sum and no 128-bit product on the way wraps around. */
  lemma PermutationHashIsLinear(x: U64, seed: PermutationSeed)
    requires ValidSeed(seed)
    ensures PermutationHash(x, seed) == (seed.a * x + seed.b) % P
    ensures PermutationHash(x, seed) < P
  {
    FoldReduces(x);
    MulModReduces(seed.a, x % P);
    ProductOfResidue(seed.a, x);
    AddModReduces(seed.a * x, seed.b);
  }

  // ---------- the hash family is injective on residues ----------

  ghost predicate IsPrime(n: nat) {
    n > 1 && forall d :: 1 < d < n ==> n % d != 0
  }

  lemma Multiple(k: int, p: nat, x: nat)
    requires p > 0 && x == k * p
    ensures x % p == 0
  {
    assert x % p == (k - x / p) * p;
    NoSmallMultiple(k - x / p, p, x % p);
  }

  /** Euclid's lemma, by descent on the factor a. */
  lemma {:induction false} PrimeDividesFactor(p: nat, a: nat, c: nat)
    requires IsPrime(p) && 0 < a < p && (a * c) % p == 0
    ensures c % p == 0
    decreases a
  {
    if a > 1 {
      var q, r := p / a, p % a;
      assert r != 0;
      var k := a * c / p;
      assert a * c == k * p;
      assert r * c == (c - q * k) * p by {
        assert p == q * a + r;
        assert r * c == p * c - q * (a * c);
        assert q * (a * c) == q * (k * p) == (q * k) * p;
      }
      Multiple(c - q * k, p, r * c);
      PrimeDividesFactor(p, r, c);
    }
  }

  lemma DifferenceDivides(p: nat, x: nat, y: nat)
    requires p > 0 && x >= y
    ensures x % p == y % p <==> (x - y) % p == 0
  {
    var qx, qy := x / p, y / p;
    assert x == qx * p + x % p && y == qy * p + y % p;
    if x % p == y % p {
      assert x - y == (qx - qy) * p;
      Multiple(qx - qy, p, x - y);
    }
    if (x - y) % p == 0 {
      var k := (x - y) / p;
      assert x - y == k * p;
      assert x % p - y % p == (k - qx + qy) * p;
      NoSmallMultiple(k - qx + qy, p, x % p - y % p);
    }
  }

  lemma LinearIsInjective(a: nat, b: nat, x: nat, y: nat)
    requires IsPrime(P) && 0 < a < P && x >= y
    requires (a * x + b) % P == (a * y + b) % P
    ensures x % P == y % P
  {
    assert a * x - a * y == a * (x - y) >= 0;
    DifferenceDivides(P, a * x + b, a * y + b);
    PrimeDividesFactor(P, a, x - y);
    DifferenceDivides(P, x, y);
  }

  /** A permutation of the family separates whatever the base hash separates mod P. */
  lemma PermutationHashIsInjective(x: U64, y: U64, seed: PermutationSeed)
    requires IsPrime(P) && ValidSeed(seed)
    requires PermutationHash(x, seed) == PermutationHash(y, seed)
    ensures x % P == y % P
  {
    PermutationHashIsLinear(x, seed);
    PermutationHashIsLinear(y, seed);
    if x < y {
      LinearIsInjective(seed.a, seed.b, y, x);
    } else {
      LinearIsInjective(seed.a, seed.b, x, y);
    }
  }

  // ---------- base hash and seeds ----------

  type Element = seq<Byte>

  /** One round of FNV-1a, 64 bits. */
  function FnvRound(hash: U64, c: Byte): U64 {
    Xor64(hash, c) * 1099511628211 % TWO64
  }

  function BaseHash(element: Element, seed: U64): U64 {
    if element == [] then Xor64(14695981039346656037, seed)
    else FnvRound(BaseHash(element[..|element| - 1], seed), element[|element| - 1])
  }

  method ComputeBaseHash(element: Element, seed: U64) returns (hash: U64)
    ensures hash == BaseHash(element, seed)
  {
    hash := Xor64(14695981039346656037, seed);
    for i := 0 to |element|
      invariant hash == BaseHash(element[..i], seed)
    {
      assert element[..i + 1][..i] == element[..i];
      hash := Xor64(hash, element[i]);
      hash := hash * 1099511628211 % TWO64;
    }
    assert element[..|element|] == element;
  }

  /** The four bytes of a 32-bit index, least significant first. */
  function IndexBytes(i: U32): Element {
    [i % 256, i / 256 % 256, i / 65536 % 256, i / 16777216 % 256]
  }

  lemma HashOfNothing(seed: U64)
    ensures BaseHash([], seed) == Xor64(14695981039346656037, seed)
  {
  }

  /** One more byte is combined into the word by exclusive or, and the word multiplied. */
  lemma HashOfOneMore(element: Element, c: Byte, seed: U64)
    ensures BaseHash(element + [c], seed) == Xor64(BaseHash(element, seed), c) * 1099511628211 % TWO64
  {
    assert (element + [c])[..|element|] == element;
  }

  lemma WordOf(n: int, k: int, r: U64)
    requires n == r + k * TWO64
    ensures n % TWO64 == r
  {
    NoSmallMultiple(n / TWO64 - k, TWO64, r - n % TWO64);
  }

  /** The multiplier is odd: its inverse modulo 2^64 undoes the multiplication. */
  lemma MultiplierInverts(x: U64)
    ensures (x * 1099511628211 % TWO64) * 14886173955864302971 % TWO64 == x
  {
    var q := x * 1099511628211 / TWO64;
    var y := x * 1099511628211 % TWO64;
    assert 1099511628211 * 14886173955864302971 == 1 + 887285111055 * TWO64;
    WordOf(y * 14886173955864302971, x * 887285111055 - q * 14886173955864302971, x);
  }

  /** A round loses nothing of the hash, and nothing of the byte. */
  lemma RoundIsInjective(h: U64, g: U64, c: Byte, d: Byte)
    requires FnvRound(h, c) == FnvRound(g, d)
    ensures Xor64(h, c) == Xor64(g, d)
    ensures c == d ==> h == g
    ensures h == g ==> c == d
  {
    MultiplierInverts(Xor64(h, c));
    MultiplierInverts(Xor64(g, d));
    if c == d { XorIsInjective(h, g, c); }
    if h == g {
      Xor64Commutes(h, c);
      Xor64Commutes(h, d);
      XorIsInjective(c, d, h);
    }
  }

  /** Elements that differ in one byte have different base hashes. */
  lemma {:induction false} OneByteShows(e: Element, f: Element, j: nat, seed: U64)
    requires |e| == |f| && j < |e| && e[j] != f[j]
    requires forall i :: 0 <= i < |e| && i != j ==> e[i] == f[i]
    ensures BaseHash(e, seed) != BaseHash(f, seed)
  {
    var m := |e| - 1;
    if j < m {
      OneByteShows(e[..m], f[..m], j, seed);
    } else {
      assert e[..m] == f[..m];
    }
    if BaseHash(e, seed) == BaseHash(f, seed) {
      RoundIsInjective(BaseHash(e[..m], seed), BaseHash(f[..m], seed), e[m], f[m]);
    }
  }

  lemma Digits(i: U32)
    ensures i / 256 / 256 == i / 65536
    ensures i / 65536 / 256 == i / 16777216 < 256
  {
  }

  lemma Recombine(i: nat, q: nat, r: nat, s: nat)
    requires q == i / 256 && r == q / 256 && s == r / 256
    ensures i == i % 256 + 256 * (q % 256) + 65536 * (r % 256) + 16777216 * s
  {
  }

  /** The four bytes hold the index, least significant first. */
  lemma IndexBytesRecombine(i: U32)
    ensures |IndexBytes(i)| == 4
    ensures i == IndexBytes(i)[0] as int + 256 * (IndexBytes(i)[1] as int)
                 + 65536 * (IndexBytes(i)[2] as int) + 16777216 * (IndexBytes(i)[3] as int)
  {
    Digits(i);
    Recombine(i, i / 256, i / 65536, i / 16777216);
  }

  /** Indices that differ in one byte are told apart by the hashes their seeds are made of. */
  lemma IndicesAreToldApart(i: U32, k: U32, j: nat, masterSeed: U64)
    requires j < 4 && IndexBytes(i)[j] != IndexBytes(k)[j]
    requires forall m :: 0 <= m < 4 && m != j ==> IndexBytes(i)[m] == IndexBytes(k)[m]
    ensures BaseHash(IndexBytes(i), masterSeed) != BaseHash(IndexBytes(k), masterSeed)
  {
    OneByteShows(IndexBytes(i), IndexBytes(k), j, masterSeed);
  }

  function SeedAt(i: U32, masterSeed: U64): (s: PermutationSeed)
    ensures ValidSeed(s)
  {
    PermutationSeed(BaseHash(IndexBytes(i), masterSeed) % (P - 1) + 1,
                    BaseHash(IndexBytes(i), Xor64(masterSeed, 0xDEADBEEF)) % P)
  }

  method GeneratePermutationSeeds(k: nat, masterSeed: U64) returns (seeds: seq<PermutationSeed>)
    requires k < 0x1_0000_0000
    ensures |seeds| == k
    ensures forall i :: 0 <= i < k ==> seeds[i] == SeedAt(i, masterSeed) && ValidSeed(seeds[i])
    ensures forall i :: 0 <= i < k ==>
              var bytes := [i % 256, i / 256 % 256, i / 65536 % 256, i / 16777216 % 256];
              && seeds[i].a == BaseHash(bytes, masterSeed) % (P - 1) + 1
              && seeds[i].b == BaseHash(bytes, Xor64(masterSeed, 0xDEADBEEF)) % P
  {
    seeds := [];
    var i := 0;
    while i < k
      invariant 0 <= i <= k && |seeds| == i
      invariant forall j :: 0 <= j < i ==> seeds[j] == SeedAt(j, masterSeed)
    {
      var a := ComputeBaseHash(IndexBytes(i), masterSeed);
      var b := ComputeBaseHash(IndexBytes(i), Xor64(masterSeed, 0xDEADBEEF));
      seeds := seeds + [PermutationSeed(a % (P - 1) + 1, b % P)];
      i := i + 1;
    }
  }

  // ---------- signatures ----------

  function SlotHash(seed: PermutationSeed, e: Element): U64 {
    PermutationHash(BaseHash(e, 0), seed)
  }

  /** The running minimum of one slot after the given elements. */
  function SlotMin(seed: PermutationSeed, elements: seq<Element>): U64 {
    if elements == [] then NOTHING else
      var before := SlotMin(seed, elements[..|elements| - 1]);
      var ph := SlotHash(seed, elements[|elements| - 1]);
      if ph < before then ph else before
  }

  function Signature(seeds: seq<PermutationSeed>, elements: seq<Element>): (r: seq<U64>)
    ensures |r| == |seeds|
  {
    seq(|seeds|, i requires 0 <= i < |seeds| => SlotMin(seeds[i], elements))
  }

  function Least(x: U64, y: U64): (z: U64)
    ensures z <= x && z <= y && (z == x || z == y)
  {
    if x < y then x else y
  }

  lemma SlotMinSnoc(seed: PermutationSeed, elements: seq<Element>, e: Element)
    ensures SlotMin(seed, elements + [e]) == Least(SlotMin(seed, elements), SlotHash(seed, e))
  {
    assert (elements + [e])[..|elements|] == elements;
  }

  /** The inner loop of `addElement`: every slot takes the smaller of what it holds and its hash. */
  method LowerMinimums(minimums: array<U64>, seeds: seq<PermutationSeed>, hash: PermutationSeed -> U64)
    requires minimums.Length == |seeds|
    modifies minimums
    ensures forall j :: 0 <= j < |seeds| ==> minimums[j] == Least(old(minimums[j]), hash(seeds[j]))
  {
    var i := 0;
    while i < |seeds|
      invariant 0 <= i <= |seeds|
      invariant forall j :: 0 <= j < i ==> minimums[j] == Least(old(minimums[j]), hash(seeds[j]))
      invariant forall j :: i <= j < |seeds| ==> minimums[j] == old(minimums[j])
    {
      var ph := hash(seeds[i]);
      if ph < minimums[i] {
        minimums[i] := ph;
      }
      i := i + 1;
    }
  }

  /** `std::fill` in `reset`. */
  method FillWithNothing(minimums: array<U64>)
    modifies minimums
    ensures forall j :: 0 <= j < minimums.Length ==> minimums[j] == NOTHING
  {
    for i := 0 to minimums.Length
      invariant forall j :: 0 <= j < i ==> minimums[j] == NOTHING
    {
      minimums[i] := NOTHING;
    }
  }

  /** `MinHashGenerator`. */
  class Generator {
    const seeds: seq<PermutationSeed>
    const minimums: array<U64>
    ghost var added: seq<Element>

    ghost predicate Valid()
      reads this, minimums
    {
      && minimums.Length == |seeds|
      && forall i :: 0 <= i < |seeds| ==> minimums[i] == SlotMin(seeds[i], added)
    }

    constructor (seeds: seq<PermutationSeed>)
      ensures Valid() && fresh(minimums) && this.seeds == seeds && added == []
    {
      this.seeds := seeds;
      minimums := new U64[|seeds|](_ => NOTHING);
      added := [];
    }

    method AddElement(e: Element)
      requires Valid()
      modifies this, minimums
      ensures Valid() && added == old(added) + [e]
      ensures forall j :: 0 <= j < |seeds| ==>
                && minimums[j] <= old(minimums[j])
                && minimums[j] <= PermutationHash(BaseHash(e, 0), seeds[j])
                && (minimums[j] == old(minimums[j]) || minimums[j] == PermutationHash(BaseHash(e, 0), seeds[j]))
    {
      var h := ComputeBaseHash(e, 0);
      LowerMinimums(minimums, seeds, seed => PermutationHash(h, seed));
      forall j | 0 <= j < |seeds| ensures minimums[j] == SlotMin(seeds[j], added + [e]) {
        SlotMinSnoc(seeds[j], added, e);
      }
      added := added + [e];
    }

    method Finalize() returns (sig: seq<U64>)
      requires Valid()
      ensures sig == Signature(seeds, added) && sig == minimums[..]
    {
      sig := minimums[..];
    }

    method Reset()
      requires Valid()
      modifies this, minimums
      ensures Valid() && added == []
      ensures forall j :: 0 <= j < minimums.Length ==> minimums[j] == 0xFFFF_FFFF_FFFF_FFFF
    {
      FillWithNothing(minimums);
      added := [];
    }
  }

  // ---------- what a slot is ----------

  lemma SlotHashInField(seed: PermutationSeed, e: Element)
    requires ValidSeed(seed)
    ensures SlotHash(seed, e) < P
  {
    PermutationHashIsLinear(BaseHash(e, 0), seed);
  }

  lemma SlotMinWithLast(seed: PermutationSeed, elements: seq<Element>, before: seq<Element>, last: Element)
    requires ValidSeed(seed) && elements == before + [last]
    requires forall e :: e in before ==> SlotMin(seed, before) <= SlotHash(seed, e) < P
    requires before != [] ==> exists e :: e in before && SlotMin(seed, before) == SlotHash(seed, e)
    ensures forall e :: e in elements ==> SlotMin(seed, elements) <= SlotHash(seed, e) < P
    ensures exists e :: e in elements && SlotMin(seed, elements) == SlotHash(seed, e)
  {
    SlotHashInField(seed, last);
    SlotMinSnoc(seed, before, last);
    var least, ph := SlotMin(seed, before), SlotHash(seed, last);
    if ph < least {
      assert last in elements;
    } else {
      assert before != [];
      var e :| e in before && least == SlotHash(seed, e);
      assert e in elements;
    }
  }

  /** A slot is the least hash of the elements, attained by one of them, and below `NOTHING`. */
  lemma {:induction false} SlotMinIsMinimum(seed: PermutationSeed, elements: seq<Element>)
    requires ValidSeed(seed)
    ensures forall e :: e in elements ==> SlotMin(seed, elements) <= SlotHash(seed, e) < P
    ensures elements != [] ==> exists e :: e in elements && SlotMin(seed, elements) == SlotHash(seed, e)
  {
    if elements == [] {
    } else {
      var n := |elements| - 1;
      SlotMinIsMinimum(seed, elements[..n]);
      SlotMinWithLast(seed, elements, elements[..n], elements[n]);
    }
  }

  /** A signature depends only on the set of elements: order and repeats do not matter. */
  lemma SignatureIgnoresOrder(seeds: seq<PermutationSeed>, a: seq<Element>, b: seq<Element>)
    requires forall i :: 0 <= i < |seeds| ==> ValidSeed(seeds[i])
    requires forall e :: e in a <==> e in b
    ensures Signature(seeds, a) == Signature(seeds, b)
  {
    forall i | 0 <= i < |seeds| ensures SlotMin(seeds[i], a) == SlotMin(seeds[i], b) {
      SlotMinIsMinimum(seeds[i], a);
      SlotMinIsMinimum(seeds[i], b);
      if a != [] { assert a[0] in b; }
      if b != [] { assert b[0] in a; }
    }
  }

  lemma {:induction false} SlotMinOfUnion(seed: PermutationSeed, a: seq<Element>, b: seq<Element>)
    ensures SlotMin(seed, a + b) == Least(SlotMin(seed, a), SlotMin(seed, b))
    decreases |b|
  {
    if b == [] {
      assert a + b == a;
    } else {
      var n := |b| - 1;
      assert (a + b)[..|a + b| - 1] == a + b[..n];
      SlotMinOfUnion(seed, a, b[..n]);
    }
  }

  /** The signature of a union is the pointwise minimum of the signatures. */
  lemma SignatureOfUnion(seeds: seq<PermutationSeed>, a: seq<Element>, b: seq<Element>)
    requires forall i :: 0 <= i < |seeds| ==> ValidSeed(seeds[i])
    ensures forall i :: 0 <= i < |seeds| ==>
              Signature(seeds, a + b)[i] ==
              if Signature(seeds, a)[i] < Signature(seeds, b)[i] then Signature(seeds, a)[i] else Signature(seeds, b)[i]
  {
    forall i | 0 <= i < |seeds|
      ensures SlotMin(seeds[i], a + b) == Least(SlotMin(seeds[i], a), SlotMin(seeds[i], b))
    {
      SlotMinOfUnion(seeds[i], a, b);
    }
  }

  // ---------- the MinHash theorem ----------

  /** No two elements of the list share a base hash mod P. */
  ghost predicate BaseInjective(elements: seq<Element>) {
    forall x, y :: x in elements && y in elements && BaseHash(x, 0) % P == BaseHash(y, 0) % P ==> x == y
  }

  ghost predicate IsMinimiser(seed: PermutationSeed, elements: seq<Element>, m: Element) {
    m in elements && forall e :: e in elements ==> SlotHash(seed, m) <= SlotHash(seed, e)
  }

  lemma MinimiserExists(seed: PermutationSeed, elements: seq<Element>) returns (m: Element)
    requires ValidSeed(seed) && elements != []
    ensures IsMinimiser(seed, elements, m)
    ensures IsPrime(P) && BaseInjective(elements) ==> forall n :: IsMinimiser(seed, elements, n) ==> n == m
  {
    SlotMinIsMinimum(seed, elements);
    m :| m in elements && SlotMin(seed, elements) == SlotHash(seed, m);
    if IsPrime(P) && BaseInjective(elements) {
      forall n | IsMinimiser(seed, elements, n) ensures n == m {
        PermutationHashIsInjective(BaseHash(n, 0), BaseHash(m, 0), seed);
      }
    }
  }

  lemma MinimiserShows(seed: PermutationSeed, a: seq<Element>, b: seq<Element>, m: Element)
    requires IsPrime(P) && ValidSeed(seed) && m in a
    requires BaseInjective(a + b) || BaseInjective(b + a)
    requires forall e :: e in a || e in b ==> SlotHash(seed, m) <= SlotHash(seed, e)
    ensures SlotMin(seed, a) == SlotHash(seed, m)
    ensures SlotMin(seed, b) == SlotHash(seed, m) <==> m in b
  {
    SlotMinIsMinimum(seed, a);
    SlotMinIsMinimum(seed, b);
    if SlotMin(seed, b) == SlotHash(seed, m) {
      assert b != [];
      var y :| y in b && SlotMin(seed, b) == SlotHash(seed, y);
      PermutationHashIsInjective(BaseHash(y, 0), BaseHash(m, 0), seed);
    }
  }

  /** A slot of two signatures agrees exactly when the minimiser over both sets lies in both. */
  lemma SlotsAgreeExactly(seed: PermutationSeed, a: seq<Element>, b: seq<Element>, m: Element)
    requires IsPrime(P) && ValidSeed(seed) && BaseInjective(a + b)
    requires IsMinimiser(seed, a + b, m)
    ensures SlotMin(seed, a) == SlotMin(seed, b) <==> m in a && m in b
  {
    SlotMinIsMinimum(seed, a);
    SlotMinIsMinimum(seed, b);
    if m in a { MinimiserShows(seed, a, b, m); }
    if m in b { MinimiserShows(seed, b, a, m); }
  }

  // ---------- the estimate ----------

  function Matches(x: seq<U64>, y: seq<U64>): nat
    requires |x| == |y|
  {
    if x == [] then 0 else
      Matches(x[..|x| - 1], y[..|x| - 1]) + if x[|x| - 1] == y[|x| - 1] then 1 else 0
  }

  function Estimate(x: seq<U64>, y: seq<U64>): real {
    if |x| != |y| || x == [] then 0.0 else Matches(x, y) as real / |x| as real
  }

  lemma AgreeSnoc(x: seq<U64>, y: seq<U64>, m: nat)
    requires |x| == |y| == m + 1
    ensures |set i: nat | i < |x| && x[i] == y[i]| ==
            |set i: nat | i < |x[..m]| && x[..m][i] == y[..m][i]| + if x[m] == y[m] then 1 else 0
  {
    var here := set i: nat | i < |x| && x[i] == y[i];
    var before := set i: nat | i < |x[..m]| && x[..m][i] == y[..m][i];
    forall i: nat ensures i in here <==> i in before || (i == m && x[m] == y[m]) {
      if i < m { assert x[..m][i] == x[i] && y[..m][i] == y[i]; }
    }
    assert here == before + if x[m] == y[m] then {m} else {};
  }

  /** The matches are the positions at which the signatures agree. */
  lemma {:induction false} MatchesAreCounted(x: seq<U64>, y: seq<U64>)
    requires |x| == |y|
    ensures Matches(x, y) == |set i: nat | i < |x| && x[i] == y[i]|
  {
    if x != [] {
      var m := |x| - 1;
      MatchesAreCounted(x[..m], y[..m]);
      AgreeSnoc(x, y, m);
    }
  }

  method EstimateJaccard(x: seq<U64>, y: seq<U64>) returns (r: real)
    ensures r == Estimate(x, y)
    ensures |x| != |y| || x == [] ==> r == 0.0
    ensures |x| == |y| > 0 ==> r == |set i: nat | i < |x| && x[i] == y[i]| as real / |x| as real
  {
    if |x| == |y| { MatchesAreCounted(x, y); }
    if |x| != |y| || x == [] {
      return 0.0;
    }
    var matches := 0;
    for i := 0 to |x|
      invariant matches == Matches(x[..i], y[..i])
    {
      assert x[..i + 1][..i] == x[..i] && y[..i + 1][..i] == y[..i];
      if x[i] == y[i] {
        matches := matches + 1;
      }
    }
    assert x[..|x|] == x && y[..|x|] == y;
    r := matches as real / |x| as real;
  }

  ghost predicate SharedMinimiser(seed: PermutationSeed, a: seq<Element>, b: seq<Element>) {
    exists m :: IsMinimiser(seed, a + b, m) && m in a && m in b
  }

  /** The number of permutations whose minimiser over both sets lies in both. */
  ghost function SharedMinimisers(seeds: seq<PermutationSeed>, a: seq<Element>, b: seq<Element>): nat {
    if seeds == [] then 0 else
      SharedMinimisers(seeds[..|seeds| - 1], a, b) + if SharedMinimiser(seeds[|seeds| - 1], a, b) then 1 else 0
  }

  lemma {:induction false} MatchesCountShared(seeds: seq<PermutationSeed>, a: seq<Element>, b: seq<Element>)
    requires IsPrime(P) && BaseInjective(a + b) && a + b != []
    requires forall i :: 0 <= i < |seeds| ==> ValidSeed(seeds[i])
    ensures Matches(Signature(seeds, a), Signature(seeds, b)) == SharedMinimisers(seeds, a, b)
  {
    if seeds == [] {
    } else {
      var n := |seeds| - 1;
      MatchesCountShared(seeds[..n], a, b);
      assert Signature(seeds, a)[..n] == Signature(seeds[..n], a);
      assert Signature(seeds, b)[..n] == Signature(seeds[..n], b);
      var m := MinimiserExists(seeds[n], a + b);
      SlotsAgreeExactly(seeds[n], a, b, m);
    }
  }

  /** The MinHash theorem for the estimate: it is the fraction of permutations whose minimiser
      over the union falls into the intersection. */
  lemma EstimateCountsSharedMinimisers(seeds: seq<PermutationSeed>, a: seq<Element>, b: seq<Element>)
    requires IsPrime(P) && BaseInjective(a + b) && a + b != [] && seeds != []
    requires forall i :: 0 <= i < |seeds| ==> ValidSeed(seeds[i])
    ensures Estimate(Signature(seeds, a), Signature(seeds, b)) ==
            SharedMinimisers(seeds, a, b) as real / |seeds| as real
  {
    MatchesCountShared(seeds, a, b);
  }

  lemma {:induction false} MatchesItself(x: seq<U64>)
    ensures Matches(x, x) == |x|
  {
    if x != [] { MatchesItself(x[..|x| - 1]); }
  }

  lemma EqualEstimate(x: seq<U64>)
    requires x != []
    ensures Estimate(x, x) == 1.0
  {
    MatchesItself(x);
  }

  /** Two sets with the same elements are estimated at 1. */
  lemma SameSetsEstimateOne(seeds: seq<PermutationSeed>, a: seq<Element>, b: seq<Element>)
    requires seeds != [] && forall i :: 0 <= i < |seeds| ==> ValidSeed(seeds[i])
    requires forall e :: e in a <==> e in b
    ensures Estimate(Signature(seeds, a), Signature(seeds, b)) == 1.0
  {
    SignatureIgnoresOrder(seeds, a, b);
    EqualEstimate(Signature(seeds, a));
  }

  lemma ZeroEstimate(x: seq<U64>, y: seq<U64>)
    requires |x| == |y| && Matches(x, y) == 0
    ensures Estimate(x, y) == 0.0
  {
  }

  lemma {:induction false} NoneShared(seeds: seq<PermutationSeed>, a: seq<Element>, b: seq<Element>)
    requires forall e :: !(e in a && e in b)
    ensures SharedMinimisers(seeds, a, b) == 0
  {
    if seeds != [] { NoneShared(seeds[..|seeds| - 1], a, b); }
  }

  /** Two disjoint sets are estimated at 0. */
  lemma DisjointSetsEstimateZero(seeds: seq<PermutationSeed>, a: seq<Element>, b: seq<Element>)
    requires IsPrime(P) && BaseInjective(a + b) && a + b != [] && seeds != []
    requires forall i :: 0 <= i < |seeds| ==> ValidSeed(seeds[i])
    requires forall e :: !(e in a && e in b)
    ensures Estimate(Signature(seeds, a), Signature(seeds, b)) == 0.0
  {
    NoneShared(seeds, a, b);
    MatchesCountShared(seeds, a, b);
    ZeroEstimate(Signature(seeds, a), Signature(seeds, b));
  }
}
