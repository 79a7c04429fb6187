/** Splitting a key range for parallel work, and exactly which keys the parts cover how often.
    Models Enterprise/RocksDBEngine/KeySpacePartitioner.cpp; fractions are exact rationals. */
module KeySpace {
  import opened Words

  /** Keys are byte strings in the byte-wise order of `std::string` and RocksDB. */
  type Key = seq<Byte>

  predicate Less(a: Key, b: Key) {
    b != [] && (a == [] || a[0] < b[0] || (a[0] == b[0] && Less(a[1..], b[1..])))
  }

  /** A half-open range; an empty upper bound means unbounded. */
  datatype KeyRange = KeyRange(lower: Key, upper: Key)

  predicate InRange(k: Key, r: KeyRange) {
    !Less(k, r.lower) && (r.upper == [] || Less(k, r.upper))
  }

  lemma {:induction false} LessTrans(a: Key, b: Key, c: Key)
    requires Less(a, b) && Less(b, c)
    ensures Less(a, c)
  {
    if a != [] && a[0] == b[0] && b[0] == c[0] { LessTrans(a[1..], b[1..], c[1..]); }
  }

  lemma {:induction false} LessTotal(a: Key, b: Key)
    ensures Less(a, b) || a == b || Less(b, a)
    ensures !(Less(a, b) && Less(b, a))
    ensures !Less(a, a)
  {
    if a != [] && b != [] && a[0] == b[0] {
      LessTotal(a[1..], b[1..]);
    }
    if a != [] { LessTotal(a[1..], a[1..]); }
  }

  /** A key that is byte for byte no larger on its whole length is not larger. */
  lemma {:induction false} BytewiseNotLess(x: Key, y: Key)
    requires |x| <= |y| && forall j :: 0 <= j < |x| ==> x[j] <= y[j]
    ensures !Less(y, x)
  {
    if x != [] && x[0] == y[0] { BytewiseNotLess(x[1..], y[1..]); }
  }

  // ---------- interpolation ----------

  function ByteAt(s: Key, j: nat): Byte {
    if j < |s| then s[j] else 0
  }

  lemma ProductIsMonotone(d: nat, i: int, j: int)
    requires i <= j
    ensures d * i <= d * j
  {
    assert d * (j - i) >= 0;
  }

  lemma FloorBetween(x: int, n: nat, low: int, high: int)
    requires n > 0 && low * n <= x <= high * n
    ensures low <= x / n <= high
  {
    var q := x / n;
    assert q * n <= x < q * n + n;
    if q < low { ProductIsMonotone(n, q + 1, low); }
    if q > high { ProductIsMonotone(n, high + 1, q); }
  }

  lemma InterpolationStaysBetween(lo: int, hi: int, i: nat, n: nat)
    requires i <= n && n > 0
    ensures lo <= hi ==> 0 <= (hi - lo) * i / n <= hi - lo
    ensures hi <= lo ==> hi - lo <= (hi - lo) * i / n <= 0
  {
    var d := hi - lo;
    if d >= 0 {
      FloorBetween(d * i, n, 0, d) by { assert d * (n - i) >= 0; }
    } else {
      FloorBetween(d * i, n, d, 0) by { assert d * (n - i) <= 0; }
    }
  }

  /** The byte i/n of the way from lo to hi, rounded down. */
  function InterpolateByte(lo: Byte, hi: Byte, i: nat, n: nat): (b: Byte)
    requires i <= n && n > 0
    ensures lo <= hi ==> lo <= b <= hi
    ensures hi <= lo ==> hi <= b <= lo
  {
    InterpolationStaysBetween(lo, hi, i, n);
    lo + (hi - lo) * i / n
  }

  lemma FloorIsMonotone(x: int, y: int, n: nat)
    requires x <= y && n > 0
    ensures x / n <= y / n
  {
    var p, q := x / n, y / n;
    assert p * n <= x && y < q * n + n;
    assert p > q ==> p * n >= (q + 1) * n;
  }

  lemma InterpolationIsMonotone(lo: Byte, hi: Byte, i: nat, j: nat, n: nat)
    requires i <= j <= n && n > 0 && lo <= hi
    ensures InterpolateByte(lo, hi, i, n) <= InterpolateByte(lo, hi, j, n)
  {
    ProductIsMonotone(hi - lo, i, j);
    FloorIsMonotone((hi - lo) * i, (hi - lo) * j, n);
  }

  /** Trailing zeros are dropped, but one byte stays. */
  function Trim(s: Key): (t: Key)
    ensures |t| <= |s| && t == s[..|t|]
    ensures s != [] ==> t != []
    ensures forall j :: |t| <= j < |s| ==> s[j] == 0
    ensures |t| > 1 ==> t[|t| - 1] != 0
  {
    if |s| > 1 && s[|s| - 1] == 0 then Trim(s[..|s| - 1]) else s
  }

  lemma {:induction false} TrimReaches(s: Key, j: nat)
    requires j < |s| && s[j] != 0
    ensures |Trim(s)| > j
  {
    if |s| > 1 && s[|s| - 1] == 0 { TrimReaches(s[..|s| - 1], j); }
  }

  function Max(a: nat, b: nat): nat { if a < b then b else a }

  function Blend(lower: Key, upper: Key, i: nat, n: nat): Key
    requires i <= n && n > 0
  {
    seq(Max(|lower|, |upper|), j requires 0 <= j => InterpolateByte(ByteAt(lower, j), ByteAt(upper, j), i, n))
  }

  function Interpolate(lower: Key, upper: Key, i: nat, n: nat): Key
    requires i <= n && n > 0
  {
    Trim(Blend(lower, upper, i, n))
  }

  method InterpolateKey(lower: Key, upper: Key, i: nat, n: nat) returns (result: Key)
    requires i <= n && n > 0
    ensures result == Interpolate(lower, upper, i, n)
  {
    var maxLen := Max(|lower|, |upper|);
    if maxLen == 0 {
      return [];
    }
    var bytes := new Byte[maxLen](_ => 0);
    for j := 0 to maxLen
      invariant forall m :: 0 <= m < j ==>
                  bytes[m] == InterpolateByte(ByteAt(lower, m), ByteAt(upper, m), i, n)
    {
      bytes[j] := InterpolateByte(ByteAt(lower, j), ByteAt(upper, j), i, n);
    }
    result := bytes[..];
    assert result == Blend(lower, upper, i, n);
    while |result| > 1 && result[|result| - 1] == 0
      invariant Trim(result) == Interpolate(lower, upper, i, n)
    {
      result := result[..|result| - 1];
    }
  }

  // ---------- the partition ----------

  function Split(lower: Key, upper: Key, i: nat, n: nat): Key
    requires i <= n && n > 0
  {
    if upper == [] then lower + [InterpolateByte(0, 255, i, n)] else Interpolate(lower, upper, i, n)
  }

  /** Where part i begins and part i-1 ends. */
  function Bound(lower: Key, upper: Key, i: nat, n: nat): Key
    requires i <= n && n > 0
  {
    if i == 0 then lower else if i == n then upper else Split(lower, upper, i, n)
  }

  predicate EmptyRange(lower: Key, upper: Key) {
    upper != [] && !Less(lower, upper)
  }

  function Partition(lower: Key, upper: Key, n: nat): seq<KeyRange> {
    if n == 0 || EmptyRange(lower, upper) then []
    else seq(n, i requires 0 <= i < n => KeyRange(Bound(lower, upper, i, n), Bound(lower, upper, i + 1, n)))
  }

  /** b is i/n of the way from lo to hi, rounded down. */
  ghost predicate PartWay(b: int, lo: int, hi: int, i: int, n: int) {
    b * n <= lo * n + (hi - lo) * i < (b + 1) * n
  }

  lemma InterpolateByteIs(lo: Byte, hi: Byte, i: nat, n: nat)
    requires i <= n && n > 0
    ensures PartWay(InterpolateByte(lo, hi, i, n), lo, hi, i, n)
  {
    var x := (hi - lo) * i;
    var q := x / n;
    assert q * n <= x < q * n + n;
    assert (lo + q) * n == lo * n + q * n;
    assert (lo + q + 1) * n == lo * n + q * n + n;
  }

  lemma BlendAt(lower: Key, upper: Key, i: nat, n: nat, j: nat)
    requires i <= n && n > 0 && (j < |lower| || j < |upper|)
    ensures j < |Blend(lower, upper, i, n)|
    ensures PartWay(Blend(lower, upper, i, n)[j], if j < |lower| then lower[j] else 0,
                    if j < |upper| then upper[j] else 0, i, n)
  {
    InterpolateByteIs(ByteAt(lower, j), ByteAt(upper, j), i, n);
  }

  lemma TrimPads(s: Key, j: nat)
    requires j < |s|
    ensures s[j] == if j < |Trim(s)| then Trim(s)[j] else 0
  {
  }

  /** A split point of a bounded range lies part of the way from byte to byte, both bounds padded with
      zeros, and has no trailing zeros. */
  lemma BoundedSplitIs(lower: Key, upper: Key, i: nat, n: nat)
    requires 0 < i < n && upper != []
    ensures var s := Split(lower, upper, i, n);
            && 0 < |s|
            && (|s| > 1 ==> s[|s| - 1] != 0)
            && |s| <= (if |lower| < |upper| then |upper| else |lower|)
            && forall j :: 0 <= j < |lower| || 0 <= j < |upper| ==>
                 PartWay(if j < |s| then s[j] else 0, if j < |lower| then lower[j] else 0,
                         if j < |upper| then upper[j] else 0, i, n)
  {
    var b := Blend(lower, upper, i, n);
    assert b != [];
    hide Blend, PartWay;
    var s := Trim(b);
    forall j | 0 <= j < |lower| || 0 <= j < |upper|
      ensures PartWay(if j < |s| then s[j] else 0, if j < |lower| then lower[j] else 0,
                      if j < |upper| then upper[j] else 0, i, n)
    {
      BlendAt(lower, upper, i, n, j);
      TrimPads(b, j);
    }
  }

  /** One of an unbounded range is lower with one byte more. */
  lemma UnboundedSplitIs(lower: Key, i: nat, n: nat)
    requires 0 < i < n
    ensures var s := Split(lower, [], i, n);
            |s| == |lower| + 1 && s[..|lower|] == lower && PartWay(s[|lower|], 0, 255, i, n)
  {
    hide PartWay;
    InterpolateByteIs(0, 255, i, n);
  }

  /** There are no parts if and only if none are asked for or the range holds nothing. */
  lemma NoPartsIff(lower: Key, upper: Key, n: nat)
    ensures Partition(lower, upper, n) == [] <==> n == 0 || (upper != [] && (upper == lower || Less(upper, lower)))
  {
    LessTotal(lower, upper);
    hide Less, Bound;
  }

  lemma PartAt(lower: Key, upper: Key, n: nat, i: nat, a: Key, b: Key)
    requires i < n && !EmptyRange(lower, upper) && Bound(lower, upper, i, n) == a && Bound(lower, upper, i + 1, n) == b
    ensures Partition(lower, upper, n)[i] == KeyRange(a, b)
  {
    hide Less, Bound;
  }

  /** Else there are n, from lower to upper, each beginning at the split point that ends the one
      before it. */
  lemma PartIs(lower: Key, upper: Key, n: nat, i: nat)
    requires i < n && (upper == [] || Less(lower, upper))
    ensures |Partition(lower, upper, n)| == n
    ensures Partition(lower, upper, n)[i].lower == if i == 0 then lower else Split(lower, upper, i, n)
    ensures Partition(lower, upper, n)[i].upper == if i == n - 1 then upper else Split(lower, upper, i + 1, n)
  {
    hide Less, Split;
    PartAt(lower, upper, n, i, Bound(lower, upper, i, n), Bound(lower, upper, i + 1, n));
  }

  /** The first loop of `partition`: one split point between neighbouring parts. */
  method SplitPoints(lower: Key, upper: Key, n: nat) returns (splits: seq<Key>)
    requires n > 0
    ensures |splits| == n - 1
    ensures forall j :: 0 <= j < |splits| ==> splits[j] == Split(lower, upper, j + 1, n)
  {
    splits := [];
    for i := 1 to n
      invariant |splits| == i - 1
      invariant forall j :: 0 <= j < |splits| ==> splits[j] == Split(lower, upper, j + 1, n)
    {
      var key;
      if upper == [] {
        key := lower + [InterpolateByte(0, 255, i, n)];
      } else {
        key := InterpolateKey(lower, upper, i, n);
      }
      splits := splits + [key];
    }
  }

  /** The second loop: each split point ends one part and begins the next. */
  method RangesBetween(lower: Key, splits: seq<Key>, upper: Key) returns (result: seq<KeyRange>)
    ensures |result| == |splits| + 1
    ensures var bounds := [lower] + splits + [upper];
            forall j :: 0 <= j < |result| ==> result[j] == KeyRange(bounds[j], bounds[j + 1])
  {
    ghost var bounds := [lower] + splits + [upper];
    result := [];
    var prevBound := lower;
    for i := 0 to |splits|
      invariant |result| == i && prevBound == bounds[i]
      invariant forall j :: 0 <= j < i ==> result[j] == KeyRange(bounds[j], bounds[j + 1])
    {
      result := result + [KeyRange(prevBound, splits[i])];
      prevBound := splits[i];
    }
    result := result + [KeyRange(prevBound, upper)];
  }

  lemma BoundsAt(lower: Key, upper: Key, n: nat, splits: seq<Key>, j: nat)
    requires n > 0 && |splits| == n - 1 && j <= n
    requires forall i :: 0 <= i < |splits| ==> splits[i] == Split(lower, upper, i + 1, n)
    ensures ([lower] + splits + [upper])[j] == Bound(lower, upper, j, n)
  {
    if 0 < j < n { assert ([lower] + splits + [upper])[j] == splits[j - 1]; }
  }

  lemma RangesArePartition(lower: Key, upper: Key, n: nat, splits: seq<Key>, result: seq<KeyRange>)
    requires n > 0 && !EmptyRange(lower, upper) && |splits| == n - 1 && |result| == n
    requires forall j :: 0 <= j < |splits| ==> splits[j] == Split(lower, upper, j + 1, n)
    requires var bounds := [lower] + splits + [upper];
             forall j :: 0 <= j < n ==> result[j] == KeyRange(bounds[j], bounds[j + 1])
    ensures result == Partition(lower, upper, n)
  {
    var bounds := [lower] + splits + [upper];
    forall j | 0 <= j < n ensures result[j] == Partition(lower, upper, n)[j] {
      BoundsAt(lower, upper, n, splits, j);
      BoundsAt(lower, upper, n, splits, j + 1);
      PartAt(lower, upper, n, j, bounds[j], bounds[j + 1]);
    }
  }

  method PartitionKeys(lower: Key, upper: Key, n: nat) returns (result: seq<KeyRange>)
    ensures result == Partition(lower, upper, n)
  {
    if n == 0 || (upper != [] && !Less(lower, upper)) {
      return [];
    }
    if n == 1 {
      result := [KeyRange(lower, upper)];
      RangesArePartition(lower, upper, n, [], result);
      return;
    }
    var splits := SplitPoints(lower, upper, n);
    result := RangesBetween(lower, splits, upper);
    RangesArePartition(lower, upper, n, splits, result);
  }

  // ---------- how often a key is covered ----------

  function Hits(ranges: seq<KeyRange>, k: Key): nat {
    if ranges == [] then 0 else
      Hits(ranges[..|ranges| - 1], k) + if InRange(k, ranges[|ranges| - 1]) then 1 else 0
  }

  /** k lies below bound i; everything lies below an unbounded top. */
  predicate Below(lower: Key, upper: Key, n: nat, k: Key, i: nat)
    requires i <= n && n > 0
  {
    (i == n && upper == []) || Less(k, Bound(lower, upper, i, n))
  }

  function BelowFlags(lower: Key, upper: Key, n: nat, k: Key): (flags: seq<bool>)
    requires n > 0
    ensures |flags| == n + 1
  {
    seq(n + 1, i requires 0 <= i <= n => Below(lower, upper, n, k, i))
  }

  /** How often true is followed by false. */
  function Drops(flags: seq<bool>): nat {
    var m := |flags|;
    if m < 2 then 0 else Drops(flags[..m - 1]) + if flags[m - 2] && !flags[m - 1] then 1 else 0
  }

  /** How many steps from one bound to the next descend past k. */
  function Descents(lower: Key, upper: Key, n: nat, k: Key): nat
    requires n > 0
  {
    Drops(BelowFlags(lower, upper, n, k))
  }

  predicate NotDescending(lower: Key, upper: Key, n: nat, i: nat)
    requires i < n
  {
    (i + 1 == n && upper == []) || !Less(Bound(lower, upper, i + 1, n), Bound(lower, upper, i, n))
  }

  /** No bound lies below the one before it. */
  predicate SortedBounds(lower: Key, upper: Key, n: nat)
    requires n > 0
  {
    forall i :: 0 <= i < n ==> NotDescending(lower, upper, n, i)
  }

  lemma InnerBoundIsNonempty(lower: Key, upper: Key, i: nat, n: nat)
    requires 0 < i < n
    ensures Bound(lower, upper, i, n) != []
  {
    if upper != [] { assert Blend(lower, upper, i, n) != []; }
  }

  lemma HitIsRise(lower: Key, upper: Key, n: nat, k: Key, i: nat)
    requires i < n && !EmptyRange(lower, upper)
    ensures InRange(k, Partition(lower, upper, n)[i]) <==>
            !Below(lower, upper, n, k, i) && Below(lower, upper, n, k, i + 1)
  {
    var a, b := Bound(lower, upper, i, n), Bound(lower, upper, i + 1, n);
    PartAt(lower, upper, n, i, a, b);
    if i + 1 < n { InnerBoundIsNonempty(lower, upper, i + 1, n); }
    assert b == [] <==> i + 1 == n && upper == [];
  }

  ghost predicate RisesAt(p: seq<KeyRange>, flags: seq<bool>, k: Key, i: nat)
    requires i < |p| && i + 1 < |flags|
  {
    InRange(k, p[i]) <==> !flags[i] && flags[i + 1]
  }

  /** A part holds the key where a flag rises behind one that does not stand. */
  ghost predicate Rises(p: seq<KeyRange>, flags: seq<bool>, k: Key) {
    |flags| == |p| + 1 && forall i :: 0 <= i < |p| ==> RisesAt(p, flags, k, i)
  }

  lemma HitsSnoc(p: seq<KeyRange>, i: nat, k: Key)
    requires i < |p|
    ensures Hits(p[..i + 1], k) == Hits(p[..i], k) + if InRange(k, p[i]) then 1 else 0
  {
    assert p[..i + 1][..i] == p[..i];
  }

  /** Rises less drops is what separates the ends. */
  lemma {:induction false} HitsOfPrefix(p: seq<KeyRange>, flags: seq<bool>, k: Key, m: nat)
    requires Rises(p, flags, k) && m <= |p|
    ensures Hits(p[..m], k) ==
            Drops(flags[..m + 1]) + (if flags[m] then 1 else 0) - (if flags[0] then 1 else 0)
  {
    if m > 0 {
      HitsOfPrefix(p, flags, k, m - 1);
      assert RisesAt(p, flags, k, m - 1);
      HitsSnoc(p, m - 1, k);
      assert flags[..m + 1][..m] == flags[..m];
    }
  }

  lemma HitsAreRises(p: seq<KeyRange>, flags: seq<bool>, k: Key)
    requires Rises(p, flags, k)
    ensures Hits(p, k) == Drops(flags) + (if flags[|p|] then 1 else 0) - (if flags[0] then 1 else 0)
  {
    HitsOfPrefix(p, flags, k, |p|);
    assert p[..|p|] == p && flags[..|p| + 1] == flags;
  }

  lemma HitsAtRises(lower: Key, upper: Key, n: nat, k: Key)
    requires n > 0 && !EmptyRange(lower, upper)
    ensures Rises(Partition(lower, upper, n), BelowFlags(lower, upper, n, k), k)
  {
    var p, flags := Partition(lower, upper, n), BelowFlags(lower, upper, n, k);
    forall i | 0 <= i < |p| ensures RisesAt(p, flags, k, i) {
      HitIsRise(lower, upper, n, k, i);
    }
  }

  /** The first and the last flag tell whether the key is in the whole range. */
  lemma FlagsAtEnds(lower: Key, upper: Key, n: nat, k: Key)
    requires n > 0 && !EmptyRange(lower, upper)
    ensures var flags := BelowFlags(lower, upper, n, k);
            (if flags[n] then 1 else 0) - (if flags[0] then 1 else 0) ==
            if InRange(k, KeyRange(lower, upper)) then 1 else 0
  {
    var flags := BelowFlags(lower, upper, n, k);
    assert flags[0] == Less(k, lower);
    assert flags[n] == (upper == [] || Less(k, upper));
    if upper != [] && Less(k, lower) { LessTrans(k, lower, upper); }
  }

  /** Every key is covered once if it is in the whole range, and once more for every step at which
      the bounds descend past it. In particular a key of the range is never missed. */
  lemma HitsExactly(lower: Key, upper: Key, n: nat, k: Key)
    requires n > 0 && !EmptyRange(lower, upper)
    ensures Hits(Partition(lower, upper, n), k) ==
            (if InRange(k, KeyRange(lower, upper)) then 1 else 0) + Descents(lower, upper, n, k)
  {
    HitsAtRises(lower, upper, n, k);
    HitsAreRises(Partition(lower, upper, n), BelowFlags(lower, upper, n, k), k);
    FlagsAtEnds(lower, upper, n, k);
  }

  lemma {:induction false} NoDrops(flags: seq<bool>)
    requires forall i :: 0 <= i < |flags| - 1 ==> !(flags[i] && !flags[i + 1])
    ensures Drops(flags) == 0
  {
    if |flags| >= 2 {
      var m := |flags|;
      NoDrops(flags[..m - 1]);
      assert !(flags[m - 2] && !flags[m - 2 + 1]);
    }
  }

  lemma {:induction false} DropCounts(flags: seq<bool>, i: nat)
    requires i + 1 < |flags| && flags[i] && !flags[i + 1]
    ensures Drops(flags) > 0
  {
    if i + 2 < |flags| { DropCounts(flags[..|flags| - 1], i); }
  }

  lemma LessThanNotLess(k: Key, a: Key, b: Key)
    requires Less(k, a) && !Less(b, a)
    ensures Less(k, b)
  {
    LessTotal(a, b);
    if Less(a, b) { LessTrans(k, a, b); }
  }

  lemma NoDropBelow(lower: Key, upper: Key, n: nat, k: Key, i: nat, a: Key, b: Key)
    requires i < n && NotDescending(lower, upper, n, i)
    requires a == Bound(lower, upper, i, n) && b == Bound(lower, upper, i + 1, n)
    ensures Below(lower, upper, n, k, i) ==> Below(lower, upper, n, k, i + 1)
  {
    if Less(k, a) && !Less(b, a) { LessThanNotLess(k, a, b); }
  }

  lemma NoDropAt(lower: Key, upper: Key, n: nat, k: Key, i: nat)
    requires i < n && NotDescending(lower, upper, n, i)
    ensures BelowFlags(lower, upper, n, k)[i] ==> BelowFlags(lower, upper, n, k)[i + 1]
  {
    hide Less, Bound, NotDescending, Below;
    NoDropBelow(lower, upper, n, k, i, Bound(lower, upper, i, n), Bound(lower, upper, i + 1, n));
  }

  lemma SortedHasNoDescents(lower: Key, upper: Key, n: nat, k: Key)
    requires n > 0 && SortedBounds(lower, upper, n)
    ensures Descents(lower, upper, n, k) == 0
  {
    var flags := BelowFlags(lower, upper, n, k);
    forall i | 0 <= i < |flags| - 1 ensures !(flags[i] && !flags[i + 1]) {
      NoDropAt(lower, upper, n, k, i);
    }
    NoDrops(flags);
  }

  /** The parts cover every key of the range exactly once, and no other key. */
  ghost predicate CoversOnce(lower: Key, upper: Key, n: nat) {
    forall k :: Hits(Partition(lower, upper, n), k) == if InRange(k, KeyRange(lower, upper)) then 1 else 0
  }

  /** For a given number of parts: they cover every key of the range exactly once, and no other, if
      and only if the bounds they are given are sorted. */
  lemma ExactlyOnceIff(lower: Key, upper: Key, n: nat)
    requires n > 0 && !EmptyRange(lower, upper)
    ensures CoversOnce(lower, upper, n) <==> SortedBounds(lower, upper, n)
  {
    if SortedBounds(lower, upper, n) {
      forall k
        ensures Hits(Partition(lower, upper, n), k) == if InRange(k, KeyRange(lower, upper)) then 1 else 0
      {
        HitsExactly(lower, upper, n, k);
        SortedHasNoDescents(lower, upper, n, k);
      }
    } else {
      var i :| 0 <= i < n && !NotDescending(lower, upper, n, i);
      var k := Bound(lower, upper, i + 1, n);
      LessTotal(k, k);
      DropCounts(BelowFlags(lower, upper, n, k), i);
      HitsExactly(lower, upper, n, k);
    }
  }

  // ---------- inputs whose bounds are sorted ----------

  /** Padded with zeros, upper is byte for byte at least lower; and lower, unless it is a single
      byte, ends in no zero. */
  predicate Dominates(lower: Key, upper: Key) {
    && (forall j :: 0 <= j < Max(|lower|, |upper|) ==> ByteAt(lower, j) <= ByteAt(upper, j))
    && (|lower| > 1 ==> lower[|lower| - 1] != 0)
  }

  lemma TrimIsMonotone(a: Key, b: Key)
    requires |a| == |b| && forall j :: 0 <= j < |a| ==> a[j] <= b[j]
    ensures !Less(Trim(b), Trim(a))
  {
    var s, t := Trim(a), Trim(b);
    if |s| > 1 { TrimReaches(b, |s| - 1); }
    BytewiseNotLess(s, t);
  }

  lemma LowerNotAboveSplit(lower: Key, upper: Key, i: nat, n: nat)
    requires 0 < i < n && upper != [] && Dominates(lower, upper)
    ensures !Less(Split(lower, upper, i, n), lower)
  {
    var b, t := Blend(lower, upper, i, n), Split(lower, upper, i, n);
    if |lower| > 1 {
      var last := |lower| - 1;
      assert ByteAt(lower, last) <= ByteAt(upper, last);
      TrimReaches(b, last);
    }
    forall j | 0 <= j < |lower| ensures lower[j] <= t[j] {
      assert ByteAt(lower, j) <= ByteAt(upper, j);
      assert t[j] == b[j];
    }
    BytewiseNotLess(lower, t);
  }

  lemma SplitNotAboveUpper(lower: Key, upper: Key, i: nat, n: nat)
    requires 0 < i < n && upper != [] && Dominates(lower, upper)
    ensures !Less(upper, Split(lower, upper, i, n))
  {
    var b, t := Blend(lower, upper, i, n), Split(lower, upper, i, n);
    forall j | 0 <= j < |t| ensures t[j] <= ByteAt(upper, j) {
      assert ByteAt(lower, j) <= ByteAt(upper, j);
      assert t[j] == b[j];
    }
    assert |t| > 1 ==> ByteAt(upper, |t| - 1) != 0;
    BytewiseNotLess(t, upper);
  }

  lemma SplitsAscend(lower: Key, upper: Key, i: nat, n: nat)
    requires 0 < i && i + 1 < n && upper != [] && Dominates(lower, upper)
    ensures !Less(Split(lower, upper, i + 1, n), Split(lower, upper, i, n))
  {
    var a, b := Blend(lower, upper, i, n), Blend(lower, upper, i + 1, n);
    forall j | 0 <= j < |a| ensures a[j] <= b[j] {
      assert ByteAt(lower, j) <= ByteAt(upper, j);
      InterpolationIsMonotone(ByteAt(lower, j), ByteAt(upper, j), i, i + 1, n);
    }
    TrimIsMonotone(a, b);
  }

  lemma UnboundedAscends(lower: Key, i: nat, n: nat)
    requires i < n
    ensures NotDescending(lower, [], n, i)
  {
    if i + 1 < n {
      InterpolationIsMonotone(0, 255, i, i + 1, n);
      BytewiseNotLess(Bound(lower, [], i, n), Bound(lower, [], i + 1, n));
    }
  }

  /** Bounds are sorted when the range is unbounded above or upper dominates lower. */
  lemma BoundsAreSorted(lower: Key, upper: Key, n: nat)
    requires n > 0 && !EmptyRange(lower, upper) && (upper == [] || Dominates(lower, upper))
    ensures SortedBounds(lower, upper, n)
  {
    forall i | 0 <= i < n ensures NotDescending(lower, upper, n, i) {
      LessTotal(lower, upper);
      if upper == [] {
        UnboundedAscends(lower, i, n);
      } else if i == 0 {
        if n > 1 { LowerNotAboveSplit(lower, upper, 1, n); }
      } else if i + 1 == n {
        SplitNotAboveUpper(lower, upper, i, n);
      } else {
        SplitsAscend(lower, upper, i, n);
      }
    }
  }

  // ---------- and inputs whose bounds are not ----------

  /** With 256 parts the first split keeps every byte that does not fall, and lowers by one every
      byte that does. */
  lemma FirstSplitByte(lo: Byte, hi: Byte, n: nat)
    requires n == 256
    ensures InterpolateByte(lo, hi, 1, n) == if lo <= hi then lo else lo - 1
  {
  }

  /** A key that begins as another, and then falls below it or ends, is less. */
  lemma {:induction false} LessAt(a: Key, b: Key, j: nat)
    requires j <= |a| && j < |b| && a[..j] == b[..j] && (j < |a| ==> a[j] < b[j])
    ensures Less(a, b)
    decreases j
  {
    if j > 0 {
      assert a[0] == a[..j][0] && b[0] == b[..j][0];
      assert a[1..][..j - 1] == a[..j][1..] && b[1..][..j - 1] == b[..j][1..];
      LessAt(a[1..], b[1..], j - 1);
    }
  }

  /** A trimmed key that repeats lower's bytes up to one that falls, or all but trailing zeros. */
  lemma TrimmedIsLess(s: Key, lower: Key, j: nat)
    requires j < |lower| <= |s| && (forall m :: 0 <= m < j ==> s[m] == lower[m])
    requires s[j] < lower[j] || (j > 0 && forall m :: j <= m < |s| ==> s[m] == 0)
    ensures Less(Trim(s), lower)
  {
    var t := Trim(s);
    var m := if |t| < j then |t| else j;
    forall i | 0 <= i < m ensures t[..m][i] == lower[..m][i] {
      assert t[i] == s[i];
    }
    assert t[..m] == lower[..m];
    LessAt(t, lower, m);
  }

  /** Where some byte of lower exceeds upper's, the first split descends at the first such byte. */
  lemma FallingByteDescends(lower: Key, upper: Key, j: nat)
    requires upper != [] && j < Max(|lower|, |upper|) && ByteAt(lower, j) > ByteAt(upper, j)
    requires forall m :: 0 <= m < j ==> ByteAt(lower, m) <= ByteAt(upper, m)
    ensures !SortedBounds(lower, upper, 256)
  {
    var b := Blend(lower, upper, 1, 256);
    forall m | 0 <= m <= j ensures b[m] == if m < j then lower[m] else lower[j] - 1 {
      FirstSplitByte(ByteAt(lower, m), ByteAt(upper, m), 256);
    }
    TrimmedIsLess(b, lower, j);
    assert !NotDescending(lower, upper, 256, 0);
  }

  /** Where lower ends in a zero that is not its only byte, the first split drops it. */
  lemma TrailingZeroDescends(lower: Key, upper: Key)
    requires upper != [] && |lower| > 1 && lower[|lower| - 1] == 0
    requires forall j :: 0 <= j < Max(|lower|, |upper|) ==> ByteAt(lower, j) <= ByteAt(upper, j)
    ensures !SortedBounds(lower, upper, 256)
  {
    var b := Blend(lower, upper, 1, 256);
    forall m | 0 <= m < |b| ensures b[m] == ByteAt(lower, m) {
      FirstSplitByte(ByteAt(lower, m), ByteAt(upper, m), 256);
    }
    TrimmedIsLess(b, lower, |lower| - 1);
    assert !NotDescending(lower, upper, 256, 0);
  }

  lemma {:induction false} FirstFall(lower: Key, upper: Key, j: nat) returns (i: nat)
    requires ByteAt(lower, j) > ByteAt(upper, j)
    ensures i <= j && ByteAt(lower, i) > ByteAt(upper, i)
    ensures forall m :: 0 <= m < i ==> ByteAt(lower, m) <= ByteAt(upper, m)
  {
    if m: nat :| m < j && ByteAt(lower, m) > ByteAt(upper, m) {
      i := FirstFall(lower, upper, m);
    } else {
      i := j;
    }
  }

  lemma DescendsSomewhere(lower: Key, upper: Key)
    requires upper != [] && !Dominates(lower, upper)
    ensures !SortedBounds(lower, upper, 256)
  {
    if j: nat :| j < Max(|lower|, |upper|) && ByteAt(lower, j) > ByteAt(upper, j) {
      var i := FirstFall(lower, upper, j);
      FallingByteDescends(lower, upper, i);
    } else {
      TrailingZeroDescends(lower, upper);
    }
  }

  /** On the inputs: the bounds are sorted for every number of parts if and only if the range is
      unbounded above or upper dominates lower. */
  lemma SortedForAllIff(lower: Key, upper: Key)
    requires !EmptyRange(lower, upper)
    ensures (forall n :: n > 0 ==> SortedBounds(lower, upper, n)) <==> upper == [] || Dominates(lower, upper)
  {
    if upper == [] || Dominates(lower, upper) {
      forall n | n > 0 ensures SortedBounds(lower, upper, n) {
        BoundsAreSorted(lower, upper, n);
      }
    } else {
      DescendsSomewhere(lower, upper);
    }
  }

  /** So, on the inputs: any number of parts covers each key of the range exactly once and no
      other key, if and only if the range is unbounded above or upper dominates lower. */
  lemma CoversOnceIff(lower: Key, upper: Key)
    requires !EmptyRange(lower, upper)
    ensures (forall n :: n > 0 ==> CoversOnce(lower, upper, n)) <==> upper == [] || Dominates(lower, upper)
  {
    forall n | n > 0 ensures CoversOnce(lower, upper, n) <==> SortedBounds(lower, upper, n) {
      ExactlyOnceIff(lower, upper, n);
    }
    SortedForAllIff(lower, upper);
  }

  lemma HitsOfFour(p: seq<KeyRange>, k: Key)
    requires |p| == 4
    ensures Hits(p, k) == (if InRange(k, p[0]) then 1 else 0) + (if InRange(k, p[1]) then 1 else 0) +
                          (if InRange(k, p[2]) then 1 else 0) + (if InRange(k, p[3]) then 1 else 0)
  {
    HitsSnoc(p, 3, k);
    HitsSnoc(p, 2, k);
    HitsSnoc(p, 1, k);
    HitsSnoc(p, 0, k);
    assert p[..4] == p && p[..0] == [];
  }

  lemma HitTwice(p: seq<KeyRange>)
    requires p == [KeyRange([97, 255], [97, 191]), KeyRange([97, 191], [98, 127]),
                   KeyRange([98, 127], [98, 63]), KeyRange([98, 63], [99, 0])]
    ensures Hits(p, [98, 80]) == 2
  {
    HitsOfFour(p, [98, 80]);
  }

  lemma HitOutside(p: seq<KeyRange>)
    requires p == [KeyRange([97, 255], [97, 191]), KeyRange([97, 191], [98, 127]),
                   KeyRange([98, 127], [98, 63]), KeyRange([98, 63], [99, 0])]
    ensures Hits(p, [97, 192]) == 1
  {
    HitsOfFour(p, [97, 192]);
  }

  lemma BlendOfTwo(lower: Key, upper: Key, i: nat, key: Key)
    requires |lower| == |upper| == |key| == 2 && 0 < i < 4 && key[1] != 0
    requires key[0] == InterpolateByte(lower[0], upper[0], i, 4) && key[1] == InterpolateByte(lower[1], upper[1], i, 4)
    ensures Bound(lower, upper, i, 4) == key
  {
    var b := Blend(lower, upper, i, 4);
    assert |b| == 2 && b[0] == key[0] && b[1] == key[1];
    assert b == key && Trim(key) == key;
  }

  lemma FourParts(lower: Key, upper: Key, p: seq<KeyRange>)
    requires lower == [97, 255] && upper == [99, 0]
    requires p == [KeyRange(lower, [97, 191]), KeyRange([97, 191], [98, 127]),
                   KeyRange([98, 127], [98, 63]), KeyRange([98, 63], upper)]
    ensures Partition(lower, upper, 4) == p
  {
    assert !EmptyRange(lower, upper);
    hide Less, Split;
    BlendOfTwo(lower, upper, 1, [97, 191]);
    BlendOfTwo(lower, upper, 2, [98, 127]);
    BlendOfTwo(lower, upper, 3, [98, 63]);
    PartAt(lower, upper, 4, 0, lower, [97, 191]);
    PartAt(lower, upper, 4, 1, [97, 191], [98, 127]);
    PartAt(lower, upper, 4, 2, [98, 127], [98, 63]);
    PartAt(lower, upper, 4, 3, [98, 63], upper);
  }

  /** For example, a key may be covered twice, and a key below the range once. */
  lemma DescendingSplits()
    ensures Hits(Partition([97, 255], [99, 0], 4), [98, 80]) == 2
    ensures !InRange([97, 192], KeyRange([97, 255], [99, 0]))
    ensures Hits(Partition([97, 255], [99, 0], 4), [97, 192]) == 1
  {
    var lower, upper: Key := [97, 255], [99, 0];
    var p := [KeyRange(lower, [97, 191]), KeyRange([97, 191], [98, 127]),
              KeyRange([98, 127], [98, 63]), KeyRange([98, 63], upper)];
    FourParts(lower, upper, p);
    HitTwice(p);
    HitOutside(p);
  }
}
