/** Searching text by position and printing numbers, as the hand-written printers and parsers do
    it. A search that finds nothing answers the length of the text (the source's npos). */
module Text {
  import opened Words

  // ---------- text from a position on ----------

  /** From position i on, the text is exactly a followed by b. */
  ghost predicate Reads(s: string, i: nat, a: string, b: string) {
    i + |a| + |b| == |s| && s[i..i + |a|] == a && s[i + |a|..] == b
  }

  lemma PushIn(a: string, b: string, c: string)
    ensures a + b + c == a + (b + c)
  {
  }

  lemma SplitReads(s: string, i: nat, a: string, b: string)
    requires i <= |s| && s[i..] == a + b
    ensures Reads(s, i, a, b)
  {
    assert s[i..][..|a|] == s[i..i + |a|];
    assert s[i..][|a|..] == s[i + |a|..];
  }

  lemma SliceOfSlice(s: string, i: nat, len: nat, a: nat, b: nat)
    requires i + len <= |s| && a <= b <= len
    ensures s[i..i + len][a..b] == s[i + a..i + b]
  {
    var t := s[i..i + len];
    forall k | 0 <= k < b - a ensures t[a..b][k] == s[i + a..i + b][k] {
      assert t[a..b][k] == t[a + k] == s[i + (a + k)];
    }
  }

  // ---------- finding a character ----------

  function Find(s: string, c: char, i: nat): (p: nat)
    requires i <= |s|
    ensures i <= p <= |s|
    decreases |s| - i
  {
    if i == |s| || s[i] == c then i else Find(s, c, i + 1)
  }

  lemma {:induction false} FindIs(s: string, c: char, i: nat, p: nat)
    requires i <= p <= |s| && (p < |s| ==> s[p] == c)
    requires c !in s[i..p]
    ensures Find(s, c, i) == p
    decreases p - i
  {
    if i < p {
      assert s[i] == s[i..p][0];
      assert s[i + 1..p] == s[i..p][1..];
      FindIs(s, c, i + 1, p);
    }
  }

  lemma {:induction false} NoneBefore(s: string, c: char, i: nat)
    requires i <= |s|
    ensures c !in s[i..Find(s, c, i)]
    ensures Find(s, c, i) < |s| ==> s[Find(s, c, i)] == c
    decreases |s| - i
  {
    if i < |s| && s[i] != c {
      NoneBefore(s, c, i + 1);
      assert s[i..Find(s, c, i)] == [s[i]] + s[i + 1..Find(s, c, i + 1)];
    }
  }

  lemma {:induction false} FoundBy(s: string, c: char, i: nat, k: nat)
    requires i <= k < |s| && s[k] == c
    ensures Find(s, c, i) <= k
    decreases k - i
  {
    if i < k { FoundBy(s, c, i + 1, k); }
  }

  lemma {:induction false} NotFoundBefore(s: string, c: char, i: nat, j: nat)
    requires i <= j <= |s| && c !in s[i..j]
    ensures Find(s, c, i) >= j
    decreases j - i
  {
    if i < j {
      assert s[i] == s[i..j][0];
      assert s[i + 1..j] == s[i..j][1..];
      NotFoundBefore(s, c, i + 1, j);
    }
  }

  method FindChar(s: string, c: char, start: nat) returns (i: nat)
    requires start <= |s|
    ensures i == Find(s, c, start)
    ensures start <= i <= |s| && c !in s[start..i] && (i < |s| ==> s[i] == c)
  {
    NoneBefore(s, c, start);
    i := start;
    while i < |s| && s[i] != c
      invariant start <= i <= |s| && Find(s, c, i) == Find(s, c, start)
    {
      i := i + 1;
    }
  }

  // ---------- finding a word ----------

  predicate WordAt(s: string, word: string, i: nat) {
    i + |word| <= |s| && s[i..i + |word|] == word
  }

  function FindWord(s: string, word: string, i: nat): (p: nat)
    requires i <= |s|
    ensures i <= p <= |s|
    ensures p < |s| ==> WordAt(s, word, p)
    decreases |s| - i
  {
    if i == |s| || WordAt(s, word, i) then i else FindWord(s, word, i + 1)
  }

  /** The word occurs nowhere from i up to j. */
  ghost predicate Clear(s: string, word: string, i: nat, j: nat) {
    forall k :: i <= k < j ==> !WordAt(s, word, k)
  }

  /** What is found is the first occurrence, and nothing is found only if there is none. */
  lemma {:induction false} NoWordBefore(s: string, word: string, i: nat)
    requires i <= |s|
    ensures Clear(s, word, i, FindWord(s, word, i))
    decreases |s| - i
  {
    if i < |s| && !WordAt(s, word, i) { NoWordBefore(s, word, i + 1); }
  }

  method FindText(s: string, word: string, start: nat) returns (i: nat)
    requires start <= |s|
    ensures i == FindWord(s, word, start)
    ensures start <= i <= |s| && Clear(s, word, start, i) && (i < |s| ==> WordAt(s, word, i))
  {
    NoWordBefore(s, word, start);
    i := start;
    while i < |s| && !(i + |word| <= |s| && s[i..i + |word|] == word)
      invariant start <= i <= |s| && FindWord(s, word, i) == FindWord(s, word, start)
    {
      i := i + 1;
    }
  }

  lemma ClearNothing(s: string, word: string, i: nat)
    ensures Clear(s, word, i, i)
  {
  }

  lemma ClearOn(s: string, word: string, i: nat, j: nat, k: nat)
    requires Clear(s, word, i, j) && Clear(s, word, j, k)
    ensures Clear(s, word, i, k)
  {
  }

  lemma {:induction false} FindWordIs(s: string, word: string, i: nat, p: nat)
    requires i <= p < |s| && Clear(s, word, i, p) && WordAt(s, word, p)
    ensures FindWord(s, word, i) == p
    decreases p - i
  {
    if i < p { FindWordIs(s, word, i + 1, p); }
  }

  /** The first c from i on lies at p, or p is the end of the text and there is none. */
  ghost predicate First(s: string, c: char, i: nat, p: nat) {
    i <= p <= |s| && c !in s[i..p] && (p < |s| ==> s[p] == c)
  }

  lemma FirstIsFound(s: string, c: char, i: nat, p: nat)
    requires i <= |s|
    ensures First(s, c, i, p) <==> p == Find(s, c, i)
  {
    NoneBefore(s, c, i);
    if First(s, c, i, p) { FindIs(s, c, i, p); }
  }

  /** The first place at which the text reads the word. */
  ghost predicate FirstWord(s: string, word: string, p: nat) {
    && p + |word| <= |s| && s[p..p + |word|] == word
    && forall i, j :: 0 <= i <= j <= |s| && i < p ==> s[i..j] != word
  }

  /** The text reads the word nowhere. */
  ghost predicate NoWord(s: string, word: string) {
    forall i, j :: 0 <= i <= j <= |s| ==> s[i..j] != word
  }

  lemma FirstWordIsFound(s: string, word: string, p: nat)
    requires word != [] && FirstWord(s, word, p)
    ensures FindWord(s, word, 0) == p < |s|
  {
    forall k | 0 <= k < p ensures !WordAt(s, word, k) {
      assert k + |word| <= |s|;
    }
    FindWordIs(s, word, 0, p);
  }

  lemma WordNowhere(s: string, word: string)
    requires word != [] && FindWord(s, word, 0) == |s|
    ensures NoWord(s, word)
  {
    NoWordBefore(s, word, 0);
    forall i, j | 0 <= i <= j <= |s| ensures s[i..j] != word {
      if j == i + |word| { assert !WordAt(s, word, i); }
    }
  }

  lemma WordSomewhere(s: string, word: string)
    requires FindWord(s, word, 0) < |s|
    ensures !NoWord(s, word)
  {
    var p := FindWord(s, word, 0);
    assert s[p..p + |word|] == word;
  }

  lemma NoWordIff(s: string, word: string)
    requires word != []
    ensures NoWord(s, word) <==> FindWord(s, word, 0) == |s|
  {
    hide *;
    if FindWord(s, word, 0) == |s| { WordNowhere(s, word); } else { WordSomewhere(s, word); }
  }

  lemma OtherStart(s: string, word: string, i: nat)
    requires i < |s| && word != [] && s[i] != word[0]
    ensures !WordAt(s, word, i)
  {
    assert i + |word| <= |s| ==> s[i..i + |word|][0] == s[i];
  }

  lemma OtherSecond(s: string, word: string, i: nat)
    requires i + 1 < |s| && |word| > 1 && s[i + 1] != word[1]
    ensures !WordAt(s, word, i)
  {
    assert i + |word| <= |s| ==> s[i..i + |word|][1] == s[i + 1];
  }

  /** A word does not occur where its first character does not. */
  lemma ClearGap(s: string, word: string, i: nat, j: nat)
    requires i <= j <= |s| && word != [] && word[0] !in s[i..j]
    ensures Clear(s, word, i, j)
  {
    forall k | i <= k < j ensures !WordAt(s, word, k) {
      assert s[k] == s[i..j][k - i];
      OtherStart(s, word, k);
    }
  }

  /** Text without the word's quote is passed over. */
  lemma PassesGap(s: string, i: nat, gap: string, rest: string, w: string)
    requires i <= |s| && s[i..] == gap + rest && '"' !in gap && w != [] && w[0] == '"'
    ensures var j := i + |gap|; j <= |s| && Clear(s, w, i, j) && s[j..] == rest
  {
    SplitReads(s, i, gap, rest);
    ClearGap(s, w, i, i + |gap|);
  }

  /** Where the text behind a quote lies. */
  lemma OpeningLies(s: string, i: nat, u: string, rest: string)
    requires i <= |s| && s[i..] == ['"'] + (u + rest)
    ensures i + 1 + |u| <= |s| && s[i] == '"' && s[i + 1..i + 1 + |u|] == u && s[i + 1 + |u|..] == rest
  {
    SplitReads(s, i, ['"'], u + rest);
    SplitReads(s, i + 1, u, rest);
    assert s[i] == s[i..i + 1][0];
  }

  /** Where a longer word is found, its prefix is found. */
  lemma {:induction false} FindsPrefix(s: string, word: string, longer: string, i: nat)
    requires i <= |s| && word <= longer && FindWord(s, longer, i) < |s|
    ensures FindWord(s, word, i) < |s|
    decreases |s| - i
  {
    if WordAt(s, longer, i) {
      assert s[i..i + |word|] == s[i..i + |longer|][..|word|];
    } else {
      FindsPrefix(s, word, longer, i + 1);
    }
  }

  // ---------- numbers ----------

  predicate IsDigit(c: char) {
    '0' <= c <= '9'
  }

  predicate AllDigits(s: string) {
    forall i :: 0 <= i < |s| ==> IsDigit(s[i])
  }

  function DigitOf(c: char): nat
    requires IsDigit(c)
  {
    c as nat - '0' as nat
  }

  /** The decimal form a stream prints. */
  function Digits(n: nat): (s: string)
    ensures s != [] && AllDigits(s)
  {
    var d := ['0' + (n % 10) as char];
    if n < 10 then d else Digits(n / 10) + d
  }

  function Value(s: string): nat
    requires AllDigits(s)
  {
    if s == [] then 0 else 10 * Value(s[..|s| - 1]) + DigitOf(s[|s| - 1])
  }

  lemma {:induction false} ValueOfDigits(n: nat)
    ensures Value(Digits(n)) == n
  {
    var s := Digits(n);
    if n >= 10 {
      ValueOfDigits(n / 10);
      assert s[..|s| - 1] == Digits(n / 10);
    }
  }

  /** The leftmost digit weighs most. */
  lemma ValueSnoc(s: string, c: char)
    requires AllDigits(s) && IsDigit(c)
    ensures AllDigits(s + [c]) && Value(s + [c]) == 10 * Value(s) + (c as nat - 48)
  {
    assert (s + [c])[..|s|] == s;
  }

  /** No number but zero is printed with a leading zero. */
  lemma {:induction false} NoLeadingZero(n: nat)
    ensures Digits(n)[0] == '0' <==> n == 0
    ensures n < 10 ==> |Digits(n)| == 1
  {
    if n >= 10 { NoLeadingZero(n / 10); }
  }

  /** Where the run of digits from position i ends. */
  function DigitEnd(s: string, i: nat): (e: nat)
    requires i <= |s|
    ensures i <= e <= |s| && AllDigits(s[i..e])
    decreases |s| - i
  {
    if i == |s| || !IsDigit(s[i]) then i else
      var e := DigitEnd(s, i + 1);
      assert s[i..e] == [s[i]] + s[i + 1..e];
      e
  }

  lemma {:induction false} DigitEndIs(s: string, i: nat, e: nat)
    requires i <= e <= |s| && AllDigits(s[i..e]) && (e < |s| ==> !IsDigit(s[e]))
    ensures DigitEnd(s, i) == e
    decreases e - i
  {
    if i < e {
      assert s[i] == s[i..e][0];
      assert s[i + 1..e] == s[i..e][1..];
      DigitEndIs(s, i + 1, e);
    }
  }

  method DigitRun(s: string, start: nat) returns (end: nat)
    requires start <= |s|
    ensures end == DigitEnd(s, start)
  {
    end := start;
    while end < |s| && IsDigit(s[end])
      invariant start <= end <= |s| && DigitEnd(s, end) == DigitEnd(s, start)
    {
      end := end + 1;
    }
  }

  /** `std::stoull` on a run of digits: the value, or an exception when it needs more than 64 bits. */
  datatype Number = Parsed(value: U64) | OutOfRange

  function StoULL(s: string): Number
    requires AllDigits(s)
  {
    if Value(s) < TWO64 then Parsed(Value(s)) else OutOfRange
  }

  lemma StoULLOfDigits(n: U64)
    ensures StoULL(Digits(n)) == Parsed(n)
  {
    ValueOfDigits(n);
  }
}
